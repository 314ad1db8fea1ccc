// The worker pool of threadpool.c as a transition system: one action per region
// protected by the pool mutex or by a loop's wq_mutex.
module ThreadPool {
  import opened Counting

  // Queue entries: a request by its number, or one of the two messages.
  const RUN_SLOW := -2
  const EXIT := -3

  // No thread, no request.
  const NONE := -1

  const UV_ECANCELED := -125

  // Where a worker is. Loop holds the pool mutex; Parked waits on cond; Woken was
  // signalled and, like Start and Relock, is about to take the mutex.
  datatype Pc = Start | Loop | Parked | Woken | Running(slow: bool) | Ran(slow: bool) | Relock(slow: bool) | Exited

  // What w->work points to.
  datatype Work = Todo | Null | Cancelled

  // ran counts the runs of the work function, done lists the statuses the done
  // callback got; canceled records that a cancel of this request returned 0.
  datatype Record = Record(work: Work, ran: nat, canceled: bool, done: seq<int>)

  // What the loop thread is doing about its queue of finished requests.
  datatype LoopPc = Idle | Notified | Draining

  // job[t] is the request worker t has taken; canceling the one a cancel has taken
  // out of its queue; begun and begunSlow list the requests in the order workers
  // started them.
  datatype State = State(
    ws: seq<Pc>, job: seq<int>, holder: int,
    wq: seq<int>, slowq: seq<int>, idle: int, slowRunning: int,
    loopq: seq<int>, batch: seq<int>, async: bool, loop: LoopPc, canceling: int,
    recs: seq<Record>, begun: seq<int>, begunSlow: seq<int>)

  // wake is the parked worker a signal of this step goes to.
  datatype Action =
    | Acquire(t: nat) | Iterate(t: nat, wake: nat) | DoWork(t: nat) | Deliver(t: nat) | Spurious(t: nat)
    | PostFast(wake: nat) | PostSlow(wake: nat) | PostExit(wake: nat)
    | CancelTake(id: nat) | CancelPut
    | TakeAsync | MoveBatch | DoneOne | EndDone

  function Threshold(n: nat): nat { (n + 1) / 2 }

  predicate AtLimit(s: State) { s.slowRunning >= Threshold(|s.ws|) }

  predicate HasSlow(s: State) { Count(s.wq, RUN_SLOW) > 0 }

  // The wait condition of the worker loop.
  predicate MustWait(s: State) {
    |s.wq| == 0 || (|s.wq| == 1 && s.wq[0] == RUN_SLOW && AtLimit(s))
  }

  // uv_cond_signal: one parked worker, if there is any, becomes Woken.
  predicate CanSignal(ws: seq<Pc>, wake: nat) {
    forall t :: 0 <= t < |ws| && ws[t].Parked? ==> wake < |ws| && ws[wake].Parked?
  }

  function Signal(ws: seq<Pc>, wake: nat): seq<Pc> {
    if wake < |ws| && ws[wake].Parked? then ws[wake := Woken] else ws
  }

  function SignalIfIdle(s: State, wake: nat): State {
    if s.idle > 0 then s.(ws := Signal(s.ws, wake)) else s
  }

  function Rec(recs: seq<Record>, id: int): Record {
    if 0 <= id < |recs| then recs[id] else NewRecord()
  }

  function SetRec(recs: seq<Record>, id: int, r: Record): seq<Record> {
    if 0 <= id < |recs| then recs[id := r] else recs
  }

  function NewRecord(): Record { Record(Todo, 0, false, []) }

  // !uv__queue_empty(&w->wq): the request is linked into some queue.
  predicate Linked(s: State, id: int) {
    Count(s.wq, id) + Count(s.slowq, id) + Count(s.loopq, id) + Count(s.batch, id) > 0
  }

  // ---------- the steps ----------

  function Grab(s: State, t: nat): State
    requires t < |s.ws|
  {
    s.(holder := t, ws := s.ws[t := Loop],
       idle := if s.ws[t].Woken? then s.idle - 1 else s.idle,
       slowRunning := if s.ws[t].Relock? && s.ws[t].slow then s.slowRunning - 1 else s.slowRunning)
  }

  function Park(s: State, t: nat): State
    requires t < |s.ws|
  {
    s.(idle := s.idle + 1, ws := s.ws[t := Parked], holder := NONE)
  }

  function Leave(s: State, t: nat, wake: nat): State
    requires t < |s.ws|
  {
    s.(ws := Signal(s.ws, wake)[t := Exited], holder := NONE)
  }

  function TakeRequest(s: State, t: nat): State
    requires t < |s.ws| == |s.job| && |s.wq| > 0
  {
    s.(wq := s.wq[1..], ws := s.ws[t := Running(false)], job := s.job[t := s.wq[0]], holder := NONE,
      begun := s.begun + [s.wq[0]])
  }

  function Requeue(s: State): State
    requires |s.wq| > 0
  {
    s.(wq := s.wq[1..] + [RUN_SLOW])
  }

  function DropMessage(s: State): State
    requires |s.wq| > 0
  {
    s.(wq := s.wq[1..])
  }

  // Takes the first pending slow request; the message goes back if there are more.
  function TakeSlow(s: State): State
    requires |s.wq| > 0 && |s.slowq| > 0
  {
    s.(wq := if |s.slowq| > 1 then s.wq[1..] + [RUN_SLOW] else s.wq[1..],
       slowq := s.slowq[1..], slowRunning := s.slowRunning + 1, begunSlow := s.begunSlow + [s.slowq[0]])
  }

  function StartSlow(s: State, t: nat, wake: nat): State
    requires t < |s.ws| == |s.job| && |s.wq| > 0 && |s.slowq| > 0
  {
    var s1 := if |s.slowq| > 1 then SignalIfIdle(TakeSlow(s), wake) else TakeSlow(s);
    s1.(ws := s1.ws[t := Running(true)], job := s1.job[t := s.slowq[0]], holder := NONE)
  }

  // One pass of for(;;) by the worker holding the mutex.
  function IterateBy(s: State, t: nat, wake: nat): State
    requires t < |s.ws| == |s.job|
  {
    if MustWait(s) then Park(s, t)
    else if s.wq[0] == EXIT then Leave(s, t, wake)
    else if s.wq[0] != RUN_SLOW then TakeRequest(s, t)
    else if AtLimit(s) then Requeue(s)
    else if |s.slowq| == 0 then DropMessage(s)
    else StartSlow(s, t, wake)
  }

  function RunWork(s: State, t: nat): State
    requires t < |s.ws| == |s.job| && s.ws[t].Running?
  {
    var r := Rec(s.recs, s.job[t]);
    s.(ws := s.ws[t := Ran(s.ws[t].slow)], recs := SetRec(s.recs, s.job[t], r.(ran := r.ran + 1)))
  }

  function Finish(s: State, t: nat): State
    requires t < |s.ws| == |s.job| && s.ws[t].Ran?
  {
    s.(ws := s.ws[t := Relock(s.ws[t].slow)], job := s.job[t := NONE],
       recs := SetRec(s.recs, s.job[t], Rec(s.recs, s.job[t]).(work := Null)), loopq := s.loopq + [s.job[t]],
         async := true)
  }

  function Wake(s: State, t: nat): State
    requires t < |s.ws|
  {
    s.(ws := s.ws[t := Woken])
  }

  function Append(s: State, x: int, wake: nat): State {
    SignalIfIdle(s.(wq := s.wq + [x]), wake)
  }

  function SubmitFast(s: State, wake: nat): State {
    Append(s.(recs := s.recs + [NewRecord()]), |s.recs|, wake)
  }

  function PushSlow(s: State): State {
    s.(recs := s.recs + [NewRecord()], slowq := s.slowq + [|s.recs|])
  }

  function SubmitSlow(s: State, wake: nat): State {
    if HasSlow(s) then PushSlow(s) else Append(PushSlow(s), RUN_SLOW, wake)
  }

  function Unlink(s: State, id: nat): State {
    s.(wq := Drop(s.wq, id), slowq := Drop(s.slowq, id), loopq := Drop(s.loopq, id), batch := Drop(s.batch, id),
      canceling := id)
  }

  function TryCancel(s: State, id: nat): State {
    if Linked(s, id) && !Rec(s.recs, id).work.Null? then Unlink(s, id) else s
  }

  function PutCanceled(s: State): State {
    s.(canceling := NONE, recs := SetRec(s.recs, s.canceling,
      Rec(s.recs, s.canceling).(work := Cancelled, canceled := true)),
       loopq := s.loopq + [s.canceling], async := true)
  }

  function Report(s: State): State
    requires |s.batch| > 0
  {
    var r := Rec(s.recs, s.batch[0]);
    s.(batch := s.batch[1..],
       recs := SetRec(s.recs, s.batch[0], r.(done := r.done + [if r.work.Cancelled? then UV_ECANCELED else 0])))
  }

  predicate Enabled(s: State, a: Action) {
    match a
    case Acquire(t) => t < |s.ws| && s.holder == NONE && (s.ws[t].Start? || s.ws[t].Woken? || s.ws[t].Relock?)
    case Iterate(t, wake) => t < |s.ws| == |s.job| && s.holder == t && CanSignal(s.ws, wake)
    case DoWork(t) => t < |s.ws| == |s.job| && s.ws[t].Running?
    case Deliver(t) => t < |s.ws| == |s.job| && s.ws[t].Ran?
    case Spurious(t) => t < |s.ws| && s.ws[t].Parked?
    case PostFast(wake) => s.holder == NONE && CanSignal(s.ws, wake)
    case PostSlow(wake) => s.holder == NONE && CanSignal(s.ws, wake)
    case PostExit(wake) => s.holder == NONE && CanSignal(s.ws, wake) && Count(s.wq, EXIT) == 0
    case CancelTake(id) => s.holder == NONE && s.canceling == NONE && id < |s.recs| && |s.recs[id].done| == 0
    case CancelPut => s.canceling != NONE
    case TakeAsync => s.loop.Idle? && s.async && s.canceling == NONE
    case MoveBatch => s.loop.Notified? && s.canceling == NONE
    case DoneOne => s.loop.Draining? && |s.batch| > 0 && s.canceling == NONE
    case EndDone => s.loop.Draining? && |s.batch| == 0 && s.canceling == NONE
  }

  function Do(s: State, a: Action): State
    requires Enabled(s, a)
  {
    match a
    case Acquire(t) => Grab(s, t)
    case Iterate(t, wake) => IterateBy(s, t, wake)
    case DoWork(t) => RunWork(s, t)
    case Deliver(t) => Finish(s, t)
    case Spurious(t) => Wake(s, t)
    case PostFast(wake) => SubmitFast(s, wake)
    case PostSlow(wake) => SubmitSlow(s, wake)
    case PostExit(wake) => Append(s, EXIT, wake)
    case CancelTake(id) => TryCancel(s, id)
    case CancelPut => PutCanceled(s)
    case TakeAsync => s.(async := false, loop := Notified)
    case MoveBatch => s.(batch := s.loopq, loopq := [], loop := Draining)
    case DoneOne => Report(s)
    case EndDone => s.(loop := Idle)
  }

  // The pool as init_threads leaves it, with 1 to MAX_THREADPOOL_SIZE workers.
  predicate Init(s: State) {
    && 1 <= |s.ws| <= 1024 && (forall t :: 0 <= t < |s.ws| ==> s.ws[t].Start?)
    && |s.job| == |s.ws| && (forall t :: 0 <= t < |s.ws| ==> s.job[t] == NONE)
    && s.holder == NONE && |s.wq| == 0 && |s.slowq| == 0 && s.idle == 0 && s.slowRunning == 0
    && |s.loopq| == 0 && |s.batch| == 0 && !s.async && s.loop.Idle? && s.canceling == NONE
    && |s.recs| == 0 && |s.begun| == 0 && |s.begunSlow| == 0
  }

  // A run: a sequence of actions, each enabled where it is taken.
  predicate CanRun(s: State, run: seq<Action>)
    decreases |run|
  {
    run == [] || (Enabled(s, run[0]) && CanRun(Do(s, run[0]), run[1..]))
  }

  function End(s: State, run: seq<Action>): State
    requires CanRun(s, run)
    decreases |run|
  {
    if run == [] then s else End(Do(s, run[0]), run[1..])
  }

  // ---------- the invariant ----------

  // How many workers will look at the queue without needing a signal, how many are
  // parked, how many are inside uv_cond_wait, how many are on slow work.
  datatype Tally = Tally(coming: int, parked: int, waiting: int, slow: int)

  function Of(p: Pc): Tally {
    match p
    case Start => Tally(1, 0, 0, 0)
    case Loop => Tally(1, 0, 0, 0)
    case Parked => Tally(0, 1, 1, 0)
    case Woken => Tally(1, 0, 1, 0)
    case Running(slow) => Tally(0, 0, 0, if slow then 1 else 0)
    case Ran(slow) => Tally(0, 0, 0, if slow then 1 else 0)
    case Relock(slow) => if slow then Tally(0, 0, 0, 1) else Tally(1, 0, 0, 0)
    case Exited => Tally(0, 0, 0, 0)
  }

  function Plus(a: Tally, b: Tally): Tally {
    Tally(a.coming + b.coming, a.parked + b.parked, a.waiting + b.waiting, a.slow + b.slow)
  }

  function Sum(ws: seq<Pc>): Tally {
    if ws == [] then Tally(0, 0, 0, 0) else Plus(Of(ws[0]), Sum(ws[1..]))
  }

  // Entries a worker could take now.
  function Takeable(s: State): int { |s.wq| - (if HasSlow(s) && AtLimit(s) then 1 else 0) }

  // The counters are exact and a parked worker leaves nothing takeable behind unless
  // enough others are on their way to the queue.
  ghost predicate Tallies(s: State) {
    Balanced(Sum(s.ws), Takeable(s), s.idle, s.slowRunning, Threshold(|s.ws|))
  }

  ghost predicate Balanced(m: Tally, takeable: int, idle: int, slowRunning: int, limit: nat) {
    idle == m.waiting && slowRunning == m.slow && slowRunning <= limit && (m.parked > 0 ==> takeable <= m.coming)
  }

  ghost predicate Control(ws: seq<Pc>, job: seq<int>, holder: int) {
    && 1 <= |ws| == |job| && NONE <= holder < |ws|
    && (forall t :: 0 <= t < |ws| ==> (ws[t].Loop? <==> holder == t))
    && (forall t :: 0 <= t < |ws| ==> job[t] >= NONE)
    && (forall t :: 0 <= t < |ws| ==> (job[t] != NONE <==> ws[t].Running? || ws[t].Ran?))
  }

  ghost predicate Delivery(s: State) {
    && (|s.batch| > 0 ==> s.loop.Draining?)
    && (|s.loopq| > 0 ==> s.async || s.loop.Notified?)
    && (forall i :: 0 <= i < |s.loopq| ==> s.loopq[i] >= 0)
    && (forall i :: 0 <= i < |s.batch| ==> s.batch[i] >= 0)
  }

  ghost predicate Queues(s: State) {
    && Count(s.wq, RUN_SLOW) <= 1
    && (|s.slowq| > 0 ==> HasSlow(s))
    && (forall i :: 0 <= i < |s.wq| ==> s.wq[i] >= 0 || s.wq[i] == RUN_SLOW || s.wq[i] == EXIT)
    && (forall i :: 0 <= i < |s.slowq| ==> s.slowq[i] >= 0)
    && s.canceling >= NONE
  }

  // How many places request id is in; a done callback that has run is a place too.
  function Places(s: State, id: int): nat {
    Count(s.wq, id) + Count(s.slowq, id) + Count(s.job, id) + (if s.canceling == id then 1 else 0)
    + Count(s.loopq, id) + Count(s.batch, id) + |Rec(s.recs, id).done|
  }

  // A submitted request is in exactly one place, an unsubmitted one nowhere.
  ghost predicate OnePlace(s: State, id: int) {
    Places(s, id) == if id < |s.recs| then 1 else 0
  }

  predicate Fresh(r: Record) { r.work.Todo? && r.ran == 0 && !r.canceled }
  predicate Worked(r: Record) { r.work.Todo? && r.ran == 1 && !r.canceled }
  predicate Cancelable(r: Record) { !r.work.Null? && r.ran == 0 && (r.canceled <==> r.work.Cancelled?) }
  predicate Finished(r: Record) {
    (r.work.Null? && r.ran == 1 && !r.canceled) || (r.work.Cancelled? && r.ran == 0 && r.canceled)
  }
  predicate Reported(r: Record) {
    Finished(r) && (|r.done| > 0 ==> r.done[0] == if r.canceled then UV_ECANCELED else 0)
  }

  // What the record says about a request, by the place it is in.
  ghost predicate Stage(s: State, id: int) {
    && (Count(s.wq, id) + Count(s.slowq, id) > 0 ==> Fresh(Rec(s.recs, id)))
    && (s.canceling == id ==> Cancelable(Rec(s.recs, id)))
    && (Count(s.loopq, id) + Count(s.batch, id) > 0 ==> Finished(Rec(s.recs, id)))
    && (|Rec(s.recs, id).done| > 0 ==> Reported(Rec(s.recs, id)))
  }

  ghost predicate Placed(s: State) {
    (forall id :: id >= 0 ==> OnePlace(s, id)) && (forall id :: id >= 0 ==> Stage(s, id))
  }

  // What the record says about the request j of a worker at p.
  ghost predicate Busy(recs: seq<Record>, p: Pc, j: int) {
    (p.Running? ==> Fresh(Rec(recs, j))) && (p.Ran? ==> Worked(Rec(recs, j)))
  }

  ghost predicate AllBusy(recs: seq<Record>, ws: seq<Pc>, job: seq<int>)
    requires |job| == |ws|
  {
    forall t :: 0 <= t < |ws| ==> Busy(recs, ws[t], job[t])
  }

  ghost predicate Requests(s: State)
    requires |s.job| == |s.ws|
  {
    Placed(s) && AllBusy(s.recs, s.ws, s.job)
  }

  // Requests are numbered in post order: first posted, first started.
  ghost predicate Increasing(q: seq<int>) {
    forall i, j :: 0 <= i < j < |q| && q[i] >= 0 && q[j] >= 0 ==> q[i] < q[j]
  }

  // Everything in a, then everything in b, then the next number n.
  ghost predicate InLine(a: seq<int>, b: seq<int>, n: int) {
    Increasing(a) && Increasing(b) && (forall i :: 0 <= i < |a| ==> a[i] >= 0)
    && (forall i, j :: 0 <= i < |a| && 0 <= j < |b| && b[j] >= 0 ==> a[i] < b[j])
    && (forall i :: 0 <= i < |a| ==> a[i] < n) && (forall i :: 0 <= i < |b| ==> b[i] < n)
  }

  ghost predicate Fifo(s: State) {
    InLine(s.begun, s.wq, |s.recs|) && InLine(s.begunSlow, s.slowq, |s.recs|)
  }

  ghost predicate Inv(s: State) {
    Control(s.ws, s.job, s.holder) && Tallies(s) && Queues(s) && Delivery(s) && Requests(s) && Fifo(s)
  }

  // ---------- counting workers ----------

  // Going from a to b trades one worker at p for one at p'.
  ghost predicate Traded(a: Tally, p: Tally, b: Tally, p': Tally) {
    b.coming + p.coming == a.coming + p'.coming && b.parked + p.parked == a.parked + p'.parked
    && b.waiting + p.waiting == a.waiting + p'.waiting && b.slow + p.slow == a.slow + p'.slow
  }

  lemma {:induction false} SumUpdate(ws: seq<Pc>, t: nat, p: Pc)
    requires t < |ws|
    ensures Traded(Sum(ws), Of(ws[t]), Sum(ws[t := p]), Of(p))
  {
    if t > 0 {
      assert ws[t := p][1..] == ws[1..][t - 1 := p];
      SumUpdate(ws[1..], t - 1, p);
    } else {
      assert ws[t := p][1..] == ws[1..];
    }
  }

  ghost predicate Leq(a: Tally, b: Tally) {
    a.coming <= b.coming && a.parked <= b.parked && a.waiting <= b.waiting && a.slow <= b.slow
  }

  lemma {:induction false} SumNonNegative(ws: seq<Pc>)
    ensures Leq(Tally(0, 0, 0, 0), Sum(ws)) && Sum(ws).parked <= Sum(ws).waiting
  {
    if ws != [] { SumNonNegative(ws[1..]); }
  }

  lemma {:induction false} SumPositive(ws: seq<Pc>, t: nat)
    requires t < |ws|
    ensures Leq(Of(ws[t]), Sum(ws))
  {
    SumNonNegative(ws[1..]);
    if t > 0 {
      SumPositive(ws[1..], t - 1);
      assert ws[1..][t - 1] == ws[t] && Leq(Tally(0, 0, 0, 0), Of(ws[0]));
    }
  }

  lemma {:induction false} NoneParked(ws: seq<Pc>)
    requires forall t :: 0 <= t < |ws| ==> !ws[t].Parked?
    ensures Sum(ws).parked <= 0
  {
    if ws != [] { NoneParked(ws[1..]); }
  }

  // A signal turns one parked worker, if there is one, into a coming one.
  ghost predicate Signalled(m: Tally, m': Tally) {
    && m'.waiting == m.waiting && m'.slow == m.slow
    && (m.parked > 0 ==> m'.coming == m.coming + 1 && m'.parked == m.parked - 1)
    && (m.parked <= 0 ==> m'.coming == m.coming && m'.parked == m.parked)
  }

  lemma SignalSum(ws: seq<Pc>, wake: nat)
    requires CanSignal(ws, wake)
    ensures Signalled(Sum(ws), Sum(Signal(ws, wake)))
  {
    if wake < |ws| && ws[wake].Parked? {
      SumPositive(ws, wake);
      SumUpdate(ws, wake, Woken);
    } else {
      NoneParked(ws);
    }
  }

  // ---------- the counters and the wake-ups ----------

  lemma GrabTallies(s: State, t: nat)
    requires t < |s.ws| && Tallies(s) && (s.ws[t].Start? || s.ws[t].Woken? || s.ws[t].Relock?)
    ensures Tallies(Grab(s, t))
  {
    SumUpdate(s.ws, t, Loop);
  }

  lemma ParkTallies(s: State, t: nat)
    requires t < |s.ws| && Tallies(s) && s.ws[t].Loop? && MustWait(s)
    ensures Tallies(Park(s, t))
  {
    SumUpdate(s.ws, t, Parked);
    SumPositive(s.ws, t);
    if |s.wq| == 1 { CountAt(s.wq, 0); }
  }

  lemma LeaveTallies(s: State, t: nat, wake: nat)
    requires t < |s.ws| && Tallies(s) && s.ws[t].Loop? && CanSignal(s.ws, wake)
    ensures Tallies(Leave(s, t, wake))
  {
    SignalSum(s.ws, wake);
    SumUpdate(Signal(s.ws, wake), t, Exited);
  }

  lemma TakeRequestTallies(s: State, t: nat)
    requires t < |s.ws| == |s.job| && Tallies(s) && s.ws[t].Loop? && |s.wq| > 0 && s.wq[0] != RUN_SLOW
    ensures Tallies(TakeRequest(s, t))
  {
    SumUpdate(s.ws, t, Running(false));
    assert Of(s.ws[t]).coming == 1 && Of(Running(false)).coming == 0;
    assert HasSlow(TakeRequest(s, t)) <==> HasSlow(s);
  }

  lemma RequeueTallies(s: State)
    requires Tallies(s) && |s.wq| > 0 && s.wq[0] == RUN_SLOW
    ensures Tallies(Requeue(s))
  {
    CountAppend(s.wq[1..], RUN_SLOW, RUN_SLOW);
  }

  lemma DropMessageTallies(s: State)
    requires Tallies(s) && |s.wq| > 0 && s.wq[0] == RUN_SLOW && !AtLimit(s)
    ensures Tallies(DropMessage(s))
  {
  }

  lemma TakeableBound(s: State)
    ensures Takeable(s) <= |s.wq| && (!AtLimit(s) ==> Takeable(s) == |s.wq|)
  {
  }

  // A worker goes on to slow work, after a signal or without one.
  lemma StartSlowSum(ws: seq<Pc>, t: nat, wake: nat, signals: bool, ws': seq<Pc>)
    requires t < |ws| && ws[t].Loop? && CanSignal(ws, wake)
    requires ws' == (if signals then Signal(ws, wake) else ws)[t := Running(true)]
    ensures Sum(ws').waiting == Sum(ws).waiting && Sum(ws').slow == Sum(ws).slow + 1
    ensures if signals && Sum(ws).parked > 0
      then Sum(ws').coming == Sum(ws).coming && Sum(ws').parked == Sum(ws).parked - 1
      else Sum(ws').coming == Sum(ws).coming - 1 && Sum(ws').parked == Sum(ws).parked
  {
    if signals {
      SignalSum(ws, wake);
      SumUpdate(Signal(ws, wake), t, Running(true));
    } else {
      SumUpdate(ws, t, Running(true));
    }
  }

  lemma StartSlowBalance(m: Tally, takeable: int, idle: int, limit: nat, m': Tally, takeable': int, more: bool)
    requires Balanced(m, takeable, idle, m.slow, limit) && m.slow < limit && m.parked <= m.waiting
    requires m'.waiting == m.waiting && m'.slow == m.slow + 1
    requires if more && idle > 0 && m.parked > 0 then m'.coming == m.coming && m'.parked == m.parked - 1
      else m'.coming == m.coming - 1 && m'.parked == m.parked
    requires takeable' <= if more then takeable else takeable - 1
    ensures Balanced(m', takeable', idle, m'.slow, limit)
  {
  }

  lemma StartedTallies(s: State, t: nat, wake: nat, more: bool, s': State)
    requires t < |s.ws| && Tallies(s) && s.ws[t].Loop? && CanSignal(s.ws, wake) && !AtLimit(s)
    requires s'.ws == (if more && s.idle > 0 then Signal(s.ws, wake) else s.ws)[t := Running(true)]
    requires s'.idle == s.idle && s'.slowRunning == s.slowRunning + 1
    requires |s'.wq| == if more then |s.wq| else |s.wq| - 1
    ensures Tallies(s')
  {
    SumNonNegative(s.ws);
    TakeableBound(s);
    TakeableBound(s');
    StartSlowSum(s.ws, t, wake, more && s.idle > 0, s'.ws);
    StartSlowBalance(Sum(s.ws), Takeable(s), s.idle, Threshold(|s.ws|), Sum(s'.ws), Takeable(s'), more);
  }

  lemma StartSlowTallies(s: State, t: nat, wake: nat)
    requires t < |s.ws| == |s.job| && Tallies(s) && s.ws[t].Loop? && CanSignal(s.ws, wake)
    requires |s.wq| > 0 && s.wq[0] == RUN_SLOW && !AtLimit(s) && |s.slowq| > 0
    ensures Tallies(StartSlow(s, t, wake))
  {
    StartedTallies(s, t, wake, |s.slowq| > 1, StartSlow(s, t, wake));
  }

  lemma AppendTallies(s: State, x: int, wake: nat)
    requires Tallies(s) && CanSignal(s.ws, wake)
    ensures Tallies(Append(s, x, wake))
  {
    SignalSum(s.ws, wake);
    CountAppend(s.wq, x, RUN_SLOW);
    SumNonNegative(s.ws);
  }

  lemma RunWorkTallies(s: State, t: nat)
    requires t < |s.ws| == |s.job| && Tallies(s) && s.ws[t].Running?
    ensures Tallies(RunWork(s, t))
  {
    SumUpdate(s.ws, t, Ran(s.ws[t].slow));
    assert Takeable(RunWork(s, t)) == Takeable(s);
  }

  // A worker that is no further from the queue, and the same in all else, changes nothing.
  lemma NoLess(m: Tally, o: Tally, m': Tally, n: Tally, takeable: int, idle: int, slowRunning: int, limit: nat)
    requires Balanced(m, takeable, idle, slowRunning, limit) && Traded(m, o, m', n)
    requires o.coming <= n.coming && o.parked == n.parked && o.waiting == n.waiting && o.slow == n.slow
    ensures Balanced(m', takeable, idle, slowRunning, limit)
  {
  }

  lemma FinishTallies(s: State, t: nat)
    requires t < |s.ws| == |s.job| && Tallies(s) && s.ws[t].Ran?
    ensures Tallies(Finish(s, t))
  {
    var p := Relock(s.ws[t].slow);
    SumUpdate(s.ws, t, p);
    var m, m' := Sum(s.ws), Sum(s.ws[t := p]);
    NoLess(m, Of(s.ws[t]), m', Of(p), Takeable(s), s.idle, s.slowRunning, Threshold(|s.ws|));
  }

  lemma WakeTallies(s: State, t: nat)
    requires t < |s.ws| && Tallies(s) && s.ws[t].Parked?
    ensures Tallies(Wake(s, t))
  {
    SumPositive(s.ws, t);
    SumUpdate(s.ws, t, Woken);
  }

  lemma UnlinkTallies(s: State, id: nat)
    requires Tallies(s)
    ensures Tallies(Unlink(s, id))
  {
    CountDrop(s.wq, id, RUN_SLOW);
    var p := DropShape(s.wq, id);
  }

  // ---------- who is where ----------

  // Worker t moves from p to p', taking or giving back the mutex.
  ghost predicate Moves(p: Pc, p': Pc, t: nat, holder: int, holder': int, job: int, job': int) {
    && (p.Loop? ==> !p'.Loop? && holder' == NONE) && (p'.Loop? ==> !p.Loop? && holder == NONE && holder' == t)
    && (!p.Loop? && !p'.Loop? ==> holder' == holder)
    && job' >= NONE && (job' != NONE <==> p'.Running? || p'.Ran?)
  }

  lemma MoveControl(ws: seq<Pc>, job: seq<int>, holder: int, t: nat, p: Pc, j: int, holder': int)
    requires t < |ws| && Control(ws, job, holder) && Moves(ws[t], p, t, holder, holder', job[t], j)
    ensures Control(ws[t := p], job[t := j], holder')
  {
  }

  lemma SignalControl(ws: seq<Pc>, job: seq<int>, holder: int, wake: nat)
    requires Control(ws, job, holder)
    ensures Control(Signal(ws, wake), job, holder)
  {
  }

  // ---------- the queues ----------

  lemma TakeRequestQueues(s: State, t: nat)
    requires t < |s.ws| == |s.job| && Queues(s) && |s.wq| > 0 && s.wq[0] != RUN_SLOW
    ensures Queues(TakeRequest(s, t))
  {
  }

  lemma RequeueQueues(s: State)
    requires Queues(s) && |s.wq| > 0 && s.wq[0] == RUN_SLOW
    ensures Queues(Requeue(s))
  {
    CountAppend(s.wq[1..], RUN_SLOW, RUN_SLOW);
  }

  lemma DropMessageQueues(s: State)
    requires Queues(s) && |s.wq| > 0 && |s.slowq| == 0
    ensures Queues(DropMessage(s))
  {
  }

  lemma TakeSlowQueues(s: State)
    requires Queues(s) && |s.wq| > 0 && s.wq[0] == RUN_SLOW && |s.slowq| > 0
    ensures Queues(TakeSlow(s))
  {
    CountAppend(s.wq[1..], RUN_SLOW, RUN_SLOW);
  }

  lemma AppendQueues(s: State, x: int, wake: nat)
    requires Count(s.wq, RUN_SLOW) <= 1 && (|s.slowq| > 0 ==> HasSlow(s) || x == RUN_SLOW) && s.canceling >= NONE
    requires forall i :: 0 <= i < |s.wq| ==> s.wq[i] >= 0 || s.wq[i] == RUN_SLOW || s.wq[i] == EXIT
    requires forall i :: 0 <= i < |s.slowq| ==> s.slowq[i] >= 0
    requires x >= 0 || x == EXIT || (x == RUN_SLOW && !HasSlow(s))
    ensures Queues(Append(s, x, wake))
  {
    CountAppend(s.wq, x, RUN_SLOW);
  }

  lemma UnlinkQueues(s: State, id: nat)
    requires Queues(s)
    ensures Queues(Unlink(s, id))
  {
    CountDrop(s.wq, id, RUN_SLOW);
    var p := DropShape(s.wq, id);
    var q := DropShape(s.slowq, id);
  }

  // ---------- one place per request ----------

  lemma TakeRequestPlace(s: State, t: nat, id: int)
    requires t < |s.ws| == |s.job| && |s.wq| > 0 && s.job[t] == NONE && id >= 0 && OnePlace(s, id) && Stage(s, id)
    ensures OnePlace(TakeRequest(s, t), id) && Stage(TakeRequest(s, t), id)
  {
    CountUpdate(s.job, t, s.wq[0], id);
  }

  lemma RequeuePlace(s: State, id: int)
    requires |s.wq| > 0 && s.wq[0] == RUN_SLOW && id >= 0 && OnePlace(s, id) && Stage(s, id)
    ensures OnePlace(Requeue(s), id) && Stage(Requeue(s), id)
  {
    CountAppend(s.wq[1..], RUN_SLOW, id);
  }

  lemma DropMessagePlace(s: State, id: int)
    requires |s.wq| > 0 && s.wq[0] == RUN_SLOW && id >= 0 && OnePlace(s, id) && Stage(s, id)
    ensures OnePlace(DropMessage(s), id) && Stage(DropMessage(s), id)
  {
  }

  lemma StartSlowPlace(s: State, t: nat, wake: nat, id: int)
    requires t < |s.ws| == |s.job| && |s.wq| > 0 && s.wq[0] == RUN_SLOW && |s.slowq| > 0
    requires s.job[t] == NONE && id >= 0 && OnePlace(s, id) && Stage(s, id)
    ensures OnePlace(StartSlow(s, t, wake), id) && Stage(StartSlow(s, t, wake), id)
  {
    var s' := StartSlow(s, t, wake);
    CountUpdate(s.job, t, s.slowq[0], id);
    CountAppend(s.wq[1..], RUN_SLOW, id);
    assert s'.recs == s.recs && s'.loopq == s.loopq && s'.batch == s.batch && s'.canceling == s.canceling;
    assert Count(s'.wq, id) == Count(s.wq, id);
    assert Count(s'.slowq, id) + Count(s'.job, id) == Count(s.slowq, id) + Count(s.job, id);
  }

  lemma RunWorkPlace(s: State, t: nat, id: int)
    requires t < |s.ws| == |s.job| && s.ws[t].Running? && id >= 0 && OnePlace(s, id) && Stage(s, id)
    ensures OnePlace(RunWork(s, t), id) && Stage(RunWork(s, t), id)
  {
    CountAt(s.job, t);
  }

  lemma FinishPlace(s: State, t: nat, id: int)
    requires t < |s.ws| == |s.job| && s.ws[t].Ran? && s.job[t] >= 0 && Busy(s.recs, s.ws[t], s.job[t]) && id >= 0
      && OnePlace(s, id) && Stage(s, id)
    ensures OnePlace(Finish(s, t), id) && Stage(Finish(s, t), id)
  {
    CountAt(s.job, t);
    CountUpdate(s.job, t, NONE, id);
    CountAppend(s.loopq, s.job[t], id);
  }

  lemma AppendPlace(s: State, x: int, wake: nat, id: int)
    requires x < 0 && id >= 0 && OnePlace(s, id) && Stage(s, id)
    ensures OnePlace(Append(s, x, wake), id) && Stage(Append(s, x, wake), id)
  {
    CountAppend(s.wq, x, id);
  }

  lemma SubmitFastPlace(s: State, wake: nat, id: int)
    requires id >= 0 && OnePlace(s, id) && Stage(s, id)
    ensures OnePlace(SubmitFast(s, wake), id) && Stage(SubmitFast(s, wake), id)
  {
    CountAppend(s.wq, |s.recs|, id);
  }

  lemma PushSlowPlace(s: State, id: int)
    requires id >= 0 && OnePlace(s, id) && Stage(s, id)
    ensures OnePlace(PushSlow(s), id) && Stage(PushSlow(s), id)
  {
    CountAppend(s.slowq, |s.recs|, id);
  }

  lemma UnlinkPlace(s: State, x: nat, id: int)
    requires s.canceling == NONE && Linked(s, x) && !Rec(s.recs, x).work.Null? && id >= 0 && OnePlace(s, id)
      && Stage(s, id)
    ensures OnePlace(Unlink(s, x), id) && Stage(Unlink(s, x), id)
  {
    CountDrop(s.wq, x, id);
    CountDrop(s.slowq, x, id);
    CountDrop(s.loopq, x, id);
    CountDrop(s.batch, x, id);
  }

  lemma PutCanceledPlace(s: State, id: int)
    requires s.canceling >= 0 && id >= 0 && OnePlace(s, id) && Stage(s, id)
    ensures OnePlace(PutCanceled(s), id) && Stage(PutCanceled(s), id)
  {
    CountAppend(s.loopq, s.canceling, id);
  }

  lemma MoveBatchPlace(s: State, id: int)
    requires |s.batch| == 0 && id >= 0 && OnePlace(s, id) && Stage(s, id)
    ensures var s' := s.(batch := s.loopq, loopq := [], loop := Draining); OnePlace(s', id) && Stage(s', id)
  {
  }

  lemma ReportPlace(s: State, id: int)
    requires |s.batch| > 0 && id >= 0 && OnePlace(s, id) && Stage(s, id)
    ensures OnePlace(Report(s), id) && Stage(Report(s), id)
  {
    CountAt(s.batch, 0);
  }

  // ---------- what workers hold ----------

  // A request held once is held by one worker.
  lemma Apart(job: seq<int>, t: nat)
    requires t < |job| && Count(job, job[t]) <= 1
    ensures forall u :: 0 <= u < |job| && u != t ==> job[u] != job[t]
  {
    forall u | 0 <= u < |job| && u != t ensures job[u] != job[t] {
      if job[u] == job[t] { CountTwice(job, if t < u then t else u, if t < u then u else t); }
    }
  }

  lemma NotHeld(job: seq<int>, id: int)
    requires Count(job, id) == 0
    ensures forall u :: 0 <= u < |job| ==> job[u] != id
  {
    forall u | 0 <= u < |job| ensures job[u] != id { CountAt(job, u); }
  }

  lemma MoveBusy(recs: seq<Record>, ws: seq<Pc>, job: seq<int>, t: nat, p: Pc, j: int)
    requires t < |ws| == |job| && AllBusy(recs, ws, job) && Busy(recs, p, j)
    ensures AllBusy(recs, ws[t := p], job[t := j])
  {
  }

  lemma SignalBusy(recs: seq<Record>, ws: seq<Pc>, job: seq<int>, wake: nat)
    requires |ws| == |job| && AllBusy(recs, ws, job)
    ensures AllBusy(recs, Signal(ws, wake), job)
  {
  }

  // Only the record of a request no other worker holds changes.
  lemma RecordBusy(recs: seq<Record>, ws: seq<Pc>, job: seq<int>, id: int, r: Record, t: nat)
    requires |ws| == |job| && AllBusy(recs, ws, job)
    requires forall u :: 0 <= u < |ws| && u != t ==> job[u] != id
    requires t < |ws| ==> Busy(SetRec(recs, id, r), ws[t], job[t])
    ensures AllBusy(SetRec(recs, id, r), ws, job)
  {
    forall u | 0 <= u < |ws| ensures Busy(SetRec(recs, id, r), ws[u], job[u]) { assert Busy(recs, ws[u], job[u]); }
  }

  lemma SubmitBusy(recs: seq<Record>, ws: seq<Pc>, job: seq<int>)
    requires |ws| == |job| && AllBusy(recs, ws, job)
    ensures AllBusy(recs + [NewRecord()], ws, job)
  {
    forall u | 0 <= u < |ws| ensures Busy(recs + [NewRecord()], ws[u], job[u]) { assert Busy(recs, ws[u], job[u]); }
  }

  // ---------- first posted, first started ----------

  lemma LineTake(a: seq<int>, b: seq<int>, n: int)
    requires InLine(a, b, n) && |b| > 0 && b[0] >= 0
    ensures InLine(a + [b[0]], b[1..], n)
  {
  }

  lemma LineSkip(a: seq<int>, b: seq<int>, n: int)
    requires InLine(a, b, n) && |b| > 0
    ensures InLine(a, b[1..], n)
  {
  }

  lemma LineMessage(a: seq<int>, b: seq<int>, n: int, x: int)
    requires InLine(a, b, n) && x < 0 <= n
    ensures InLine(a, b + [x], n)
  {
  }

  lemma LinePost(a: seq<int>, b: seq<int>, n: int)
    requires InLine(a, b, n)
    ensures InLine(a, b + [n], n + 1)
  {
  }

  lemma LineGrow(a: seq<int>, b: seq<int>, n: int)
    requires InLine(a, b, n)
    ensures InLine(a, b, n + 1)
  {
  }

  lemma LineCut(a: seq<int>, b: seq<int>, n: int, p: nat, b': seq<int>)
    requires InLine(a, b, n) && p <= |b| && b' == if p < |b| then b[..p] + b[p + 1..] else b
    ensures InLine(a, b', n)
  {
  }

  lemma LineDrop(a: seq<int>, b: seq<int>, n: int, x: int)
    requires InLine(a, b, n)
    ensures InLine(a, Drop(b, x), n)
  {
    var p := DropShape(b, x);
    LineCut(a, b, n, p, Drop(b, x));
  }

  // ---------- every step keeps the invariant ----------

  lemma {:induction false} AllStart(ws: seq<Pc>)
    requires forall t :: 0 <= t < |ws| ==> ws[t].Start?
    ensures var m := Sum(ws); m.coming == |ws| && m.parked == 0 && m.waiting == 0 && m.slow == 0
  {
    if ws != [] { AllStart(ws[1..]); }
  }

  lemma InitPlaced(s: State)
    requires Init(s)
    ensures Placed(s)
  {
    forall id | id >= 0 ensures OnePlace(s, id) && Stage(s, id) { CountNone(s.job, id); }
  }

  lemma InitTallies(s: State)
    requires Init(s)
    ensures Tallies(s)
  {
    AllStart(s.ws);
  }

  lemma InitOthers(s: State)
    requires Init(s)
    ensures Control(s.ws, s.job, s.holder) && Queues(s) && Delivery(s) && Fifo(s)
  {
    assert Queues(s);
    assert Fifo(s);
  }

  lemma InitRequests(s: State)
    requires Init(s)
    ensures Requests(s)
  {
    InitPlaced(s);
    assert AllBusy(s.recs, s.ws, s.job);
  }

  lemma InitInv(s: State)
    requires Init(s)
    ensures Inv(s)
  {
    InitTallies(s);
    InitOthers(s);
    InitRequests(s);
  }

  // Nothing a request can be in has changed.
  lemma SamePlaces(s: State, s': State)
    requires Placed(s) && s'.wq == s.wq && s'.slowq == s.slowq && s'.job == s.job && s'.canceling == s.canceling
    requires s'.loopq == s.loopq && s'.batch == s.batch && s'.recs == s.recs
    ensures Placed(s')
  {
    forall id | id >= 0 ensures OnePlace(s', id) && Stage(s', id) { assert OnePlace(s, id) && Stage(s, id); }
  }

  lemma GrabInv(s: State, t: nat)
    requires Inv(s) && Enabled(s, Acquire(t))
    ensures Inv(Grab(s, t))
  {
    assert s.job[t := s.job[t]] == s.job;
    MoveControl(s.ws, s.job, NONE, t, Loop, s.job[t], t);
    MoveBusy(s.recs, s.ws, s.job, t, Loop, s.job[t]);
    GrabTallies(s, t);
    SamePlaces(s, Grab(s, t));
  }

  lemma ParkInv(s: State, t: nat)
    requires Inv(s) && t < |s.ws| && s.holder == t && MustWait(s)
    ensures Inv(Park(s, t))
  {
    assert s.job[t := s.job[t]] == s.job;
    MoveControl(s.ws, s.job, t, t, Parked, s.job[t], NONE);
    MoveBusy(s.recs, s.ws, s.job, t, Parked, s.job[t]);
    ParkTallies(s, t);
    SamePlaces(s, Park(s, t));
  }

  lemma LeaveInv(s: State, t: nat, wake: nat)
    requires Inv(s) && t < |s.ws| && s.holder == t && CanSignal(s.ws, wake)
    ensures Inv(Leave(s, t, wake))
  {
    var ws1 := Signal(s.ws, wake);
    assert s.job[t := s.job[t]] == s.job;
    SignalControl(s.ws, s.job, t, wake);
    MoveControl(ws1, s.job, t, t, Exited, s.job[t], NONE);
    SignalBusy(s.recs, s.ws, s.job, wake);
    MoveBusy(s.recs, ws1, s.job, t, Exited, s.job[t]);
    LeaveTallies(s, t, wake);
    SamePlaces(s, Leave(s, t, wake));
  }

  lemma TakeRequestInv(s: State, t: nat)
    requires Inv(s) && t < |s.ws| && s.holder == t && |s.wq| > 0 && s.wq[0] != EXIT && s.wq[0] != RUN_SLOW
    ensures Inv(TakeRequest(s, t))
  {
    var s', id := TakeRequest(s, t), s.wq[0];
    assert Stage(s, id) && Fresh(Rec(s.recs, id));
    MoveControl(s.ws, s.job, t, t, Running(false), id, NONE);
    MoveBusy(s.recs, s.ws, s.job, t, Running(false), id);
    TakeRequestTallies(s, t);
    TakeRequestQueues(s, t);
    LineTake(s.begun, s.wq, |s.recs|);
    forall id | id >= 0 ensures OnePlace(s', id) && Stage(s', id) { TakeRequestPlace(s, t, id); }
  }

  lemma RequeueInv(s: State)
    requires Inv(s) && |s.wq| > 0 && s.wq[0] == RUN_SLOW
    ensures Inv(Requeue(s))
  {
    var s' := Requeue(s);
    RequeueTallies(s);
    RequeueQueues(s);
    LineSkip(s.begun, s.wq, |s.recs|);
    LineMessage(s.begun, s.wq[1..], |s.recs|, RUN_SLOW);
    forall id | id >= 0 ensures OnePlace(s', id) && Stage(s', id) { RequeuePlace(s, id); }
  }

  lemma DropMessageInv(s: State)
    requires Inv(s) && |s.wq| > 0 && s.wq[0] == RUN_SLOW && !AtLimit(s) && |s.slowq| == 0
    ensures Inv(DropMessage(s))
  {
    var s' := DropMessage(s);
    DropMessageTallies(s);
    DropMessageQueues(s);
    LineSkip(s.begun, s.wq, |s.recs|);
    forall id | id >= 0 ensures OnePlace(s', id) && Stage(s', id) { DropMessagePlace(s, id); }
  }

  lemma StartSlowInv(s: State, t: nat, wake: nat)
    requires Inv(s) && t < |s.ws| && s.holder == t && CanSignal(s.ws, wake)
    requires |s.wq| > 0 && s.wq[0] == RUN_SLOW && !AtLimit(s) && |s.slowq| > 0
    ensures Inv(StartSlow(s, t, wake))
  {
    var s', id := StartSlow(s, t, wake), s.slowq[0];
    var ws1 := if |s.slowq| > 1 && s.idle > 0 then Signal(s.ws, wake) else s.ws;
    CountAt(s.slowq, 0);
    assert Stage(s, id) && Fresh(Rec(s.recs, id));
    SignalControl(s.ws, s.job, t, wake);
    MoveControl(ws1, s.job, t, t, Running(true), id, NONE);
    SignalBusy(s.recs, s.ws, s.job, wake);
    MoveBusy(s.recs, ws1, s.job, t, Running(true), id);
    StartSlowTallies(s, t, wake);
    TakeSlowQueues(s);
    LineTake(s.begunSlow, s.slowq, |s.recs|);
    LineSkip(s.begun, s.wq, |s.recs|);
    LineMessage(s.begun, s.wq[1..], |s.recs|, RUN_SLOW);
    forall id | id >= 0 ensures OnePlace(s', id) && Stage(s', id) { StartSlowPlace(s, t, wake, id); }
  }

  lemma RunWorkInv(s: State, t: nat)
    requires Inv(s) && Enabled(s, DoWork(t))
    ensures Inv(RunWork(s, t))
  {
    var s', id := RunWork(s, t), s.job[t];
    var p := Ran(s.ws[t].slow);
    assert s.job[t := id] == s.job;
    MoveControl(s.ws, s.job, s.holder, t, p, id, s.holder);
    assert OnePlace(s, id) && Busy(s.recs, s.ws[t], id);
    CountAt(s.job, t);
    Apart(s.job, t);
    IdleBusy(s.recs, s.ws, s.job, t, p, s'.recs[id]);
    RunWorkTallies(s, t);
    forall id | id >= 0 ensures OnePlace(s', id) && Stage(s', id) { RunWorkPlace(s, t, id); }
  }

  // Worker t moves to p while the record of its request becomes r.
  lemma IdleBusy(recs: seq<Record>, ws: seq<Pc>, job: seq<int>, t: nat, p: Pc, r: Record)
    requires t < |ws| == |job| && AllBusy(recs, ws, job) && Busy(SetRec(recs, job[t], r), p, job[t])
    requires forall u :: 0 <= u < |ws| && u != t ==> job[u] != job[t]
    ensures AllBusy(SetRec(recs, job[t], r), ws[t := p], job)
  {
    forall u | 0 <= u < |ws| ensures Busy(SetRec(recs, job[t], r), ws[t := p][u], job[u]) {
      assert Busy(recs, ws[u], job[u]);
    }
  }

  lemma FinishInv(s: State, t: nat)
    requires Inv(s) && Enabled(s, Deliver(t))
    ensures Inv(Finish(s, t))
  {
    var s', id := Finish(s, t), s.job[t];
    var p := Relock(s.ws[t].slow);
    MoveControl(s.ws, s.job, s.holder, t, p, NONE, s.holder);
    assert OnePlace(s, id) && Busy(s.recs, s.ws[t], id);
    CountAt(s.job, t);
    Apart(s.job, t);
    IdleBusy(s.recs, s.ws, s.job, t, p, s'.recs[id]);
    MoveBusy(s'.recs, s'.ws, s.job, t, p, NONE);
    assert s'.ws[t := p] == s'.ws;
    FinishTallies(s, t);
    forall id | id >= 0 ensures OnePlace(s', id) && Stage(s', id) { FinishPlace(s, t, id); }
  }

  lemma WakeInv(s: State, t: nat)
    requires Inv(s) && Enabled(s, Spurious(t))
    ensures Inv(Wake(s, t))
  {
    assert s.job[t := s.job[t]] == s.job;
    MoveControl(s.ws, s.job, s.holder, t, Woken, s.job[t], s.holder);
    MoveBusy(s.recs, s.ws, s.job, t, Woken, s.job[t]);
    WakeTallies(s, t);
    SamePlaces(s, Wake(s, t));
  }

  lemma AppendInv(s: State, x: int, wake: nat)
    requires Inv(s) && CanSignal(s.ws, wake) && (x == EXIT || (x == RUN_SLOW && !HasSlow(s)))
    ensures Inv(Append(s, x, wake))
  {
    var s' := Append(s, x, wake);
    SignalControl(s.ws, s.job, s.holder, wake);
    SignalBusy(s.recs, s.ws, s.job, wake);
    AppendTallies(s, x, wake);
    AppendQueues(s, x, wake);
    LineMessage(s.begun, s.wq, |s.recs|, x);
    forall id | id >= 0 ensures OnePlace(s', id) && Stage(s', id) { AppendPlace(s, x, wake, id); }
  }

  lemma SubmitFastInv(s: State, wake: nat)
    requires Inv(s) && CanSignal(s.ws, wake)
    ensures Inv(SubmitFast(s, wake))
  {
    var s', n := SubmitFast(s, wake), |s.recs|;
    SignalControl(s.ws, s.job, s.holder, wake);
    SubmitBusy(s.recs, s.ws, s.job);
    SignalBusy(s'.recs, s.ws, s.job, wake);
    AppendTallies(s, n, wake);
    AppendQueues(s, n, wake);
    LinePost(s.begun, s.wq, n);
    LineGrow(s.begunSlow, s.slowq, n);
    forall id | id >= 0 ensures OnePlace(s', id) && Stage(s', id) { SubmitFastPlace(s, wake, id); }
  }

  lemma PushSlowInv(s: State)
    requires Inv(s) && HasSlow(s)
    ensures Inv(PushSlow(s))
  {
    var s', n := PushSlow(s), |s.recs|;
    SubmitBusy(s.recs, s.ws, s.job);
    LinePost(s.begunSlow, s.slowq, n);
    LineGrow(s.begun, s.wq, n);
    SamePushTallies(s);
    forall id | id >= 0 ensures OnePlace(s', id) && Stage(s', id) { PushSlowPlace(s, id); }
  }

  lemma AnnounceSlowInv(s: State, wake: nat)
    requires Inv(s) && CanSignal(s.ws, wake) && !HasSlow(s)
    ensures Inv(Append(PushSlow(s), RUN_SLOW, wake))
  {
    var s1, s', n := PushSlow(s), Append(PushSlow(s), RUN_SLOW, wake), |s.recs|;
    SignalControl(s.ws, s.job, s.holder, wake);
    SubmitBusy(s.recs, s.ws, s.job);
    SignalBusy(s1.recs, s.ws, s.job, wake);
    LinePost(s.begunSlow, s.slowq, n);
    LineGrow(s.begun, s.wq, n);
    LineMessage(s.begun, s.wq, n + 1, RUN_SLOW);
    SamePushTallies(s);
    AppendTallies(s1, RUN_SLOW, wake);
    AppendQueues(s1, RUN_SLOW, wake);
    forall id | id >= 0 ensures OnePlace(s', id) && Stage(s', id) {
      PushSlowPlace(s, id);
      AppendPlace(s1, RUN_SLOW, wake, id);
    }
  }

  lemma SamePushTallies(s: State)
    requires Tallies(s)
    ensures Tallies(PushSlow(s))
  {
    assert Takeable(PushSlow(s)) == Takeable(s);
  }

  lemma UnlinkInv(s: State, id: nat)
    requires Inv(s) && s.canceling == NONE && Linked(s, id) && !Rec(s.recs, id).work.Null?
    ensures Inv(Unlink(s, id))
  {
    var s' := Unlink(s, id);
    UnlinkTallies(s, id);
    UnlinkQueues(s, id);
    LineDrop(s.begun, s.wq, |s.recs|, id);
    LineDrop(s.begunSlow, s.slowq, |s.recs|, id);
    var p := DropShape(s.loopq, id);
    var q := DropShape(s.batch, id);
    forall x | x >= 0 ensures OnePlace(s', x) && Stage(s', x) { UnlinkPlace(s, id, x); }
  }

  lemma PutCanceledInv(s: State)
    requires Inv(s) && s.canceling != NONE
    ensures Inv(PutCanceled(s))
  {
    var s', id := PutCanceled(s), s.canceling;
    assert OnePlace(s, id);
    NotHeld(s.job, id);
    RecordBusy(s.recs, s.ws, s.job, id, s'.recs[id], |s.ws|);
    assert Takeable(s') == Takeable(s);
    forall id | id >= 0 ensures OnePlace(s', id) && Stage(s', id) { PutCanceledPlace(s, id); }
  }

  lemma ReportInv(s: State)
    requires Inv(s) && Enabled(s, DoneOne)
    ensures Inv(Report(s))
  {
    var s', id := Report(s), s.batch[0];
    CountAt(s.batch, 0);
    assert OnePlace(s, id);
    NotHeld(s.job, id);
    RecordBusy(s.recs, s.ws, s.job, id, s'.recs[id], |s.ws|);
    assert Takeable(s') == Takeable(s);
    forall id | id >= 0 ensures OnePlace(s', id) && Stage(s', id) { ReportPlace(s, id); }
  }

  lemma LoopInv(s: State, a: Action)
    requires Inv(s) && Enabled(s, a) && (a.TakeAsync? || a.MoveBatch? || a.EndDone?)
    ensures Inv(Do(s, a))
  {
    var s' := Do(s, a);
    assert Takeable(s') == Takeable(s);
    if a.MoveBatch? {
      forall id | id >= 0 ensures OnePlace(s', id) && Stage(s', id) { MoveBatchPlace(s, id); }
    } else {
      SamePlaces(s, s');
    }
  }

  lemma IterateInv(s: State, t: nat, wake: nat)
    requires Inv(s) && Enabled(s, Iterate(t, wake))
    ensures Inv(IterateBy(s, t, wake))
  {
    if MustWait(s) { ParkInv(s, t); }
    else if s.wq[0] == EXIT { LeaveInv(s, t, wake); }
    else if s.wq[0] != RUN_SLOW { TakeRequestInv(s, t); }
    else if AtLimit(s) { RequeueInv(s); }
    else if |s.slowq| == 0 { DropMessageInv(s); }
    else { StartSlowInv(s, t, wake); }
  }

  // The invariant survives every action, whatever the interleaving.
  lemma StepInv(s: State, a: Action)
    requires Inv(s) && Enabled(s, a)
    ensures Inv(Do(s, a))
  {
    match a
    case Acquire(t) => GrabInv(s, t);
    case Iterate(t, wake) => IterateInv(s, t, wake);
    case DoWork(t) => RunWorkInv(s, t);
    case Deliver(t) => FinishInv(s, t);
    case Spurious(t) => WakeInv(s, t);
    case PostFast(wake) => SubmitFastInv(s, wake);
    case PostSlow(wake) => if HasSlow(s) { PushSlowInv(s); } else { AnnounceSlowInv(s, wake); }
    case PostExit(wake) => AppendInv(s, EXIT, wake);
    case CancelTake(id) => if Linked(s, id) && !Rec(s.recs, id).work.Null? { UnlinkInv(s, id); }
    case CancelPut => PutCanceledInv(s);
    case TakeAsync => LoopInv(s, a);
    case MoveBatch => LoopInv(s, a);
    case DoneOne => ReportInv(s);
    case EndDone => LoopInv(s, a);
  }

  lemma {:induction false} RunInv(s: State, run: seq<Action>)
    requires Inv(s) && CanRun(s, run)
    ensures Inv(End(s, run))
    decreases |run|
  {
    if run != [] {
      StepInv(s, run[0]);
      RunInv(Do(s, run[0]), run[1..]);
    }
  }

  // ---------- the theorems, for every run from the initial pool ----------

  // A request is in one place at a time; its done callback runs at most once, with
  // UV_ECANCELED only if a cancel returned 0 and its work never ran, with 0 only if
  // its work ran exactly once.
  lemma ExactlyOnce(s: State, run: seq<Action>, id: nat)
    requires Init(s) && CanRun(s, run) && id < |End(s, run).recs|
    ensures var s' := End(s, run);
      var r := s'.recs[id];
      && Places(s', id) == 1 && |r.done| <= 1 && r.ran <= 1
      && (|r.done| == 1 ==>
        (r.done[0] == UV_ECANCELED && r.canceled && r.ran == 0) || (r.done[0] == 0 && !r.canceled && r.ran == 1))
  {
    InitInv(s);
    RunInv(s, run);
    var s' := End(s, run);
    assert OnePlace(s', id) && Stage(s', id);
    if Count(s'.job, id) > 0 {
      var t := Find(s'.job, id);
      assert Busy(s'.recs, s'.ws[t], s'.job[t]);
    }
  }

  // A reported status is never taken back or repeated.
  lemma {:induction false} DoneStays(s: State, run: seq<Action>, id: nat)
    requires Inv(s) && CanRun(s, run) && id < |s.recs| && |s.recs[id].done| == 1
    ensures id < |End(s, run).recs| && |End(s, run).recs[id].done| == 1
      && End(s, run).recs[id].done[0] == s.recs[id].done[0]
    decreases |run|
  {
    if run != [] {
      var s' := Do(s, run[0]);
      StepInv(s, run[0]);
      DoneStep(s, run[0], id);
      DoneStays(s', run[1..], id);
    }
  }

  lemma DoneStep(s: State, a: Action, id: nat)
    requires Inv(s) && Enabled(s, a) && id < |s.recs| && |s.recs[id].done| == 1
    ensures var s' := Do(s, a); id < |s'.recs| && |s'.recs[id].done| == 1 && s'.recs[id].done[0] == s.recs[id].done[0]
  {
    var s' := Do(s, a);
    assert OnePlace(s, id);
    if a.DoneOne? { CountAt(s.batch, 0); }
  }

  // uv_cancel succeeds exactly for a request that no worker has taken.
  lemma CancelSucceedsIff(s: State, run: seq<Action>, id: nat)
    requires Init(s) && CanRun(s, run) && Enabled(End(s, run), CancelTake(id))
    ensures var s' := End(s, run);
      Do(s', CancelTake(id)).canceling == id <==> Count(s'.job, id) == 0 && s'.recs[id].ran == 0
  {
    InitInv(s);
    RunInv(s, run);
    var s' := End(s, run);
    assert OnePlace(s', id) && Stage(s', id);
  }

  predicate Coming(p: Pc) { p.Start? || p.Loop? || p.Woken? || (p.Relock? && !p.slow) }

  lemma {:induction false} SomeComing(ws: seq<Pc>)
    requires Sum(ws).coming > 0
    ensures exists t :: 0 <= t < |ws| && Coming(ws[t])
  {
    if Coming(ws[0]) {
      assert Coming(ws[0]);
    } else {
      SomeComing(ws[1..]);
      var t :| 0 <= t < |ws[1..]| && Coming(ws[1..][t]);
      assert Coming(ws[t + 1]);
    }
  }

  // No wake-up is lost: with the mutex free and something to take, nobody is parked
  // unless a worker is on its way, and for each entry there is one.
  lemma NoStrandedWork(s: State, run: seq<Action>, p: nat)
    requires Init(s) && CanRun(s, run)
    requires var s' := End(s, run); s'.holder == NONE && !MustWait(s') && p < |s'.ws| && s'.ws[p].Parked?
    ensures var s' := End(s, run);
      && Sum(s'.ws).coming >= Takeable(s') >= 1
      && exists t :: 0 <= t < |s'.ws| && Coming(s'.ws[t]) && !s'.ws[t].Loop?
  {
    InitInv(s);
    RunInv(s, run);
    var s' := End(s, run);
    SumPositive(s'.ws, p);
    if |s'.wq| == 1 && HasSlow(s') { var i := Find(s'.wq, RUN_SLOW); }
    SomeComing(s'.ws);
    var t :| 0 <= t < |s'.ws| && Coming(s'.ws[t]);
    assert !s'.ws[t].Loop?;
  }

  // The workers on slow work are counted exactly and never exceed half the pool,
  // rounded up; the run-slow message is queued at most once, and is while slow work
  // waits.
  lemma SlowLimit(s: State, run: seq<Action>)
    requires Init(s) && CanRun(s, run)
    ensures var s' := End(s, run);
      && s'.slowRunning == Sum(s'.ws).slow <= (|s'.ws| + 1) / 2
      && Count(s'.wq, RUN_SLOW) <= 1 && (|s'.slowq| > 0 ==> Count(s'.wq, RUN_SLOW) == 1)
  {
    InitInv(s);
    RunInv(s, run);
  }

  // ---------- slow requests are the ones posted as slow ----------

  // Whether each request of a run is posted as slow; this looks at the posts only.
  function Kind(a: Action): seq<bool> {
    if a.PostFast? then [false] else if a.PostSlow? then [true] else []
  }

  function Kinds(run: seq<Action>): seq<bool> {
    if run == [] then [] else Kind(run[0]) + Kinds(run[1..])
  }

  ghost predicate OfKind(q: seq<int>, kinds: seq<bool>, slow: bool) {
    forall i :: 0 <= i < |q| && q[i] >= 0 ==> q[i] < |kinds| && kinds[q[i]] == slow
  }

  // What worker t holds is of the kind it has been counted for.
  ghost predicate HoldsKind(s: State, kinds: seq<bool>, t: nat)
    requires t < |s.ws| == |s.job|
  {
    s.job[t] >= 0 ==> s.job[t] < |kinds| && (s.ws[t].Running? || s.ws[t].Ran?) && s.ws[t].slow == kinds[s.job[t]]
  }

  ghost predicate Kinded(s: State, kinds: seq<bool>) {
    && |kinds| == |s.recs| && |s.ws| == |s.job|
    && OfKind(s.wq, kinds, false) && OfKind(s.begun, kinds, false)
    && OfKind(s.slowq, kinds, true) && OfKind(s.begunSlow, kinds, true)
    && forall t :: 0 <= t < |s.ws| ==> HoldsKind(s, kinds, t)
  }

  lemma DropKind(q: seq<int>, x: int, kinds: seq<bool>, slow: bool)
    requires OfKind(q, kinds, slow)
    ensures OfKind(Drop(q, x), kinds, slow)
  {
    var p := DropShape(q, x);
  }

  lemma MoreKinds(q: seq<int>, kinds: seq<bool>, slow: bool, k: seq<bool>)
    requires OfKind(q, kinds, slow)
    ensures OfKind(q, kinds + k, slow)
  {
  }

  lemma MoreHeld(s: State, kinds: seq<bool>, k: seq<bool>, t: nat)
    requires t < |s.ws| == |s.job| && HoldsKind(s, kinds, t)
    ensures HoldsKind(s, kinds + k, t)
  {
  }

  // Only the queue of the kind grows, and no worker's request changes.
  lemma PostKinds(s: State, kinds: seq<bool>, slow: bool, wake: nat)
    requires Kinded(s, kinds) && CanSignal(s.ws, wake)
    ensures Kinded(if slow then SubmitSlow(s, wake) else SubmitFast(s, wake), kinds + [slow])
  {
    var s', more := if slow then SubmitSlow(s, wake) else SubmitFast(s, wake), kinds + [slow];
    MoreKinds(s.wq, kinds, false, [slow]);
    MoreKinds(s.begun, kinds, false, [slow]);
    MoreKinds(s.slowq, kinds, true, [slow]);
    MoreKinds(s.begunSlow, kinds, true, [slow]);
    forall t | 0 <= t < |s'.ws| ensures HoldsKind(s', more, t) { MoreHeld(s, kinds, [slow], t); }
  }

  lemma TakeKinds(s: State, kinds: seq<bool>, t: nat)
    requires Kinded(s, kinds) && t < |s.ws| && |s.wq| > 0 && s.wq[0] >= 0
    ensures Kinded(TakeRequest(s, t), kinds)
  {
    var s' := TakeRequest(s, t);
    forall u | 0 <= u < |s'.ws| ensures HoldsKind(s', kinds, u) { assert HoldsKind(s, kinds, u); }
  }

  lemma StartSlowKinds(s: State, kinds: seq<bool>, t: nat, wake: nat)
    requires Kinded(s, kinds) && t < |s.ws| && |s.wq| > 0 && |s.slowq| > 0 && s.slowq[0] >= 0
    ensures Kinded(StartSlow(s, t, wake), kinds)
  {
    var s' := StartSlow(s, t, wake);
    forall u | 0 <= u < |s'.ws| ensures HoldsKind(s', kinds, u) { assert HoldsKind(s, kinds, u); }
  }

  // The worker at the queue has no request.
  lemma OtherKinds(s: State, kinds: seq<bool>, t: nat, wake: nat)
    requires Kinded(s, kinds) && t < |s.ws| && s.job[t] < 0 && (|s.wq| > 0 ==> s.wq[0] < 0)
    ensures Kinded(Park(s, t), kinds) && Kinded(Leave(s, t, wake), kinds)
    ensures |s.wq| > 0 ==> Kinded(Requeue(s), kinds) && Kinded(DropMessage(s), kinds)
  {
    forall u | 0 <= u < |s.ws| ensures HoldsKind(Park(s, t), kinds, u) { assert HoldsKind(s, kinds, u); }
    forall u | 0 <= u < |s.ws| ensures HoldsKind(Leave(s, t, wake), kinds, u) { assert HoldsKind(s, kinds, u); }
    if |s.wq| > 0 {
      forall u | 0 <= u < |s.ws| ensures HoldsKind(Requeue(s), kinds, u) { assert HoldsKind(s, kinds, u); }
      forall u | 0 <= u < |s.ws| ensures HoldsKind(DropMessage(s), kinds, u) { assert HoldsKind(s, kinds, u); }
    }
  }

  lemma IterateKinds(s: State, kinds: seq<bool>, t: nat, wake: nat)
    requires Kinded(s, kinds) && t < |s.ws| && s.job[t] < 0 && Queues(s)
    ensures Kinded(IterateBy(s, t, wake), kinds)
  {
    if !MustWait(s) && s.wq[0] >= 0 {
      TakeKinds(s, kinds, t);
    } else if !MustWait(s) && s.wq[0] == RUN_SLOW && !AtLimit(s) && |s.slowq| > 0 {
      StartSlowKinds(s, kinds, t, wake);
    } else {
      OtherKinds(s, kinds, t, wake);
    }
  }

  // The other actions of workers and the loop.
  lemma MoveKinds(s: State, kinds: seq<bool>, a: Action)
    requires Kinded(s, kinds) && Enabled(s, a) && (a.Acquire? || a.DoWork? || a.Deliver? || a.Spurious?)
    ensures Kinded(Do(s, a), kinds)
  {
    var s' := Do(s, a);
    forall u | 0 <= u < |s'.ws| ensures HoldsKind(s', kinds, u) { assert HoldsKind(s, kinds, u); }
  }

  lemma RestKinds(s: State, kinds: seq<bool>, a: Action)
    requires Kinded(s, kinds) && Enabled(s, a)
    requires a.PostExit? || a.CancelTake? || a.CancelPut? || a.TakeAsync? || a.MoveBatch? || a.DoneOne? || a.EndDone?
    ensures Kinded(Do(s, a), kinds)
  {
    var s' := Do(s, a);
    if a.CancelTake? {
      DropKind(s.wq, a.id, kinds, false);
      DropKind(s.slowq, a.id, kinds, true);
    }
    forall u | 0 <= u < |s'.ws| ensures HoldsKind(s', kinds, u) { assert HoldsKind(s, kinds, u); }
  }

  lemma KindStep(s: State, kinds: seq<bool>, a: Action)
    requires Inv(s) && Kinded(s, kinds) && Enabled(s, a)
    ensures Inv(Do(s, a)) && Kinded(Do(s, a), kinds + Kind(a))
  {
    StepInv(s, a);
    assert kinds + [] == kinds;
    match a
    case PostFast(wake) => PostKinds(s, kinds, false, wake);
    case PostSlow(wake) => PostKinds(s, kinds, true, wake);
    case Iterate(t, wake) => IterateKinds(s, kinds, t, wake);
    case Acquire(_) => MoveKinds(s, kinds, a);
    case DoWork(_) => MoveKinds(s, kinds, a);
    case Deliver(_) => MoveKinds(s, kinds, a);
    case Spurious(_) => MoveKinds(s, kinds, a);
    case _ => RestKinds(s, kinds, a);
  }

  lemma OneKind(kinds: seq<bool>, run: seq<Action>)
    requires run != []
    ensures kinds + Kinds(run) == (kinds + Kind(run[0])) + Kinds(run[1..])
  {
  }

  lemma {:induction false} KindRun(s: State, kinds: seq<bool>, run: seq<Action>)
    requires Inv(s) && Kinded(s, kinds) && CanRun(s, run)
    ensures Kinded(End(s, run), kinds + Kinds(run))
    decreases |run|
  {
    if run == [] {
      assert kinds + [] == kinds;
    } else {
      KindStep(s, kinds, run[0]);
      OneKind(kinds, run);
      KindRun(Do(s, run[0]), kinds + Kind(run[0]), run[1..]);
    }
  }

  // After any run a request posted as slow has waited in slowq and started as slow work
  // only, and any other in wq and as ordinary work only.
  lemma KindsKept(s: State, run: seq<Action>)
    requires Init(s) && CanRun(s, run)
    ensures Kinded(End(s, run), Kinds(run))
  {
    InitInv(s);
    KindRun(s, [], run);
    assert [] + Kinds(run) == Kinds(run);
  }

  // How many of the requests workers hold were posted as slow.
  function SlowHeld(job: seq<int>, kinds: seq<bool>): nat {
    if job == [] then 0 else
      (if 0 <= job[0] < |kinds| && kinds[job[0]] then 1 else 0) + SlowHeld(job[1..], kinds)
  }

  lemma {:induction false} HeldBelow(ws: seq<Pc>, job: seq<int>, kinds: seq<bool>)
    requires |ws| == |job|
    requires forall t :: 0 <= t < |ws| && 0 <= job[t] < |kinds| && kinds[job[t]] ==> Of(ws[t]).slow == 1
    ensures SlowHeld(job, kinds) <= Sum(ws).slow
  {
    if ws != [] {
      assert Leq(Tally(0, 0, 0, 0), Of(ws[0]));
      HeldBelow(ws[1..], job[1..], kinds);
    }
  }

  // At most half the pool, rounded up, works on requests that were posted as slow.
  lemma SlowPostsLimited(s: State, run: seq<Action>)
    requires Init(s) && CanRun(s, run)
    ensures SlowHeld(End(s, run).job, Kinds(run)) <= (|End(s, run).ws| + 1) / 2
  {
    var s' := End(s, run);
    InitInv(s);
    RunInv(s, run);
    KindsKept(s, run);
    forall t | 0 <= t < |s'.ws| && 0 <= s'.job[t] < |s'.recs| && Kinds(run)[s'.job[t]]
      ensures Of(s'.ws[t]).slow == 1
    {
      assert HoldsKind(s', Kinds(run), t);
    }
    HeldBelow(s'.ws, s'.job, Kinds(run));
  }

  // ---------- what has started ----------

  // A worker has taken the request.
  predicate Underway(s: State, id: int) { id in s.job || Rec(s.recs, id).ran > 0 }

  ghost predicate Started(s: State) {
    forall id {:trigger Underway(s, id)} :: id >= 0 && Underway(s, id) ==> id in s.begun || id in s.begunSlow
  }

  lemma TakeStarted(s: State, t: nat)
    requires Started(s) && t < |s.ws| == |s.job| && |s.wq| > 0
    ensures Started(TakeRequest(s, t))
  {
    var s' := TakeRequest(s, t);
    forall id | id >= 0 && Underway(s', id) ensures id in s'.begun || id in s'.begunSlow {
      assert id == s.wq[0] || Underway(s, id);
    }
  }

  lemma StartSlowStarted(s: State, t: nat, wake: nat)
    requires Started(s) && t < |s.ws| == |s.job| && |s.wq| > 0 && |s.slowq| > 0
    ensures Started(StartSlow(s, t, wake))
  {
    var s' := StartSlow(s, t, wake);
    forall id | id >= 0 && Underway(s', id) ensures id in s'.begun || id in s'.begunSlow {
      assert id == s.slowq[0] || Underway(s, id);
    }
  }

  // Nothing else starts a request.
  lemma SameStarted(s: State, s': State)
    requires Started(s) && s'.begun == s.begun && s'.begunSlow == s.begunSlow
    requires forall id {:trigger Underway(s', id)} :: id >= 0 && Underway(s', id) ==> Underway(s, id)
    ensures Started(s')
  {
  }

  lemma RestStarted(s: State, a: Action, id: int)
    requires Control(s.ws, s.job, s.holder) && Enabled(s, a) && !a.Iterate? && id >= 0 && Underway(Do(s, a), id)
    ensures Underway(s, id)
  {
  }

  lemma StartedStep(s: State, a: Action)
    requires Inv(s) && Started(s) && Enabled(s, a)
    ensures Inv(Do(s, a)) && Started(Do(s, a))
  {
    StepInv(s, a);
    if a.Iterate? && !MustWait(s) && s.wq[0] >= 0 {
      TakeStarted(s, a.t);
    } else if a.Iterate? && !MustWait(s) && s.wq[0] == RUN_SLOW && !AtLimit(s) && |s.slowq| > 0 {
      StartSlowStarted(s, a.t, a.wake);
    } else {
      var s' := Do(s, a);
      if !a.Iterate? {
        forall id | id >= 0 && Underway(s', id) ensures Underway(s, id) { RestStarted(s, a, id); }
      }
      SameStarted(s, s');
    }
  }

  lemma {:induction false} StartedRun(s: State, run: seq<Action>)
    requires Inv(s) && Started(s) && CanRun(s, run)
    ensures Started(End(s, run))
    decreases |run|
  {
    if run != [] {
      StartedStep(s, run[0]);
      StartedRun(Do(s, run[0]), run[1..]);
    }
  }

  // Requests are numbered as posted: fast ones start in that order, and so do slow
  // ones, and none that waits is older than one of its kind that has started.
  lemma StartsInOrder(s: State, run: seq<Action>)
    requires Init(s) && CanRun(s, run)
    ensures var s' := End(s, run);
      && (forall i, j :: 0 <= i < j < |s'.begun| ==> s'.begun[i] < s'.begun[j])
      && (forall i, j :: 0 <= i < j < |s'.begunSlow| ==> s'.begunSlow[i] < s'.begunSlow[j])
      && (forall i, j :: 0 <= i < |s'.begun| && 0 <= j < |s'.wq| && s'.wq[j] >= 0 ==> s'.begun[i] < s'.wq[j])
      && (forall i, j :: 0 <= i < |s'.begunSlow| && 0 <= j < |s'.slowq| ==> s'.begunSlow[i] < s'.slowq[j])
  {
    InitInv(s);
    RunInv(s, run);
  }

  // Those two lists hold every request that a worker has taken.
  lemma StartsAreListed(s: State, run: seq<Action>)
    requires Init(s) && CanRun(s, run)
    ensures Started(End(s, run))
  {
    InitInv(s);
    assert Started(s);
    StartedRun(s, run);
  }

  // Of the requests posted alike, a worker never takes one while an older one waits.
  lemma OldestFirst(s: State, run: seq<Action>, id: int, older: int)
    requires Init(s) && CanRun(s, run) && 0 <= older < id < |Kinds(run)| && Kinds(run)[older] == Kinds(run)[id]
    requires Underway(End(s, run), id)
    ensures older !in End(s, run).wq && older !in End(s, run).slowq
  {
    StartsInOrder(s, run);
    StartsAreListed(s, run);
    KindsKept(s, run);
  }

  // ---------- when slow work has its turn ----------

  // With the message at the head and slow work waiting, a worker's turn starts the oldest
  // slow request exactly if fewer than half the pool, rounded up, are on slow work.
  lemma SlowTurn(s: State, run: seq<Action>, t: nat, wake: nat)
    requires Init(s) && CanRun(s, run) && Enabled(End(s, run), Iterate(t, wake))
    requires |End(s, run).wq| > 0 && End(s, run).wq[0] == RUN_SLOW && |End(s, run).slowq| > 0
    ensures var s' := End(s, run);
      Do(s', Iterate(t, wake)).job[t] == s'.slowq[0] <==> Sum(s'.ws).slow < (|s'.ws| + 1) / 2
  {
    InitInv(s);
    RunInv(s, run);
    var s' := End(s, run);
    assert s'.slowq[0] >= 0 && s'.job[t] == NONE;
  }

  // No request older than n waits behind the message.
  ghost predicate Yields(wq: seq<int>, n: int) {
    forall i, j :: 0 <= i < j < |wq| && wq[i] == RUN_SLOW ==> !(0 <= wq[j] < n)
  }

  lemma NoMessage(q: seq<int>)
    requires Count(q, RUN_SLOW) == 0
    ensures forall i :: 0 <= i < |q| ==> q[i] != RUN_SLOW
  {
    forall i | 0 <= i < |q| ensures q[i] != RUN_SLOW {
      if q[i] == RUN_SLOW { CountAt(q, i); }
    }
  }

  lemma YieldsLast(q: seq<int>, n: int)
    requires Count(q, RUN_SLOW) == 0
    ensures Yields(q, n) && Yields(q + [RUN_SLOW], n)
  {
    NoMessage(q);
  }

  lemma YieldsAdd(q: seq<int>, n: int, x: int)
    requires Yields(q, n) && !(0 <= x < n)
    ensures Yields(q + [x], n)
  {
  }

  lemma YieldsCut(q: seq<int>, n: int, p: nat, q': seq<int>)
    requires Yields(q, n) && p <= |q| && q' == if p < |q| then q[..p] + q[p + 1..] else q
    ensures Yields(q', n)
  {
  }

  lemma YieldsLess(q: seq<int>, n: int, x: int)
    requires Yields(q, n)
    ensures |q| > 0 ==> Yields(q[1..], n)
    ensures Yields(Drop(q, x), n)
  {
    var p := DropShape(q, x);
    YieldsCut(q, n, p, Drop(q, x));
  }

  // A turn that finds the message at the head, and the post that queues it.
  predicate MessageMoves(s: State, a: Action) {
    (a.Iterate? && |s.wq| > 0 && s.wq[0] == RUN_SLOW) || (a.PostSlow? && !HasSlow(s))
  }

  lemma MovedYields(s: State, a: Action, n: int)
    requires Inv(s) && Enabled(s, a) && MessageMoves(s, a)
    ensures Yields(Do(s, a).wq, n)
  {
    if a.PostSlow? { YieldsLast(s.wq, n); } else { YieldsLast(s.wq[1..], n); }
    if a.Iterate? && MustWait(s) { assert |Do(s, a).wq| == 1; }
  }

  lemma YieldsStep(s: State, a: Action, n: int)
    requires Inv(s) && Enabled(s, a) && Yields(s.wq, n) && n <= |s.recs|
    ensures Yields(Do(s, a).wq, n)
  {
    if MessageMoves(s, a) {
      MovedYields(s, a, n);
    } else {
      match a
      case Iterate(t, wake) => YieldsLess(s.wq, n, 0);
      case PostFast(wake) => YieldsAdd(s.wq, n, |s.recs|);
      case PostExit(wake) => YieldsAdd(s.wq, n, EXIT);
      case CancelTake(id) => YieldsLess(s.wq, n, id);
      case _ =>
    }
  }

  lemma RecordsStay(s: State, a: Action)
    requires Enabled(s, a)
    ensures |Do(s, a).recs| >= |s.recs|
  {
  }

  lemma {:induction false} YieldsRun(s: State, run: seq<Action>, n: int)
    requires Inv(s) && CanRun(s, run) && Yields(s.wq, n) && n <= |s.recs|
    ensures Yields(End(s, run).wq, n)
    decreases |run|
  {
    if run != [] {
      YieldsStep(s, run[0], n);
      StepInv(s, run[0]);
      RecordsStay(s, run[0]);
      YieldsRun(Do(s, run[0]), run[1..], n);
    }
  }

  // Slow work yields: once the message has been queued or had its turn, it is at the head
  // again only when every request posted until then has left the queue.
  lemma SlowYields(s: State, run: seq<Action>, a: Action, more: seq<Action>, id: int)
    requires Init(s) && CanRun(s, run) && Enabled(End(s, run), a) && MessageMoves(End(s, run), a)
    requires CanRun(Do(End(s, run), a), more) && 0 <= id < |Do(End(s, run), a).recs|
    ensures var q := End(Do(End(s, run), a), more).wq; |q| > 0 && q[0] == RUN_SLOW ==> id !in q
  {
    InitInv(s);
    RunInv(s, run);
    var s1 := End(s, run);
    var s2 := Do(s1, a);
    StepInv(s1, a);
    MovedYields(s1, a, |s2.recs|);
    YieldsRun(s2, more, |s2.recs|);
  }

  // A worker holding the mutex takes a job, parks or leaves after at most one continue.
  lemma AtMostOneContinue(s: State, t: nat, wake: nat, wake': nat)
    requires Inv(s) && Enabled(s, Iterate(t, wake)) && IterateBy(s, t, wake).holder == t
    requires Enabled(IterateBy(s, t, wake), Iterate(t, wake'))
    ensures var s' := IterateBy(IterateBy(s, t, wake), t, wake');
      s'.holder == NONE && (s'.ws[t].Running? || s'.ws[t].Parked? || s'.ws[t].Exited?)
  {
    var s1 := IterateBy(s, t, wake);
    if !MustWait(s) && s.wq[0] == RUN_SLOW {
      assert Count(s.wq[1..], RUN_SLOW) == 0;
      if |s.wq| > 1 {
        CountAt(s.wq[1..], 0);
        assert s1.wq[0] == s.wq[1] != RUN_SLOW;
      }
    }
  }

  predicate FromOutside(a: Action) { a.PostFast? || a.PostSlow? || a.PostExit? || a.CancelTake? || a.Spurious? }

  // Finished and cancelled requests have a delivery coming: the wake-up flag is set, or
  // the loop thread is in uv__work_done and has still to take them.
  lemma DeliveryComes(s: State, run: seq<Action>)
    requires Init(s) && CanRun(s, run)
    ensures var s' := End(s, run);
      && (|s'.loopq| > 0 ==> s'.async || s'.loop.Notified?) && (|s'.batch| > 0 ==> s'.loop.Draining?)
  {
    InitInv(s);
    RunInv(s, run);
  }

  // Nothing gets stuck: when only new posts, cancels or spurious wake-ups could move
  // the pool, either every worker has exited, or the queue is empty, without an exit
  // message, and every request has been reported.
  lemma NothingStuck(s: State, run: seq<Action>)
    requires Init(s) && CanRun(s, run)
    requires forall a :: Enabled(End(s, run), a) ==> FromOutside(a)
    ensures var s' := End(s, run);
      || (forall t :: 0 <= t < |s'.ws| ==> s'.ws[t].Exited?)
      || (|s'.wq| == 0 && forall id :: 0 <= id < |s'.recs| ==> |s'.recs[id].done| == 1)
  {
    InitInv(s);
    RunInv(s, run);
    var s' := End(s, run);
    Asleep(s');
    if p: nat :| p < |s'.ws| && !s'.ws[p].Exited? {
      assert s'.ws[p].Parked?;
      SumPositive(s'.ws, p);
      NobodyComing(s'.ws);
      assert |s'.wq| == 0 && |s'.slowq| == 0;
      NothingPending(s');
      forall id | 0 <= id < |s'.recs| ensures |s'.recs[id].done| == 1 {
        assert OnePlace(s', id);
        CountNone(s'.job, id);
      }
    }
  }

  lemma {:induction false} NobodyComing(ws: seq<Pc>)
    requires forall t :: 0 <= t < |ws| ==> ws[t].Parked? || ws[t].Exited?
    ensures Sum(ws).coming == 0 && Sum(ws).slow == 0
  {
    if ws != [] {
      assert Of(ws[0]).coming == 0 && Of(ws[0]).slow == 0;
      NobodyComing(ws[1..]);
    }
  }

  lemma HolderGoesOn(s: State)
    requires Inv(s) && s.holder != NONE
    ensures exists wake: nat :: Enabled(s, Iterate(s.holder, wake)) && !FromOutside(Iterate(s.holder, wake))
  {
    var wake := SomeWake(s.ws);
    assert Enabled(s, Iterate(s.holder, wake)) && !FromOutside(Iterate(s.holder, wake));
  }

  lemma Asleep(s: State)
    requires Inv(s) && forall a :: Enabled(s, a) ==> FromOutside(a)
    ensures forall t :: 0 <= t < |s.ws| ==> s.ws[t].Parked? || s.ws[t].Exited?
  {
    if s.holder != NONE { HolderGoesOn(s); }
    forall t | 0 <= t < |s.ws| ensures s.ws[t].Parked? || s.ws[t].Exited? {
      assert !FromOutside(Acquire(t)) && !FromOutside(DoWork(t)) && !FromOutside(Deliver(t));
      assert !Enabled(s, Acquire(t)) && !Enabled(s, DoWork(t)) && !Enabled(s, Deliver(t));
    }
  }

  // A signal always has a target to choose, or needs none.
  lemma {:induction false} SomeWake(ws: seq<Pc>) returns (wake: nat)
    ensures CanSignal(ws, wake)
  {
    if t: nat :| t < |ws| && ws[t].Parked? { wake := t; } else { wake := 0; }
  }

  lemma NothingPending(s: State)
    requires Inv(s) && forall a :: Enabled(s, a) ==> FromOutside(a)
    ensures |s.loopq| == 0 && |s.batch| == 0 && s.canceling == NONE
  {
    assert !FromOutside(CancelPut) && !FromOutside(TakeAsync) && !FromOutside(MoveBatch) && !FromOutside(DoneOne)
      && !FromOutside(EndDone);
    assert !Enabled(s, CancelPut) && !Enabled(s, TakeAsync) && !Enabled(s, MoveBatch);
    assert !Enabled(s, DoneOne) && !Enabled(s, EndDone);
  }
}
