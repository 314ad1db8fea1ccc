// Waking a loop from other threads, unix/async.c: one action per atomic operation, and
// one for the read and the write of the wake-up descriptor.
module Async {
  import opened Counting

  const NONE := -1

  // A thread in uv_async_send: has read pending as 0; has set busy; has exchanged
  // pending and got 0, so it is to write; is to clear busy.
  datatype Pc = Out | Loaded | Busy | Writing | Leaving

  // The loop thread: waiting for the descriptor, going through the handles, in a callback.
  datatype LoopPc = Polling | Visiting | Calling

  // Per sender its place and the handle it sends on. token: the descriptor is readable.
  // list is async_handles, todo what uv__async_io has moved out of it; spinning is the
  // handle uv__async_spin waits for. Per handle: the flags, whether it is in a list, and
  // as history whether a send waits for its callback (owed), how many sends set pending
  // (raised) and how many callbacks ran (calls).
  datatype State = State(
    ps: seq<Pc>, on: seq<int>, token: bool, loop: LoopPc, list: seq<int>, todo: seq<int>, spinning: int,
    pending: seq<bool>, busy: seq<int>, live: seq<bool>, owed: seq<bool>, raised: seq<int>, calls: seq<int>)

  datatype Action =
    | Load(t: nat, h: nat) | SetBusy(t: nat) | Exchange(t: nat) | Write(t: nat) | ClearBusy(t: nat)
    | Drain | Visit | EndVisit | EndCall | Init | Close(h: nat) | SpinDone

  predicate Sized(s: State) {
    && |s.ps| == |s.on|
    && |s.pending| == |s.busy| == |s.live| == |s.owed| == |s.raised| == |s.calls|
    && (forall t :: 0 <= t < |s.on| ==> 0 <= s.on[t] < |s.pending| || s.ps[t].Out?)
    && NONE <= s.spinning < |s.pending|
    && (forall i :: 0 <= i < |s.list| ==> 0 <= s.list[i] < |s.pending|)
    && (forall i :: 0 <= i < |s.todo| ==> 0 <= s.todo[i] < |s.pending|)
  }

  // The loop thread runs user code: before polling, or in a callback.
  predicate UserCode(s: State) { s.spinning == NONE && !s.loop.Visiting? }

  predicate Enabled(s: State, a: Action) {
    Sized(s) &&
    match a
    case Load(t, h) => t < |s.ps| && s.ps[t].Out? && h < |s.pending|
    case SetBusy(t) => t < |s.ps| && s.ps[t].Loaded?
    case Exchange(t) => t < |s.ps| && s.ps[t].Busy?
    case Write(t) => t < |s.ps| && s.ps[t].Writing?
    case ClearBusy(t) => t < |s.ps| && s.ps[t].Leaving?
    case Drain => s.loop.Polling? && s.spinning == NONE && s.token
    case Visit => s.loop.Visiting? && |s.todo| > 0
    case EndVisit => s.loop.Visiting? && |s.todo| == 0
    case EndCall => s.loop.Calling? && s.spinning == NONE
    case Init => UserCode(s)
    case Close(h) => UserCode(s) && h < |s.live| && s.live[h]
    case SpinDone => s.spinning != NONE && s.busy[s.spinning] == 0
  }

  function Go(s: State, t: nat, p: Pc): State
    requires t < |s.ps|
  {
    s.(ps := s.ps[t := p])
  }

  function DoLoad(s: State, t: nat, h: nat): State
    requires Enabled(s, Load(t, h))
  {
    if s.pending[h] then s.(owed := s.owed[h := true]) else s.(ps := s.ps[t := Loaded], on := s.on[t := h])
  }

  function DoExchange(s: State, t: nat): State
    requires Enabled(s, Exchange(t))
  {
    var h := s.on[t];
    s.(ps := s.ps[t := if s.pending[h] then Leaving else Writing], pending := s.pending[h := true],
      owed := s.owed[h := true],
       raised := if s.pending[h] then s.raised else s.raised[h := s.raised[h] + 1])
  }

  // The head of todo goes back to the list; its callback runs if pending was set.
  function DoVisit(s: State): State
    requires Enabled(s, Visit)
  {
    var h := s.todo[0];
    s.(todo := s.todo[1..], list := s.list + [h], loop := if s.pending[h] then Calling else Visiting,
       pending := s.pending[h := false], owed := s.owed[h := false],
       calls := if s.pending[h] then s.calls[h := s.calls[h] + 1] else s.calls)
  }

  function DoInit(s: State): State {
    s.(list := s.list + [|s.pending|], pending := s.pending + [false], busy := s.busy + [0], live := s.live + [true],
       owed := s.owed + [false], raised := s.raised + [0], calls := s.calls + [0])
  }

  function DoSpinDone(s: State): State
    requires Enabled(s, SpinDone)
  {
    var h := s.spinning;
    s.(list := Drop(s.list, h), todo := Drop(s.todo, h), live := s.live[h := false], spinning := NONE)
  }

  function Do(s: State, a: Action): State
    requires Enabled(s, a)
  {
    match a
    case Load(t, h) => DoLoad(s, t, h)
    case SetBusy(t) => Go(s, t, Busy).(busy := s.busy[s.on[t] := s.busy[s.on[t]] + 1])
    case Exchange(t) => DoExchange(s, t)
    case Write(t) => Go(s, t, Leaving).(token := true)
    case ClearBusy(t) => Go(s, t, Out).(busy := s.busy[s.on[t] := s.busy[s.on[t]] - 1])
    case Drain => s.(token := false, todo := s.list, list := [], loop := Visiting)
    case Visit => DoVisit(s)
    case EndVisit => s.(loop := Polling)
    case EndCall => s.(loop := Visiting)
    case Init => DoInit(s)
    case Close(h) => s.(pending := s.pending[h := true], spinning := h)
    case SpinDone => DoSpinDone(s)
  }

  // A loop without handles, and threads that are not sending.
  predicate Start(s: State) {
    && Sized(s) && |s.pending| == 0 && !s.token && s.loop.Polling? && |s.list| == 0 && |s.todo| == 0
      && s.spinning == NONE
    && forall t :: 0 <= t < |s.ps| ==> s.ps[t].Out?
  }

  predicate CanRun(s: State, run: seq<Action>)
    decreases |run|
  {
    run == [] || (Enabled(s, run[0]) && CanRun(Do(s, run[0]), run[1..]))
  }

  function End(s: State, run: seq<Action>): State
    requires CanRun(s, run)
    decreases |run|
  {
    if run == [] then s else End(Do(s, run[0]), run[1..])
  }

  // ---------- the invariant ----------

  // Whether a sender at p on handle g holds busy, or is to write, for handle h.
  function Holds(p: Pc, g: int, h: int): int { if g == h && (p.Busy? || p.Writing? || p.Leaving?) then 1 else 0 }
  function Writes(p: Pc, g: int, h: int): int { if g == h && p.Writing? then 1 else 0 }

  function Holders(ps: seq<Pc>, on: seq<int>, h: int): int
    requires |ps| == |on|
  {
    if ps == [] then 0 else Holds(ps[0], on[0], h) + Holders(ps[1..], on[1..], h)
  }

  function Writers(ps: seq<Pc>, on: seq<int>, h: int): int
    requires |ps| == |on|
  {
    if ps == [] then 0 else Writes(ps[0], on[0], h) + Writers(ps[1..], on[1..], h)
  }

  predicate Open(s: State, h: nat)
    requires h < |s.live|
  {
    s.live[h] && s.spinning != h
  }

  // A raised pending flag has a delivery coming: the descriptor is readable, or a sender
  // is about to write, or the loop has still to visit the handle.
  predicate Coming(s: State, h: nat)
    requires Sized(s)
  {
    s.token || Writers(s.ps, s.on, h) > 0 || Count(s.todo, h) > 0
  }

  ghost predicate Flags(s: State, h: nat)
    requires Sized(s) && h < |s.pending|
  {
    && s.busy[h] == Holders(s.ps, s.on, h)
    && (Open(s, h) && s.pending[h] ==> Coming(s, h))
    && (Open(s, h) ==> (s.owed[h] <==> s.pending[h]))
    && (!Open(s, h) ==> s.pending[h])
    && (!s.live[h] ==> Writers(s.ps, s.on, h) == 0)
    && (Open(s, h) ==> s.calls[h] + (if s.pending[h] then 1 else 0) == s.raised[h])
  }

  ghost predicate Linked(s: State, h: nat)
    requires h < |s.live|
  {
    Count(s.list, h) + Count(s.todo, h) == if s.live[h] then 1 else 0
  }

  ghost predicate Inv(s: State) {
    && Sized(s) && (s.loop.Polling? ==> |s.todo| == 0)
      && (s.spinning != NONE ==> s.live[s.spinning] && !s.loop.Visiting?)
    && (forall h :: 0 <= h < |s.pending| ==> Flags(s, h))
    && (forall h :: 0 <= h < |s.pending| ==> Linked(s, h))
  }

  lemma {:induction false} SenderUpdate(ps: seq<Pc>, on: seq<int>, t: nat, p: Pc, g: int, h: int)
    requires t < |ps| == |on|
    ensures Holders(ps[t := p], on[t := g], h) == Holders(ps, on, h) - Holds(ps[t], on[t], h) + Holds(p, g, h)
    ensures Writers(ps[t := p], on[t := g], h) == Writers(ps, on, h) - Writes(ps[t], on[t], h) + Writes(p, g, h)
  {
    if t > 0 {
      assert ps[t := p][1..] == ps[1..][t - 1 := p] && on[t := g][1..] == on[1..][t - 1 := g];
      SenderUpdate(ps[1..], on[1..], t - 1, p, g, h);
    } else {
      assert ps[t := p][1..] == ps[1..] && on[t := g][1..] == on[1..];
    }
  }

  lemma {:induction false} WritersHold(ps: seq<Pc>, on: seq<int>, h: int)
    requires |ps| == |on|
    ensures 0 <= Writers(ps, on, h) <= Holders(ps, on, h)
  {
    if ps != [] { WritersHold(ps[1..], on[1..], h); }
  }

  lemma {:induction false} Nobody(ps: seq<Pc>, on: seq<int>, h: int)
    requires |ps| == |on| && forall t :: 0 <= t < |ps| ==> Holds(ps[t], on[t], h) == 0
    ensures Holders(ps, on, h) == 0 && Writers(ps, on, h) == 0
  {
    if ps != [] { Nobody(ps[1..], on[1..], h); }
  }

  lemma LoadFlags(s: State, t: nat, g: nat, h: nat)
    requires Sized(s) && h < |s.pending| && Flags(s, h) && Enabled(s, Load(t, g))
    ensures var s' := DoLoad(s, t, g); Sized(s') && Flags(s', h)
  {
    SenderUpdate(s.ps, s.on, t, Loaded, g, h);
  }

  lemma SetBusyFlags(s: State, t: nat, h: nat)
    requires Sized(s) && h < |s.pending| && Flags(s, h) && Enabled(s, SetBusy(t))
    ensures var s' := Do(s, SetBusy(t)); Sized(s') && Flags(s', h)
  {
    SenderUpdate(s.ps, s.on, t, Busy, s.on[t], h);
    assert s.on[t := s.on[t]] == s.on;
  }

  lemma ExchangeFlags(s: State, t: nat, h: nat)
    requires Sized(s) && h < |s.pending| && Flags(s, h) && Enabled(s, Exchange(t))
    ensures var s' := DoExchange(s, t); Sized(s') && Flags(s', h)
  {
    SenderUpdate(s.ps, s.on, t, DoExchange(s, t).ps[t], s.on[t], h);
    assert s.on[t := s.on[t]] == s.on;
    WritersHold(s.ps, s.on, h);
  }

  lemma WriteFlags(s: State, t: nat, h: nat)
    requires Sized(s) && h < |s.pending| && Flags(s, h) && Enabled(s, Write(t))
    ensures var s' := Do(s, Write(t)); Sized(s') && Flags(s', h)
  {
    SenderUpdate(s.ps, s.on, t, Leaving, s.on[t], h);
    assert s.on[t := s.on[t]] == s.on;
    WritersHold(s.ps, s.on, h);
    WritersHold(s.ps[t := Leaving], s.on, h);
  }

  lemma ClearBusyFlags(s: State, t: nat, h: nat)
    requires Sized(s) && h < |s.pending| && Flags(s, h) && Enabled(s, ClearBusy(t))
    ensures var s' := Do(s, ClearBusy(t)); Sized(s') && Flags(s', h)
  {
    SenderUpdate(s.ps, s.on, t, Out, s.on[t], h);
    assert s.on[t := s.on[t]] == s.on;
  }

  lemma DrainFlags(s: State, h: nat)
    requires Sized(s) && h < |s.pending| && Flags(s, h) && Linked(s, h) && Enabled(s, Drain) && |s.todo| == 0
    ensures var s' := Do(s, Drain); Sized(s') && Flags(s', h) && Linked(s', h)
  {
  }

  lemma VisitFlags(s: State, h: nat)
    requires Sized(s) && h < |s.pending| && Flags(s, h) && Linked(s, h) && Enabled(s, Visit) && s.spinning == NONE
    requires Linked(s, s.todo[0])
    ensures var s' := DoVisit(s); Sized(s') && Flags(s', h) && Linked(s', h)
  {
    CountAppend(s.list, s.todo[0], h);
  }

  lemma CloseFlags(s: State, g: nat, h: nat)
    requires Sized(s) && h < |s.pending| && Flags(s, h) && Enabled(s, Close(g))
    ensures var s' := Do(s, Close(g)); Sized(s') && Flags(s', h)
  {
  }

  lemma SpinDoneSized(s: State)
    requires Enabled(s, SpinDone)
    ensures Sized(DoSpinDone(s)) && |DoSpinDone(s).todo| <= |s.todo|
  {
    var p := DropShape(s.list, s.spinning);
    var q := DropShape(s.todo, s.spinning);
  }

  lemma SpinDoneFlags(s: State, h: nat)
    requires Enabled(s, SpinDone) && h < |s.pending| && Sized(DoSpinDone(s)) && Flags(s, h) && Linked(s, h)
      && s.live[s.spinning]
    ensures Flags(DoSpinDone(s), h) && Linked(DoSpinDone(s), h)
  {
    CountDrop(s.list, s.spinning, h);
    CountDrop(s.todo, s.spinning, h);
    WritersHold(s.ps, s.on, h);
  }

  lemma InitFlags(s: State, h: nat)
    requires Sized(s) && h <= |s.pending| && (h < |s.pending| ==> Flags(s, h) && Linked(s, h)) && s.spinning == NONE
    ensures var s' := DoInit(s); Sized(s') && Flags(s', h) && Linked(s', h)
  {
    CountAppend(s.list, |s.pending|, h);
    if h == |s.pending| {
      Nobody(s.ps, s.on, h);
      CountNone(s.list, h);
      CountNone(s.todo, h);
    }
  }

  // A sender's step leaves the loop and its lists alone.
  lemma SenderInv(s: State, a: Action)
    requires Inv(s) && Enabled(s, a) && (a.Load? || a.SetBusy? || a.Exchange? || a.Write? || a.ClearBusy?)
    ensures Inv(Do(s, a))
  {
    var s' := Do(s, a);
    forall h | 0 <= h < |s.pending| ensures Sized(s') && Flags(s', h) {
      match a
      case Load(t, g) => LoadFlags(s, t, g, h);
      case SetBusy(t) => SetBusyFlags(s, t, h);
      case Exchange(t) => ExchangeFlags(s, t, h);
      case Write(t) => WriteFlags(s, t, h);
      case ClearBusy(t) => ClearBusyFlags(s, t, h);
    }
    forall h | 0 <= h < |s.pending| ensures Linked(s', h) { assert Linked(s, h); }
    SenderSized(s, a);
  }

  lemma SenderSized(s: State, a: Action)
    requires Inv(s) && Enabled(s, a) && (a.Load? || a.SetBusy? || a.Exchange? || a.Write? || a.ClearBusy?)
    ensures var s' := Do(s, a);
      Sized(s') && |s'.pending| == |s.pending| && s'.spinning == s.spinning
      && s'.live == s.live && s'.loop == s.loop && s'.todo == s.todo
  {
  }

  lemma LoopInv(s: State, a: Action)
    requires Inv(s) && Enabled(s, a) && (a.Drain? || a.Visit? || a.EndVisit? || a.EndCall?)
    ensures Inv(Do(s, a))
  {
    var s' := Do(s, a);
    forall h | 0 <= h < |s.pending| ensures Sized(s') && Flags(s', h) && Linked(s', h) {
      assert Flags(s, h) && Linked(s, h);
      match a
      case Drain => DrainFlags(s, h);
      case Visit => VisitFlags(s, h);
      case EndVisit =>
      case EndCall =>
    }
    assert Sized(s');
  }

  lemma UserInv(s: State, a: Action)
    requires Inv(s) && Enabled(s, a) && (a.Init? || a.Close? || a.SpinDone?)
    ensures Inv(Do(s, a))
  {
    var s' := Do(s, a);
    if a.SpinDone? { SpinDoneSized(s); }
    forall h | 0 <= h < |s'.pending| ensures Sized(s') && Flags(s', h) && Linked(s', h) {
      if h < |s.pending| { assert Flags(s, h) && Linked(s, h); }
      match a
      case Init => InitFlags(s, h);
      case Close(g) => CloseFlags(s, g, h);
      case SpinDone => SpinDoneFlags(s, h);
    }
    UserSized(s, a);
  }

  lemma UserSized(s: State, a: Action)
    requires Inv(s) && Enabled(s, a) && (a.Init? || a.Close? || a.SpinDone?)
    ensures var s' := Do(s, a);
      && Sized(s') && (s'.loop.Polling? ==> |s'.todo| == 0)
        && (s'.spinning != NONE ==> s'.live[s'.spinning] && !s'.loop.Visiting?)
  {
    if a.SpinDone? { SpinDoneSized(s); }
  }

  lemma StepInv(s: State, a: Action)
    requires Inv(s) && Enabled(s, a)
    ensures Inv(Do(s, a))
  {
    if a.Load? || a.SetBusy? || a.Exchange? || a.Write? || a.ClearBusy? { SenderInv(s, a); }
    else if a.Drain? || a.Visit? || a.EndVisit? || a.EndCall? { LoopInv(s, a); }
    else { UserInv(s, a); }
  }

  lemma {:induction false} RunInv(s: State, run: seq<Action>)
    requires Inv(s) && CanRun(s, run)
    ensures Inv(End(s, run))
    decreases |run|
  {
    if run != [] {
      StepInv(s, run[0]);
      RunInv(Do(s, run[0]), run[1..]);
    }
  }

  lemma StartInv(s: State)
    requires Start(s)
    ensures Inv(s)
  {
  }

  // ---------- the theorems, for every run ----------

  // A send on h is over, seen from its sender: the load found pending set and it
  // returned, or it has exchanged pending.
  predicate Sent(s: State, a: Action, h: nat)
    requires Enabled(s, a)
  {
    || (a.Load? && a.h == h && a.t < |Do(s, a).ps| && Do(s, a).ps[a.t].Out?)
    || (a.Exchange? && s.on[a.t] == h)
  }

  // The exchange got 0: the sender goes on to write.
  predicate Raised(s: State, a: Action, h: nat)
    requires Enabled(s, a)
  {
    a.Exchange? && s.on[a.t] == h && a.t < |Do(s, a).ps| && Do(s, a).ps[a.t].Writing?
  }

  // The loop has called the callback of h, the handle it had to visit next.
  predicate Served(s: State, a: Action, h: nat)
    requires Enabled(s, a)
  {
    a.Visit? && s.todo[0] == h && Do(s, a).loop.Calling?
  }

  // Whether a send on h still waits for a callback after the run, if o says so before;
  // how many callbacks of h there were, and how many sends that got 0.
  function Waits(s: State, run: seq<Action>, h: nat, o: bool): bool
    requires CanRun(s, run)
    decreases |run|
  {
    if run == [] then o else
      var a := run[0];
      Waits(Do(s, a), run[1..], h, if Sent(s, a, h) then true else if Served(s, a, h) then false else o)
  }

  function Callbacks(s: State, run: seq<Action>, h: nat): nat
    requires CanRun(s, run)
    decreases |run|
  {
    if run == [] then 0 else (if Served(s, run[0], h) then 1 else 0) + Callbacks(Do(s, run[0]), run[1..], h)
  }

  function Raises(s: State, run: seq<Action>, h: nat): nat
    requires CanRun(s, run)
    decreases |run|
  {
    if run == [] then 0 else (if Raised(s, run[0], h) then 1 else 0) + Raises(Do(s, run[0]), run[1..], h)
  }

  // The books on h say so, too; a handle that is not there yet has none.
  ghost predicate Noted(s: State, h: nat, o: bool, calls: int, raised: int)
    requires Sized(s)
  {
    if h < |s.owed| then s.owed[h] == o && s.calls[h] == calls && s.raised[h] == raised
    else !o && calls == 0 && raised == 0
  }

  lemma NotedStep(s: State, a: Action, h: nat, o: bool, calls: int, raised: int)
    requires Inv(s) && Enabled(s, a) && Noted(s, h, o, calls, raised)
    ensures var o' := if Sent(s, a, h) then true else if Served(s, a, h) then false else o;
      Inv(Do(s, a)) && Noted(Do(s, a), h, o', calls + (if Served(s, a, h) then 1 else 0),
        raised + (if Raised(s, a, h) then 1 else 0))
  {
    StepInv(s, a);
    if a.Visit? {
      var g := s.todo[0];
      CountAt(s.todo, 0);
      assert Flags(s, g) && Linked(s, g);
    }
  }

  lemma {:induction false} NotedRun(s: State, run: seq<Action>, h: nat, o: bool, calls: int, raised: int)
    requires Inv(s) && CanRun(s, run) && Noted(s, h, o, calls, raised)
    ensures Inv(End(s, run)) && Noted(End(s, run), h, Waits(s, run, h, o), calls + Callbacks(s, run, h),
      raised + Raises(s, run, h))
    decreases |run|
  {
    if run != [] {
      var a := run[0];
      NotedStep(s, a, h, o, calls, raised);
      var o' := if Sent(s, a, h) then true else if Served(s, a, h) then false else o;
      NotedRun(Do(s, a), run[1..], h, o', calls + (if Served(s, a, h) then 1 else 0),
        raised + (if Raised(s, a, h) then 1 else 0));
    }
  }

  // owed, calls and raised are what happened: whether a send came after the last
  // callback, and how many callbacks and sends that got 0 there were.
  lemma BooksAreTrue(s: State, run: seq<Action>, h: nat)
    requires Start(s) && CanRun(s, run)
    ensures var s' := End(s, run);
      Sized(s') && (h < |s'.live| ==>
        s'.owed[h] == Waits(s, run, h, false) && s'.calls[h] == Callbacks(s, run, h)
          && s'.raised[h] == Raises(s, run, h))
  {
    StartInv(s);
    NotedRun(s, run, h, false, 0, 0);
  }

  // No wake-up is lost: a send whose callback has not run since, on a handle that is not
  // closing, has left pending set, and then the descriptor is readable, or a sender is
  // about to write to it, or the loop has still to visit the handle.
  lemma NoLostWakeUp(s: State, run: seq<Action>, h: nat)
    requires Start(s) && CanRun(s, run)
    ensures var s' := End(s, run);
      Sized(s') && (h < |s'.live| && Open(s', h) && (s'.owed[h] || s'.pending[h]) ==> s'.pending[h] && Coming(s', h))
  {
    StartInv(s);
    RunInv(s, run);
    if h < |End(s, run).live| { assert Flags(End(s, run), h); }
  }

  // To its users a handle is one flag: a send sets it, and only the start of a callback
  // clears it, which happens only when it is set. This is the flag of the worker pool.
  predicate FlagStep(flag: bool, calls: int, flag': bool, calls': int, a: Action, called: bool) {
    || (flag' == flag && calls' == calls && !called)
    || (flag' && calls' == calls && (a.Load? || a.Exchange?) && !called)
    || (flag && !flag' && calls' == calls + 1 && called)
  }

  lemma FlagRefines(s: State, run: seq<Action>, a: Action, h: nat)
    requires Start(s) && CanRun(s, run) && Enabled(End(s, run), a)
    ensures var s' := End(s, run);
      var s'' := Do(s', a);
      Sized(s'') && (h < |s'.live| && Open(s', h) && Open(s'', h) ==>
        FlagStep(s'.owed[h], s'.calls[h], s''.owed[h], s''.calls[h], a, Served(s', a, h)))
  {
    StartInv(s);
    RunInv(s, run);
    StepInv(End(s, run), a);
    if h < |End(s, run).live| { assert Flags(End(s, run), h); }
  }

  predicate FromOutside(a: Action) { a.Load? || a.Init? || a.Close? }

  // When nothing but new sends, new handles and closes could happen, every send on an
  // open handle has been followed by its callback.
  lemma EverySendServed(s: State, run: seq<Action>, h: nat)
    requires Start(s) && CanRun(s, run)
    requires forall a :: Enabled(End(s, run), a) ==> FromOutside(a)
    ensures var s' := End(s, run);
      Sized(s') && (h < |s'.live| && Open(s', h) ==> !s'.owed[h] && !s'.pending[h] && s'.calls[h] == s'.raised[h])
  {
    NoLostWakeUp(s, run, h);
    StartInv(s);
    RunInv(s, run);
    var s' := End(s, run);
    forall t | 0 <= t < |s'.ps| ensures s'.ps[t].Out? {
      assert !FromOutside(SetBusy(t)) && !FromOutside(Exchange(t)) && !FromOutside(Write(t))
        && !FromOutside(ClearBusy(t));
      assert !Enabled(s', SetBusy(t)) && !Enabled(s', Exchange(t)) && !Enabled(s', Write(t))
        && !Enabled(s', ClearBusy(t));
    }
    if h < |s'.live| && Open(s', h) {
      assert Flags(s', h);
      Nobody(s'.ps, s'.on, h);
      LoopAtRest(s');
    }
  }

  lemma LoopAtRest(s: State)
    requires Inv(s) && (forall a :: Enabled(s, a) ==> FromOutside(a)) && forall t :: 0 <= t < |s.ps| ==> s.ps[t].Out?
    ensures !s.token && |s.todo| == 0
  {
    assert !FromOutside(Drain) && !FromOutside(Visit) && !FromOutside(EndVisit) && !FromOutside(EndCall)
      && !FromOutside(SpinDone);
    assert !Enabled(s, Drain) && !Enabled(s, Visit) && !Enabled(s, EndVisit) && !Enabled(s, EndCall)
      && !Enabled(s, SpinDone);
    if s.spinning != NONE {
      assert Flags(s, s.spinning);
      Nobody(s.ps, s.on, s.spinning);
    }
  }

  // A callback runs only for a send that set pending, and at most once for each.
  lemma OneCallPerRaise(s: State, run: seq<Action>, h: nat)
    requires Start(s) && CanRun(s, run)
    ensures var s' := End(s, run);
      Sized(s') && (h < |s'.live| && Open(s', h) ==> s'.raised[h] - 1 <= s'.calls[h] <= s'.raised[h])
  {
    StartInv(s);
    RunInv(s, run);
    if h < |End(s, run).live| { assert Flags(End(s, run), h); }
  }

  // Once uv__async_spin has returned for a handle, no sender writes for it any more.
  lemma NoWriteAfterClose(s: State, run: seq<Action>, more: seq<Action>, h: nat)
    requires Start(s) && CanRun(s, run) && h < |End(s, run).live| && !End(s, run).live[h] && CanRun(End(s, run), more)
    ensures var s' := End(End(s, run), more);
      Sized(s') && h < |s'.live| && !s'.live[h] && Writers(s'.ps, s'.on, h) == 0
        && Count(s'.list, h) + Count(s'.todo, h) == 0
  {
    StartInv(s);
    RunInv(s, run);
    RunInv(End(s, run), more);
    StaysClosed(End(s, run), more, h);
    var s' := End(End(s, run), more);
    assert Flags(s', h) && Linked(s', h);
  }

  lemma {:induction false} StaysClosed(s: State, run: seq<Action>, h: nat)
    requires Inv(s) && CanRun(s, run) && h < |s.live| && !s.live[h]
    ensures h < |End(s, run).live| && !End(s, run).live[h]
    decreases |run|
  {
    if run != [] {
      StepInv(s, run[0]);
      StaysClosed(Do(s, run[0]), run[1..], h);
    }
  }
}
