// The barrier of thread-common.c, made of a mutex and a condition variable, as a
// transition system: one action per stretch that a thread holds the mutex.
module Barrier {

  // Where a thread is: outside; about to test out (Door) or parked on that test; inside
  // and parked (Waiting), or woken and about to test in (Rousing).
  datatype Pc = Away | Door | DoorParked | Waiting | Rousing

  // uv_barrier_destroy: not called, about to test out, parked on that test, returned.
  datatype Destroyer = Unborn | Testing | Parked | Gone

  // round[t] is the round thread t entered last, result[t] what its last call returned.
  // entered, left and ones count, for each round, the threads that entered and left it
  // and those that got 1; the last round is the one being filled.
  datatype State = State(
    threshold: nat, ins: int, out: int, ps: seq<Pc>, destroyer: Destroyer,
    round: seq<int>, result: seq<int>, entered: seq<int>, left: seq<int>, ones: seq<int>)

  datatype Action =
    | Call(t: nat)
    | Enter(t: nat)
    | Leave(t: nat)
    | Spurious(t: nat)
    | Destroy
    | TryDestroy
    | SpuriousDestroy

  // uv_cond_broadcast
  function WakeAll(ps: seq<Pc>): (r: seq<Pc>)
    ensures |r| == |ps|
    ensures forall t :: 0 <= t < |ps| ==> if ps[t].DoorParked? then r[t].Door?
      else if ps[t].Waiting? then r[t].Rousing? else r[t] == ps[t]
  {
    if ps == [] then []
    else [if ps[0].DoorParked? then Door else if ps[0].Waiting? then Rousing else ps[0]] + WakeAll(ps[1..])
  }

  function Broadcast(s: State): State {
    s.(ps := WakeAll(s.ps), destroyer := if s.destroyer.Parked? then Testing else s.destroyer)
  }

  function Filling(s: State): int { |s.entered| - 1 }

  function Bump(a: seq<int>, i: int): seq<int> {
    if 0 <= i < |a| then a[i := a[i] + 1] else a
  }

  // last = (--b->out == 0), and the broadcast of the last thread.
  function Exit(s: State, t: nat): State
    requires t < |s.ps| && t < |s.round| && t < |s.result|
  {
    var r := s.round[t];
    var s1 := s.(out := s.out - 1, ps := s.ps[t := Away], left := Bump(s.left, r));
    if s1.out == 0 then Broadcast(s1.(result := s.result[t := 1], ones := Bump(s.ones, r)))
      else s1.(result := s.result[t := 0])
  }

  // The round is full: b->in = 0, b->out = b->threshold, and the broadcast.
  function Fill(s: State, t: nat): State
    requires t < |s.ps| && t < |s.round|
  {
    Broadcast(s.(ins := 0, out := s.threshold, ps := s.ps[t := Rousing], round := s.round[t := Filling(s)],
                 entered := Bump(s.entered, Filling(s)) + [0], left := s.left + [0], ones := s.ones + [0]))
  }

  function Join(s: State, t: nat): State
    requires t < |s.ps| && t < |s.round|
  {
    s.(ins := s.ins + 1, ps := s.ps[t := Waiting], round := s.round[t := Filling(s)],
      entered := Bump(s.entered, Filling(s)))
  }

  predicate Sized(s: State) {
    |s.ps| == |s.round| == |s.result| && |s.entered| == |s.left| == |s.ones| >= 1
  }

  predicate Enabled(s: State, a: Action) {
    match a
    case Call(t) => t < |s.ps| && s.ps[t].Away? && s.destroyer.Unborn?
    case Enter(t) => t < |s.ps| && s.ps[t].Door? && Sized(s)
    case Leave(t) => t < |s.ps| && s.ps[t].Rousing? && Sized(s)
    case Spurious(t) => t < |s.ps| && (s.ps[t].DoorParked? || s.ps[t].Waiting?)
    case Destroy => s.destroyer.Unborn? && s.ins == 0 && forall t :: 0 <= t < |s.ps| ==>
      !s.ps[t].Door? && !s.ps[t].DoorParked?
    case TryDestroy => s.destroyer.Testing?
    case SpuriousDestroy => s.destroyer.Parked?
  }

  function Do(s: State, a: Action): State
    requires Enabled(s, a)
  {
    match a
    case Call(t) => s.(ps := s.ps[t := Door])
    case Enter(t) =>
      if s.out != 0 then s.(ps := s.ps[t := DoorParked])
      else if s.ins + 1 == s.threshold then Exit(Fill(s, t), t)
      else Join(s, t)
    case Leave(t) => if s.ins != 0 then s.(ps := s.ps[t := Waiting]) else Exit(s, t)
    case Spurious(t) => s.(ps := s.ps[t := if s.ps[t].DoorParked? then Door else Rousing])
    case Destroy => s.(destroyer := Testing)
    case TryDestroy => s.(destroyer := if s.out != 0 then Parked else Gone)
    case SpuriousDestroy => s.(destroyer := Testing)
  }

  // uv_barrier_init with a count that is not 0.
  predicate Init(s: State) {
    && s.threshold > 0 && s.ins == 0 && s.out == 0 && s.destroyer.Unborn? && Sized(s)
    && (forall t :: 0 <= t < |s.ps| ==> s.ps[t].Away?)
    && |s.entered| == 1 && s.entered[0] == 0 && s.left[0] == 0 && s.ones[0] == 0
  }

  predicate CanRun(s: State, run: seq<Action>)
    decreases |run|
  {
    run == [] || (Enabled(s, run[0]) && CanRun(Do(s, run[0]), run[1..]))
  }

  function End(s: State, run: seq<Action>): State
    requires CanRun(s, run)
    decreases |run|
  {
    if run == [] then s else End(Do(s, run[0]), run[1..])
  }

  // ---------- the invariant ----------

  function One(p: Pc): int { if p.Waiting? || p.Rousing? then 1 else 0 }

  // How many threads are inside.
  function Inside(ps: seq<Pc>): int {
    if ps == [] then 0 else One(ps[0]) + Inside(ps[1..])
  }

  // The round the threads inside belong to.
  function Current(s: State): int { if s.out > 0 then Filling(s) - 1 else Filling(s) }

  // While a round is being left nobody enters and nobody inside sleeps; while one is
  // being filled nobody sleeps at the door.
  ghost predicate Gate(s: State) {
    && 0 <= s.ins < s.threshold && 0 <= s.out <= s.threshold && (s.out > 0 ==> s.ins == 0)
    && Inside(s.ps) == s.ins + s.out
    && (s.out > 0 ==> forall t :: 0 <= t < |s.ps| ==> !s.ps[t].Waiting?)
    && (s.out == 0 ==> !s.destroyer.Parked? && forall t :: 0 <= t < |s.ps| ==> !s.ps[t].DoorParked?)
  }

  ghost predicate Members(s: State)
    requires Sized(s)
  {
    forall t :: 0 <= t < |s.ps| && One(s.ps[t]) == 1 ==> s.round[t] == Current(s)
  }

  // The books: a full round was entered by threshold threads; once the next one can
  // fill, all of them have left and one of them got 1.
  ghost predicate Books(s: State)
    requires Sized(s)
  {
    var f := Filling(s);
    && s.entered[f] == s.ins && s.left[f] == 0 && s.ones[f] == 0 && (f == 0 ==> s.out == 0)
    && (f > 0 ==> s.left[f - 1] == s.threshold - s.out && s.ones[f - 1] == if s.out == 0 then 1 else 0)
    && (forall r :: 0 <= r < f ==> s.entered[r] == s.threshold)
    && (forall r :: 0 <= r < f - 1 ==> s.left[r] == s.threshold && s.ones[r] == 1)
  }

  // A destroyed barrier is empty and stays so.
  ghost predicate Closed(s: State) {
    && (!s.destroyer.Unborn? ==> s.ins == 0 && forall t :: 0 <= t < |s.ps| ==> !s.ps[t].Door? && !s.ps[t].DoorParked?)
    && (s.destroyer.Gone? ==> s.out == 0)
  }

  ghost predicate Inv(s: State) { Sized(s) && Gate(s) && Members(s) && Books(s) && Closed(s) }

  lemma {:induction false} InsideUpdate(ps: seq<Pc>, t: nat, p: Pc)
    requires t < |ps|
    ensures Inside(ps[t := p]) == Inside(ps) - One(ps[t]) + One(p)
  {
    if t > 0 {
      assert ps[t := p][1..] == ps[1..][t - 1 := p];
      InsideUpdate(ps[1..], t - 1, p);
    } else {
      assert ps[t := p][1..] == ps[1..];
    }
  }

  lemma {:induction false} InsideWake(ps: seq<Pc>)
    ensures Inside(WakeAll(ps)) == Inside(ps) >= 0
  {
    if ps != [] { InsideWake(ps[1..]); }
  }

  lemma {:induction false} InsideSome(ps: seq<Pc>, t: nat)
    requires t < |ps|
    ensures Inside(ps) >= One(ps[t])
  {
    InsideWake(ps[1..]);
    if t > 0 { InsideSome(ps[1..], t - 1); }
  }

  // A thread inside leaves a full round.
  lemma ExitInv(s: State, t: nat)
    requires Inv(s) && t < |s.ps| && s.ps[t].Rousing? && s.out > 0
    ensures Inv(Exit(s, t))
  {
    InsideUpdate(s.ps, t, Away);
    InsideWake(s.ps[t := Away]);
    assert s.round[t] == Filling(s) - 1;
    var s' := Exit(s, t);
    if s.out == 1 {
      forall u | 0 <= u < |s'.ps| ensures One(s'.ps[u]) == 0 { InsideSome(s'.ps, u); }
    }
    assert Gate(s');
    assert Books(s');
  }

  lemma FillInv(s: State, t: nat)
    requires Inv(s) && t < |s.ps| && s.ps[t].Door? && s.out == 0 && s.ins + 1 == s.threshold
    ensures Inv(Fill(s, t)) && Fill(s, t).ps[t].Rousing?
  {
    InsideUpdate(s.ps, t, Rousing);
    InsideWake(s.ps[t := Rousing]);
  }

  lemma JoinInv(s: State, t: nat)
    requires Inv(s) && t < |s.ps| && s.ps[t].Door? && s.out == 0 && s.ins + 1 != s.threshold
    ensures Inv(Join(s, t))
  {
    InsideUpdate(s.ps, t, Waiting);
  }

  lemma MoveInv(s: State, t: nat, p: Pc)
    requires Inv(s) && t < |s.ps| && One(p) == One(s.ps[t])
    requires (p.Door? && s.ps[t].Away? ==> s.destroyer.Unborn?) && (p.DoorParked? ==> s.out > 0 && s.ps[t].Door?)
      && (p.Waiting? ==> s.out == 0)
    requires p.Door? ==> s.ps[t].Away? || s.ps[t].DoorParked?
    ensures Inv(s.(ps := s.ps[t := p]))
  {
    InsideUpdate(s.ps, t, p);
  }

  lemma StepInv(s: State, a: Action)
    requires Inv(s) && Enabled(s, a)
    ensures Inv(Do(s, a))
  {
    match a
    case Call(t) => MoveInv(s, t, Door);
    case Enter(t) =>
      if s.out != 0 {
        MoveInv(s, t, DoorParked);
      } else if s.ins + 1 == s.threshold {
        FillInv(s, t);
        ExitInv(Fill(s, t), t);
      } else {
        JoinInv(s, t);
      }
    case Leave(t) =>
      InsideSome(s.ps, t);
      if s.ins != 0 { MoveInv(s, t, Waiting); } else { ExitInv(s, t); }
    case Spurious(t) => MoveInv(s, t, if s.ps[t].DoorParked? then Door else Rousing);
    case Destroy =>
    case TryDestroy =>
    case SpuriousDestroy =>
  }

  lemma InitInv(s: State)
    requires Init(s)
    ensures Inv(s)
  {
    NobodyInside(s.ps);
  }

  lemma {:induction false} NobodyInside(ps: seq<Pc>)
    requires forall t :: 0 <= t < |ps| ==> ps[t].Away?
    ensures Inside(ps) == 0
  {
    if ps != [] { NobodyInside(ps[1..]); }
  }

  lemma {:induction false} RunInv(s: State, run: seq<Action>)
    requires Inv(s) && CanRun(s, run)
    ensures Inv(End(s, run))
    decreases |run|
  {
    if run != [] {
      StepInv(s, run[0]);
      RunInv(Do(s, run[0]), run[1..]);
    }
  }

  // ---------- the theorems, for every run of a new barrier ----------

  // Whoever leaves, in whatever round, leaves after threshold threads have entered it.
  lemma NobodyLeavesEarly(s: State, run: seq<Action>, r: nat)
    requires Init(s) && CanRun(s, run)
    ensures var s' := End(s, run); Sized(s') && (r < |s'.left| && s'.left[r] > 0 ==> s'.entered[r] == s'.threshold)
  {
    InitInv(s);
    RunInv(s, run);
  }

  // Exactly one thread of each round that all have left got 1, and at most one of any.
  lemma OneSerialThread(s: State, run: seq<Action>, r: nat)
    requires Init(s) && CanRun(s, run)
    ensures var s' := End(s, run);
      Sized(s') && (r < |s'.ones| ==> s'.ones[r] == if s'.left[r] == s'.threshold then 1 else 0)
  {
    InitInv(s);
    RunInv(s, run);
  }

  // ---------- what uv_barrier_wait returns ----------

  // The returns of a step: the result of the thread that was inside, or at the door,
  // and is away now.
  function Went(s: State, a: Action): seq<int>
    requires Enabled(s, a)
  {
    var s' := Do(s, a);
    if (a.Enter? || a.Leave?) && a.t < |s'.ps| && s'.ps[a.t].Away? && a.t < |s'.result| then [s'.result[a.t]] else []
  }

  // The entries of a step: a thread that was at the door is not there any more.
  function Came(s: State, a: Action): nat
    requires Enabled(s, a)
  {
    var s' := Do(s, a);
    if a.Enter? && a.t < |s'.ps| && !s'.ps[a.t].Door? && !s'.ps[a.t].DoorParked? then 1 else 0
  }

  // What the calls of a run returned, in order, and how many threads entered.
  function Returns(s: State, run: seq<Action>): seq<int>
    requires CanRun(s, run)
    decreases |run|
  {
    if run == [] then [] else Went(s, run[0]) + Returns(Do(s, run[0]), run[1..])
  }

  function Entries(s: State, run: seq<Action>): nat
    requires CanRun(s, run)
    decreases |run|
  {
    if run == [] then 0 else Came(s, run[0]) + Entries(Do(s, run[0]), run[1..])
  }

  // Every threshold-th return is 1 and the others are 0.
  ghost predicate Serial(r: seq<int>, threshold: nat)
    requires threshold > 0
  {
    forall k {:trigger r[k]} :: 0 <= k < |r| ==> r[k] == if (k + 1) % threshold == 0 then 1 else 0
  }

  // After q rounds, the last of which out threads have still to leave.
  ghost predicate Traced(s: State, e: nat, r: seq<int>, q: nat) {
    s.threshold > 0 && e == |r| + s.ins + s.out && |r| + s.out == s.threshold * q && Serial(r, s.threshold)
  }

  lemma AtLeast(m: int, x: int)
    requires m >= 0
    ensures x >= 1 ==> m * x >= m
    ensures x <= -1 ==> m * x <= -m
  {
    if x >= 1 { assert m * x == m + m * (x - 1); }
    if x <= -1 { assert m * x == -m + m * (x + 1); }
  }

  lemma DivMod(a: nat, m: nat, q: int, b: nat)
    requires b < m && a == m * q + b
    ensures a / m == q && a % m == b
  {
    var p := a / m;
    assert m * (q - p) == a % m - b;
    AtLeast(m, q - p);
  }

  // out threads short of q full rounds.
  lemma ShortOf(n: nat, out: nat, m: nat, q: nat)
    requires out < m && n + out == m * q
    ensures n % m == 0 <==> out == 0
  {
    if out == 0 {
      DivMod(n, m, q, 0);
    } else {
      assert m * (q - 1) == m * q - m;
      DivMod(n, m, q - 1, m - out);
    }
  }

  lemma SerialMore(r: seq<int>, x: int, out: nat, threshold: nat, q: nat)
    requires threshold > 0 && Serial(r, threshold) && 1 <= out <= threshold && |r| + out == threshold * q
    requires x == if out == 1 then 1 else 0
    ensures Serial(r + [x], threshold)
  {
    ShortOf(|r| + 1, out - 1, threshold, q);
  }

  // A thread that is inside leaves, and returns 1 if it is the last.
  lemma ExitTraced(s: State, t: nat, e: nat, r: seq<int>, q: nat)
    requires Sized(s) && t < |s.ps| && 1 <= s.out <= s.threshold && Traced(s, e, r, q)
    ensures var s' := Exit(s, t);
      s'.ps[t].Away? && s'.result == s.result[t := if s.out == 1 then 1 else 0] && Traced(s', e, r + [s'.result[t]], q)
  {
    SerialMore(r, if s.out == 1 then 1 else 0, s.out, s.threshold, q);
  }

  lemma TracedStep(s: State, a: Action, e: nat, r: seq<int>, q: nat) returns (q': nat)
    requires Inv(s) && Enabled(s, a) && Traced(s, e, r, q)
    ensures Inv(Do(s, a)) && Traced(Do(s, a), e + Came(s, a), r + Went(s, a), q')
  {
    StepInv(s, a);
    assert r + [] == r;
    q' := q;
    match a
    case Enter(t) =>
      if s.out == 0 && s.ins + 1 == s.threshold {
        q' := q + 1;
        assert s.threshold * q' == s.threshold * q + s.threshold;
        ExitTraced(Fill(s, t), t, e + 1, r, q');
      }
    case Leave(t) =>
      InsideSome(s.ps, t);
      if s.ins == 0 { ExitTraced(s, t, e, r, q); }
    case _ =>
  }

  lemma {:induction false} TracedRun(s: State, run: seq<Action>, e: nat, r: seq<int>, q: nat) returns (q': nat)
    requires Inv(s) && CanRun(s, run) && Traced(s, e, r, q)
    ensures Inv(End(s, run)) && Traced(End(s, run), e + Entries(s, run), r + Returns(s, run), q')
    decreases |run|
  {
    if run == [] {
      assert r + [] == r;
      q' := q;
    } else {
      var a := run[0];
      q' := TracedStep(s, a, e, r, q);
      Regroup(r, Went(s, a), Returns(Do(s, a), run[1..]));
      q' := TracedRun(Do(s, a), run[1..], e + Came(s, a), r + Went(s, a), q');
    }
  }

  lemma Regroup(a: seq<int>, b: seq<int>, c: seq<int>)
    ensures a + b + c == a + (b + c)
  {
  }

  // Of every threshold returns, in order, the last is 1 and the others are 0; and only
  // whole groups of threshold threads that have entered return.
  lemma OneSerialReturn(s: State, run: seq<Action>)
    requires Init(s) && CanRun(s, run)
    ensures var r, e := Returns(s, run), Entries(s, run);
      && (forall k {:trigger r[k]} :: 0 <= k < |r| ==> r[k] == if (k + 1) % s.threshold == 0 then 1 else 0)
      && |r| <= e / s.threshold * s.threshold && e <= |r| + s.threshold
  {
    var s', e, r := End(s, run), Entries(s, run), Returns(s, run);
    InitInv(s);
    SameThreshold(s, run);
    var q := TracedRun(s, run, 0, [], 0);
    assert [] + r == r;
    Rounds(|r|, s'.out, s'.ins, s.threshold, q);
  }

  lemma Rounds(n: nat, out: nat, ins: nat, m: nat, q: nat)
    requires m > 0 && n + out == m * q && ins < m
    ensures n <= (n + ins + out) / m * m
  {
    DivMod(n + ins + out, m, q, ins);
  }

  lemma {:induction false} SameThreshold(s: State, run: seq<Action>)
    requires CanRun(s, run)
    ensures End(s, run).threshold == s.threshold
    decreases |run|
  {
    if run != [] {
      assert Do(s, run[0]).threshold == s.threshold;
      SameThreshold(Do(s, run[0]), run[1..]);
    }
  }

  predicate Returned(s: State, a: Action, t: nat)
    requires Enabled(s, a)
  {
    t < |s.ps| == |Do(s, a).ps| && !s.ps[t].Away? && Do(s, a).ps[t].Away?
  }

  // A call that returns gets 1 if it is the last of its round to leave, 0 otherwise;
  // nobody else's result changes.
  ghost predicate Answered(s: State, a: Action, t: nat)
    requires Enabled(s, a)
  {
    var s' := Do(s, a);
    && t < |s.result| == |s'.result| == |s'.round| && |s'.left| == |s'.ones|
    && if !Returned(s, a, t) then s'.result[t] == s.result[t] else
      && 0 <= s'.round[t] < |s'.left| && s'.result[t] == s'.ones[s'.round[t]]
      && s'.result[t] == if s'.left[s'.round[t]] == s'.threshold then 1 else 0
  }

  lemma ExitAnswers(s: State, t: nat)
    requires Inv(s) && t < |s.ps| && s.ps[t].Rousing? && s.out > 0
    ensures var s' := Exit(s, t);
      var r := s.round[t];
      && s'.result == s.result[t := s'.result[t]] && s'.round == s.round && 0 <= r < |s'.left| == |s'.ones|
      && s'.result[t] == s'.ones[r] == if s'.left[r] == s'.threshold then 1 else 0
  {
    ExitInv(s, t);
    assert s.round[t] == Filling(s) - 1;
  }

  lemma LastGetsOne(s: State, run: seq<Action>, a: Action, t: nat)
    requires Init(s) && CanRun(s, run) && Enabled(End(s, run), a) && t < |End(s, run).ps|
    ensures Answered(End(s, run), a, t)
  {
    InitInv(s);
    RunInv(s, run);
    AnsweredStep(End(s, run), a, t);
  }

  lemma LastAnswers(s: State, u: nat, t: nat)
    requires Inv(s) && u < |s.ps| && t < |s.ps| && s.ps[u].Door? && s.out == 0 && s.ins + 1 == s.threshold
    ensures Answered(s, Enter(u), t)
  {
    FillInv(s, u);
    ExitAnswers(Fill(s, u), u);
  }

  lemma LeaverAnswers(s: State, u: nat, t: nat)
    requires Inv(s) && u < |s.ps| && t < |s.ps| && s.ps[u].Rousing? && s.ins == 0
    ensures Answered(s, Leave(u), t)
  {
    InsideSome(s.ps, u);
    ExitAnswers(s, u);
  }

  lemma AnsweredStep(s: State, a: Action, t: nat)
    requires Inv(s) && Enabled(s, a) && t < |s.ps|
    ensures Answered(s, a, t)
  {
    if a.Enter? && s.out == 0 && s.ins + 1 == s.threshold {
      LastAnswers(s, a.t, t);
    } else if a.Leave? && s.ins == 0 {
      LeaverAnswers(s, a.t, t);
    }
  }

  // The counters agree: out != 0 means nobody of the next round is in; the threads
  // inside are those counted by ins and out, all of one round.
  lemma NoOvertaking(s: State, run: seq<Action>)
    requires Init(s) && CanRun(s, run)
    ensures var s' := End(s, run);
      && Sized(s')
      && (s'.out != 0 ==> s'.ins == 0 && s'.entered[Filling(s')] == 0)
      && Inside(s'.ps) == s'.ins + s'.out
      && (forall t, u :: 0 <= t < |s'.ps| && 0 <= u < |s'.ps| && One(s'.ps[t]) == 1 && One(s'.ps[u]) == 1 ==>
        s'.round[t] == s'.round[u])
  {
    InitInv(s);
    RunInv(s, run);
  }

  predicate FromOutside(a: Action) { a.Call? || a.Spurious? || a.Destroy? || a.SpuriousDestroy? }

  // No wake-up is lost: when nothing but new calls and spurious wake-ups could move the
  // barrier, the threads inside wait for the rest of their round and nobody waits at
  // the door or to destroy the barrier.
  lemma NobodyStuck(s: State, run: seq<Action>)
    requires Init(s) && CanRun(s, run)
    requires forall a :: Enabled(End(s, run), a) ==> FromOutside(a)
    ensures var s' := End(s, run);
      && s'.out == 0 && Inside(s'.ps) == s'.ins < s'.threshold && !s'.destroyer.Testing? && !s'.destroyer.Parked?
      && forall t :: 0 <= t < |s'.ps| ==> s'.ps[t].Away? || s'.ps[t].Waiting?
  {
    InitInv(s);
    RunInv(s, run);
    var s' := End(s, run);
    forall t | 0 <= t < |s'.ps| ensures !s'.ps[t].Door? && !s'.ps[t].Rousing? {
      assert !FromOutside(Enter(t)) && !FromOutside(Leave(t));
      assert !Enabled(s', Enter(t)) && !Enabled(s', Leave(t));
    }
    assert !FromOutside(TryDestroy) && !Enabled(s', TryDestroy);
    if s'.out > 0 { Asleep(s'.ps); }
  }

  lemma {:induction false} Asleep(ps: seq<Pc>)
    requires forall t :: 0 <= t < |ps| ==> One(ps[t]) == 0
    ensures Inside(ps) == 0
  {
    if ps != [] { Asleep(ps[1..]); }
  }

  // When uv_barrier_destroy returns the barrier is empty, so it never aborts.
  lemma DestroyedWhenEmpty(s: State, run: seq<Action>)
    requires Init(s) && CanRun(s, run) && End(s, run).destroyer.Gone?
    ensures End(s, run).ins == 0 && Inside(End(s, run).ps) == 0
  {
    InitInv(s);
    RunInv(s, run);
  }
}
