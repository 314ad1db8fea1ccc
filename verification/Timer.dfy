// The timers of a loop, timer.c, on the heap of heap-inl.h. The queue of timers that
// are due, intrusive in the source, is a sequence here.
module Timer {
  import opened Heap
  import opened Passes

  const UV_EINVAL := -22
  const UINT64_MAX: nat := 0xFFFF_FFFF_FFFF_FFFF
  const INT_MAX: nat := 0x7FFF_FFFF

  // loop->time + timeout in 64 bits, the largest value on overflow.
  function Clamp(time: nat, timeout: nat): nat {
    var sum := (time + timeout) % (UINT64_MAX + 1);
    if sum < timeout then UINT64_MAX else sum
  }

  lemma ClampIsSaturating(time: nat, timeout: nat)
    requires time <= UINT64_MAX && timeout <= UINT64_MAX
    ensures Clamp(time, timeout) == if time + timeout <= UINT64_MAX then time + timeout else UINT64_MAX
  {
  }

  // Part of the timers start has moved from elems to ready, the least ones in order.
  ghost predicate Collected(ready: seq<Node>, elems: set<Node>, start: set<Node>, time: nat)
    reads ready`timeout, ready`startId, elems`timeout, elems`startId
  {
    && (forall x :: x in ready ==> x.timeout <= time)
    && (forall x :: x in start ==> x in ready || x in elems)
    && (forall x :: x in ready ==> x in start) && elems <= start
    && (forall x, y :: x in ready && y in elems ==> LessThan(x, y))
    && (forall i, j :: 0 <= i < j < |ready| ==> LessThan(ready[i], ready[j]))
  }

  lemma CollectStep(ready: seq<Node>, elems: set<Node>, start: set<Node>, time: nat, h: Node)
    requires Collected(ready, elems, start, time) && h in elems && h.timeout <= time
    requires forall x :: x in elems && x != h ==> LessThan(h, x)
    ensures Collected(ready + [h], elems - {h}, start, time)
  {
  }

  // What a callback may do.
  datatype Call =
    | Start(h: Node, cb: nat, timeout: nat, repeat: nat) | Stop(h: Node) | Again(h: Node)
    | SetRepeat(h: Node, repeat: nat) | Close(h: Node) | UpdateTime(time: nat)

  // The call does not touch a handle outside handles.
  predicate CallOn(c: Call, handles: set<Node>) { c.UpdateTime? || c.h in handles }

  // A handle, as its API calls see it: timer_cb, repeat, the flags, and when it is due.
  datatype Conf = Conf(cb: nat, repeat: nat, closing: bool, active: bool, timeout: nat, startId: nat)

  // The loop's time, its timer_counter, and the handles.
  datatype View = View(time: nat, counter: nat, confs: map<Node, Conf>)

  // An active handle with this timeout from now, and the next start_id.
  function Armed(v: View, h: Node, cb: nat, timeout: nat, repeat: nat): View {
    v.(counter := v.counter + 1,
       confs := v.confs[h := Conf(cb, repeat, false, true, Clamp(v.time, timeout), v.counter)])
  }

  function After(c: Call, v: View): View {
    if c.UpdateTime? then v.(time := c.time)
    else if c.h !in v.confs then v
    else
      var f := v.confs[c.h];
      match c
      case Start(h, cb, timeout, repeat) => if f.closing || cb == 0 then v else Armed(v, h, cb, timeout, repeat)
      case Stop(h) => v.(confs := v.confs[h := f.(active := false)])
      case Again(h) =>
        if f.cb == 0 || f.repeat == 0 then v
        else if f.closing then v.(confs := v.confs[h := f.(active := false)])
        else Armed(v, h, f.cb, f.repeat, f.repeat)
      case SetRepeat(h, repeat) => v.(confs := v.confs[h := f.(repeat := repeat)])
      case Close(h) => v.(confs := v.confs[h := f.(closing := true, active := false)])
  }

  // The handle the call takes out of heap and ready queue: it is stopped, closed,
  // started with a callback, or started again with one and a repeat.
  function Halts(c: Call, v: View): set<Node> {
    if c.UpdateTime? || c.h !in v.confs then {} else
      var f := v.confs[c.h];
      match c
      case Start(h, cb, _, _) => if f.closing || cb == 0 then {} else {h}
      case Stop(h) => {h}
      case Again(h) => if f.cb == 0 || f.repeat == 0 then {} else {h}
      case SetRepeat(_, _) => {}
      case Close(h) => {h}
  }

  lemma MinusHalts(q: seq<Node>, s: set<Node>, c: Call, v: View)
    ensures Minus(q, s + Halts(c, v)) == if Halts(c, v) == {} then Minus(q, s) else Without(Minus(q, s), c.h)
  {
    if Halts(c, v) == {} {
      assert s + {} == s;
    } else {
      assert Halts(c, v) == {c.h};
      MinusWithout(q, s, c.h);
    }
  }

  function AfterAll(calls: seq<Call>, v: View): View {
    if calls == [] then v else After(calls[|calls| - 1], AfterAll(calls[..|calls| - 1], v))
  }

  // The handles some of the calls take out.
  function Halted(calls: seq<Call>, v: View): set<Node> {
    if calls == [] then {} else
      var before := calls[..|calls| - 1];
      Halted(before, v) + Halts(calls[|calls| - 1], AfterAll(before, v))
  }

  lemma NextCall(calls: seq<Call>, n: nat, v: View)
    requires n < |calls|
    ensures AfterAll(calls[..n + 1], v) == After(calls[n], AfterAll(calls[..n], v))
    ensures Halted(calls[..n + 1], v) == Halted(calls[..n], v) + Halts(calls[n], AfterAll(calls[..n], v))
  {
    assert calls[..n + 1][..n] == calls[..n];
  }

  // The call is for x and stops it, closes it, or starts it with a callback or, given
  // that x now has that repeat, again.
  predicate Takes(c: Call, x: Node, repeat: nat) {
    !c.UpdateTime? && c.h == x && (c.Stop? || c.Close? || (c.Start? && c.cb != 0) || (c.Again? && repeat != 0))
  }

  ghost predicate TakenAt(calls: seq<Call>, k: nat, v: View, x: Node) {
    k < |calls| && x in AfterAll(calls[..k], v).confs && Takes(calls[k], x, AfterAll(calls[..k], v).confs[x].repeat)
  }

  // A timer in the ready queue has a callback and is not closing.
  predicate CanFire(v: View, x: Node) { x in v.confs && v.confs[x].cb != 0 && !v.confs[x].closing }

  // A timer that can fire is taken out by exactly the stops, closes and restarts:
  // unless one of them is among the calls it can still fire after them.
  lemma {:induction false} TakenExactly(calls: seq<Call>, v: View, x: Node)
    requires CanFire(v, x)
    ensures x in Halted(calls, v) <==> exists k :: TakenAt(calls, k, v, x)
    ensures x in AfterAll(calls, v).confs && (x !in Halted(calls, v) ==> CanFire(AfterAll(calls, v), x))
  {
    if calls != [] {
      var n, before := |calls| - 1, calls[..|calls| - 1];
      TakenExactly(before, v, x);
      forall k: nat | k < n ensures TakenAt(calls, k, v, x) <==> TakenAt(before, k, v, x) {
        assert before[..k] == calls[..k];
      }
      if x in Halted(calls, v) && x !in Halted(before, v) { assert TakenAt(calls, n, v, x); }
    }
  }

  // The k-th callback made the calls of scripts[k], or none.
  function Script(scripts: seq<seq<Call>>, k: nat): seq<Call> { if k < |scripts| then scripts[k] else [] }

  // A pass has fired the timers of fired: each was started again and then called, and
  // the k-th callback made the calls of scripts[k].
  function Turns(scripts: seq<seq<Call>>, fired: seq<Node>, v: View): View {
    if fired == [] then v else
      var n := |fired| - 1;
      AfterAll(Script(scripts, n), After(Again(fired[n]), Turns(scripts, fired[..n], v)))
  }

  // What the k-th callback finds.
  function At(scripts: seq<seq<Call>>, fired: seq<Node>, k: nat, v: View): View
    requires k < |fired|
  {
    After(Again(fired[k]), Turns(scripts, fired[..k], v))
  }

  // halts[k] is exactly what the k-th callback takes out.
  ghost predicate Scripted(scripts: seq<seq<Call>>, fired: seq<Node>, halts: seq<set<Node>>, v: View) {
    && |halts| == |fired|
    && forall k {:trigger halts[k]} :: 0 <= k < |halts| ==>
      halts[k] == Halted(Script(scripts, k), At(scripts, fired, k, v))
  }

  lemma ScriptOn(scripts: seq<seq<Call>>, k: nat, handles: set<Node>)
    requires forall n, j :: 0 <= n < |scripts| && 0 <= j < |scripts[n]| ==> CallOn(scripts[n][j], handles)
    ensures forall j :: 0 <= j < |Script(scripts, k)| ==> CallOn(Script(scripts, k)[j], handles)
  {
  }

  lemma SameAt(scripts: seq<seq<Call>>, fired: seq<Node>, h: Node, k: nat, v: View)
    requires k < |fired|
    ensures At(scripts, fired + [h], k, v) == At(scripts, fired, k, v)
  {
    assert (fired + [h])[..k] == fired[..k];
  }

  lemma NextAt(scripts: seq<seq<Call>>, fired: seq<Node>, h: Node, v: View)
    ensures At(scripts, fired + [h], |fired|, v) == After(Again(h), Turns(scripts, fired, v))
    ensures Turns(scripts, fired + [h], v)
      == AfterAll(Script(scripts, |fired|), After(Again(h), Turns(scripts, fired, v)))
  {
    assert (fired + [h])[..|fired|] == fired;
  }

  // h has been called next, and its callback has taken out s.
  lemma ScriptedMore(scripts: seq<seq<Call>>, fired: seq<Node>, h: Node, halts: seq<set<Node>>, s: set<Node>, v: View)
    requires Scripted(scripts, fired, halts, v)
    requires s == Halted(Script(scripts, |fired|), After(Again(h), Turns(scripts, fired, v)))
    ensures Scripted(scripts, fired + [h], halts + [s], v)
  {
    var more := halts + [s];
    forall k {:trigger more[k]} | 0 <= k < |more|
      ensures more[k] == Halted(Script(scripts, k), At(scripts, fired + [h], k, v))
    {
      if k < |halts| { SameAt(scripts, fired, h, k, v); } else { NextAt(scripts, fired, h, v); }
    }
  }

  // ---------- what a pass leaves of a timer that no call touches ----------

  predicate Touches(c: Call, x: Node) { !c.UpdateTime? && c.h == x }

  ghost predicate NoneTouches(calls: seq<Call>, x: Node) { forall j :: 0 <= j < |calls| ==> !Touches(calls[j], x) }

  // None of the calls of the first n callbacks is for x.
  ghost predicate Untouched(scripts: seq<seq<Call>>, n: nat, x: Node) {
    n == 0 || (Untouched(scripts, n - 1, x) && NoneTouches(Script(scripts, n - 1), x))
  }

  lemma {:induction false} NoCallKeeps(calls: seq<Call>, v: View, x: Node)
    requires NoneTouches(calls, x) && x in v.confs
    ensures x in AfterAll(calls, v).confs && AfterAll(calls, v).confs[x] == v.confs[x]
  {
    if calls != [] { NoCallKeeps(calls[..|calls| - 1], v, x); }
  }

  lemma AgainKeeps(h: Node, v: View, x: Node)
    requires x in v.confs && x != h
    ensures x in After(Again(h), v).confs && After(Again(h), v).confs[x] == v.confs[x]
  {
  }

  lemma {:induction false} TurnsKeep(scripts: seq<seq<Call>>, fired: seq<Node>, v: View, x: Node)
    requires Untouched(scripts, |fired|, x) && x !in fired && x in v.confs
    ensures x in Turns(scripts, fired, v).confs && Turns(scripts, fired, v).confs[x] == v.confs[x]
  {
    if fired != [] {
      var n := |fired| - 1;
      var u := Turns(scripts, fired[..n], v);
      TurnsKeep(scripts, fired[..n], v, x);
      AgainKeeps(fired[n], u, x);
      NoCallKeeps(Script(scripts, n), After(Again(fired[n]), u), x);
    }
  }

  // A timer that fires and that no call touches is left as uv_timer_again leaves it.
  lemma {:induction false} FiredIsArmed(scripts: seq<seq<Call>>, fired: seq<Node>, v: View, i: nat)
    requires Distinct(fired) && i < |fired| && Untouched(scripts, |fired|, fired[i]) && fired[i] in v.confs
    ensures var u := Turns(scripts, fired[..i], v);
      && fired[i] in u.confs && u.confs[fired[i]] == v.confs[fired[i]] && fired[i] in Turns(scripts, fired, v).confs
      && Turns(scripts, fired, v).confs[fired[i]] == After(Again(fired[i]), u).confs[fired[i]]
  {
    var n, x := |fired| - 1, fired[i];
    var front := fired[..n];
    if i == n {
      TurnsKeep(scripts, front, v, x);
      NoCallKeeps(Script(scripts, n), After(Again(x), Turns(scripts, front, v)), x);
    } else {
      FiredIsArmed(scripts, front, v, i);
      assert front[..i] == fired[..i];
      AgainKeeps(fired[n], Turns(scripts, front, v), x);
      NoCallKeeps(Script(scripts, n), After(Again(fired[n]), Turns(scripts, front, v)), x);
    }
  }

  ghost function ConfOf(x: Node): Conf
    reads x`cb, x`repeat, x`closing, x`active, x`timeout, x`startId
  {
    Conf(x.cb, x.repeat, x.closing, x.active, x.timeout, x.startId)
  }

  // The timers of due are not active any more.
  ghost function Idle(v: View, due: seq<Node>): View {
    v.(confs := map x | x in v.confs :: if x in due then v.confs[x].(active := false) else v.confs[x])
  }

  class Loop {
    var time: nat
    var counter: nat
    const heap: Heap
    var ready: seq<Node>
    // The initialised handles, and those stopped since the set was last emptied.
    ghost var handles: set<Node>
    ghost var halted: set<Node>

    ghost predicate Flags()
      reads this`handles, heap`elems, handles`active
    {
      heap.elems <= handles && forall x :: x in handles ==> (x.active <==> x in heap.elems)
    }

    ghost predicate Ids()
      reads this`counter, heap`elems, heap.elems`startId
    {
      && (forall x :: x in heap.elems ==> x.startId < counter)
      && (forall x, y :: x in heap.elems && y in heap.elems && x != y ==> x.startId != y.startId)
    }

    ghost predicate Queue()
      reads this`ready, this`handles, heap`elems
    {
      && (forall x :: x in ready ==> x in handles && x !in heap.elems)
      && Distinct(ready)
    }

    ghost predicate Valid()
      reads this`counter, this`ready, this`handles, heap, heap.slots`left, heap.slots`right, heap.slots`parent
      reads heap.slots`idx, heap.slots`timeout, heap.slots`startId, heap.elems`idx, heap.elems`startId, handles`active
    {
      heap.Valid() && Flags() && Ids() && Queue()
    }

    // A handle that can fire has a callback and is not closing.
    ghost predicate Live()
      reads this`ready, this`handles, heap`elems, handles`cb, handles`closing
    {
      forall x :: x in handles && (x in heap.elems || x in ready) ==> x.cb != 0 && !x.closing
    }

    ghost predicate LiveBut(h: Node)
      reads this`ready, this`handles, heap`elems, handles`cb, handles`closing
    {
      forall x :: x in handles && x != h && (x in heap.elems || x in ready) ==> x.cb != 0 && !x.closing
    }

    ghost function Now(): View
      reads this`time, this`counter, this`handles
      reads handles`cb, handles`repeat, handles`closing, handles`active, handles`timeout, handles`startId
    {
      View(time, counter, map x | x in handles :: ConfOf(x))
    }

    constructor ()
      ensures Live() && Valid() && heap.elems == {} && ready == [] && handles == {} && fresh(heap)
    {
      time, counter, ready, handles, halted := 0, 0, [], {}, {};
      heap := new Heap();
    }

    // uv_timer_init
    method Init() returns (h: Node)
      requires Valid() && Live()
      modifies this`handles
      ensures Valid() && Live() && fresh(h) && handles == old(handles) + {h} && !h.active && h !in ready && !h.closing
      ensures h.cb == 0 && h.timeout == 0 && h.repeat == 0
    {
      h := new Node();
      handles := handles + {h};
    }

    // Every heap size fits in an unsigned int.
    ghost predicate Roomy()
      reads this`handles
    {
      |handles| < 0xFFFF_FFFE
    }

    lemma Fits()
      requires Valid() && Roomy()
      ensures heap.nelts < 0xFFFF_FFFE
    {
      heap.CountsElems();
      Sizes(heap.elems, handles);
    }

    method Exit(h: Node)
      requires Valid() && Roomy() && h in heap.elems
      modifies heap, handles`left, handles`right, handles`parent, handles`idx, h`active
      ensures Valid() && heap.elems == old(heap.elems) - {h} && !h.active
    {
      Fits();
      heap.Remove(h);
      h.active := false;
    }

    // uv_timer_stop
    method TimerStop(h: Node) returns (r: int)
      requires Valid() && LiveBut(h) && Roomy() && h in handles
      modifies heap, handles`left, handles`right, handles`parent, handles`idx, h`active, this`ready, this`halted
      ensures Valid() && Live() && r == 0 && !h.active && heap.elems == old(heap.elems) - {h}
      ensures ready == Without(old(ready), h) && halted == old(halted) + {h} && h !in ready
    {
      WithoutProps(ready, h);
      if h.active {
        Exit(h);
      } else {
        ready := Without(ready, h);
      }
      halted := halted + {h};
      r := 0;
    }

    method Enter(h: Node)
      requires Valid() && Roomy() && h in handles && h !in heap.elems && h !in ready
      requires h.startId < counter && forall x :: x in heap.elems ==> x.startId != h.startId
      modifies heap, handles`left, handles`right, handles`parent, handles`idx, h`active
      ensures Valid() && heap.elems == old(heap.elems) + {h} && h.active
    {
      Fits();
      heap.Insert(h);
      h.active := true;
    }

    method Configure(h: Node, cb: nat, timeout: nat, repeat: nat)
      requires Valid() && h in handles && h !in heap.elems
      modifies h`cb, h`timeout, h`repeat, h`startId, this`counter
      ensures Valid() && h.cb == cb && h.timeout == timeout && h.repeat == repeat && h.startId == old(counter)
      ensures counter == old(counter) + 1 && forall x :: x in heap.elems ==> x.startId != h.startId
    {
      h.cb := cb;
      heap.SetKey(h, timeout, counter);
      h.repeat := repeat;
      counter := counter + 1;
    }

    // The second half of uv_timer_start.
    method Arm(h: Node, cb: nat, timeout: nat, repeat: nat)
      requires Valid() && Live() && cb != 0 && !h.closing && Roomy() && h in handles && h !in heap.elems && h !in ready
      modifies heap, handles`left, handles`right, handles`parent, handles`idx, this`counter
      modifies h`active, h`cb, h`timeout, h`repeat, h`startId
      ensures Valid() && Live() && heap.elems == old(heap.elems) + {h} && counter == old(counter) + 1
      ensures h.active && h.cb == cb && h.timeout == Clamp(time, timeout) && h.repeat == repeat
        && h.startId == old(counter)
    {
      Configure(h, cb, Clamp(time, timeout), repeat);
      Enter(h);
    }

    // uv_timer_start
    method TimerStart(h: Node, cb: nat, timeout: nat, repeat: nat) returns (r: int)
      requires Valid() && Live() && Roomy() && h in handles
      modifies heap, handles`left, handles`right, handles`parent, handles`idx, this`counter, this`ready, this`halted
      modifies h`active, h`cb, h`timeout, h`repeat, h`startId
      ensures Valid() && Live()
      ensures h.closing || cb == 0 ==>
        r == UV_EINVAL && heap.elems == old(heap.elems) && counter == old(counter)
        && ready == old(ready) && halted == old(halted)
      ensures h.closing || cb == 0 ==>
        h.active == old(h.active) && h.cb == old(h.cb) && h.timeout == old(h.timeout)
        && h.repeat == old(h.repeat) && h.startId == old(h.startId)
      ensures !h.closing && cb != 0 ==>
        r == 0 && heap.elems == old(heap.elems) + {h} && counter == old(counter) + 1
        && ready == Without(old(ready), h) && halted == old(halted) + {h}
      ensures !h.closing && cb != 0 ==>
        h.active && h.cb == cb && h.timeout == Clamp(time, timeout) && h.repeat == repeat && h.startId == old(counter)
    {
      if h.closing || cb == 0 { return UV_EINVAL; }
      var _ := TimerStop(h);
      Arm(h, cb, timeout, repeat);
      r := 0;
    }

    // uv_timer_again
    method TimerAgain(h: Node) returns (r: int)
      requires Valid() && Live() && Roomy() && h in handles
      modifies heap, handles`left, handles`right, handles`parent, handles`idx, this`counter, this`ready, this`halted
      modifies h`active, h`cb, h`timeout, h`repeat, h`startId
      ensures Valid() && Live() && h.cb == old(h.cb) && h.repeat == old(h.repeat)
      ensures r == if h.cb == 0 then UV_EINVAL else 0
      ensures h.cb == 0 || h.repeat == 0 ==>
        heap.elems == old(heap.elems) && counter == old(counter) && ready == old(ready) && halted == old(halted)
      ensures h.cb == 0 || h.repeat == 0 ==>
        h.active == old(h.active) && h.timeout == old(h.timeout) && h.startId == old(h.startId)
      ensures h.cb != 0 && h.repeat != 0 ==> ready == Without(old(ready), h) && halted == old(halted) + {h}
      ensures h.cb != 0 && h.repeat != 0 && h.closing ==>
        !h.active && heap.elems == old(heap.elems) - {h} && counter == old(counter)
        && h.timeout == old(h.timeout) && h.startId == old(h.startId)
      ensures h.cb != 0 && h.repeat != 0 && !h.closing ==>
        h.active && heap.elems == old(heap.elems) + {h}
        && h.timeout == Clamp(time, h.repeat) && h.startId == old(counter) && counter == old(counter) + 1
    {
      if h.cb == 0 { return UV_EINVAL; }
      if h.repeat != 0 {
        var _ := TimerStop(h);
        WithoutProps(ready, h);
        var _ := TimerStart(h, h.cb, h.repeat, h.repeat);
      }
      r := 0;
    }

    // uv_close: the handle is marked, then stopped.
    method Close(h: Node)
      requires Valid() && Live() && Roomy() && h in handles
      modifies heap, handles`left, handles`right, handles`parent, handles`idx, h`active, h`closing, this`ready,
        this`halted
      ensures Valid() && Live() && h.closing && !h.active && heap.elems == old(heap.elems) - {h}
      ensures ready == Without(old(ready), h) && halted == old(halted) + {h}
    {
      h.closing := true;
      var _ := TimerStop(h);
    }

    // h is due once d more has passed.
    predicate DueAfter(h: Node, d: nat)
      reads this`time, h`timeout
    {
      h.timeout <= time + d
    }

    // uv_timer_get_due_in: the least wait after which the timer is due.
    method DueIn(h: Node) returns (r: nat)
      ensures DueAfter(h, r) && forall d: nat :: DueAfter(h, d) ==> r <= d
    {
      if time >= h.timeout { return 0; }
      r := h.timeout - time;
    }

    ghost predicate Earliest(x: Node)
      reads heap`elems, heap.elems`timeout, x`timeout
    {
      forall y :: y in heap.elems ==> x.timeout <= y.timeout
    }

    // uv__next_timeout
    method NextTimeout() returns (r: int)
      requires Valid()
      ensures r == -1 <==> heap.elems == {}
      ensures heap.elems != {} ==> exists x ::
        x in heap.elems && Earliest(x)
        && r == (if x.timeout <= time then 0 else if x.timeout - time > INT_MAX then INT_MAX else x.timeout - time)
    {
      var h := heap.Min();
      if h == null { return -1; }
      assert Earliest(h);
      if h.timeout <= time { return 0; }
      var diff := h.timeout - time;
      if diff > INT_MAX { diff := INT_MAX; }
      r := diff;
    }

    // The first loop of uv__run_timers: the due timers leave the heap, in order.
    method CollectDue()
      requires Valid() && Live() && Roomy() && ready == []
      modifies heap, handles`left, handles`right, handles`parent, handles`idx, handles`active, this`ready, this`halted
      ensures Valid() && Live()
      ensures forall x :: x in ready <==> x in old(heap.elems) && x.timeout <= time
      ensures forall x :: x in heap.elems <==> x in old(heap.elems) && x.timeout > time
      ensures forall i, j :: 0 <= i < j < |ready| ==> LessThan(ready[i], ready[j])
    {
      while true
        invariant Valid() && Live() && Collected(ready, heap.elems, old(heap.elems), time)
        decreases heap.elems
      {
        var more := CollectNext(old(heap.elems));
        if !more { break; }
      }
    }

    // The same, as the line of the pass; the timers in it are inactive, and that is all.
    method Collect() returns (ghost due: seq<Node>)
      requires Valid() && Live() && Roomy() && ready == []
      modifies heap, handles`left, handles`right, handles`parent, handles`idx, handles`active, this`ready, this`halted
      ensures Valid() && Live() && ready == due && Distinct(due) && Now() == Idle(old(Now()), due)
      ensures forall x :: x in due <==> x in old(heap.elems) && old(x.timeout) <= time
      ensures forall i, j :: 0 <= i < j < |due| ==>
        due[i] in old(heap.elems) && due[j] in old(heap.elems) && old(LessThan(due[i], due[j]))
    {
      CollectDue();
      due := ready;
      AllIdle(due);
    }

    twostate lemma AllIdle(new due: seq<Node>)
      requires handles == old(handles) && time == old(time) && counter == old(counter)
      requires forall x :: x in handles ==> ConfOf(x) == old(ConfOf(x)).(active := x.active)
      requires forall x :: x in handles ==> (x.active <==> old(x.active) && x !in due)
      ensures Now() == Idle(old(Now()), due)
    {
    }

    // One turn of that loop, unless it ends here.
    method CollectNext(ghost start: set<Node>) returns (more: bool)
      requires Valid() && Live() && Roomy() && Collected(ready, heap.elems, start, time)
      modifies heap, handles`left, handles`right, handles`parent, handles`idx, handles`active, this`ready, this`halted
      ensures Valid() && Live() && Collected(ready, heap.elems, start, time)
      ensures if more then heap.elems < old(heap.elems) else forall x :: x in heap.elems ==> x.timeout > time
    {
      var h := heap.Min();
      if h == null || h.timeout > time { return false; }
      CollectOne(h, start);
      more := true;
    }

    lemma FirstOfAll(h: Node)
      requires Valid() && h in heap.elems && forall x :: x in heap.elems ==> !LessThan(x, h)
      ensures forall x :: x in heap.elems && x != h ==> LessThan(h, x)
    {
    }

    method CollectOne(h: Node, ghost start: set<Node>)
      requires Valid() && Live() && Roomy() && h in heap.elems && h.timeout <= time
        && Collected(ready, heap.elems, start, time)
      requires forall x :: x in heap.elems ==> !LessThan(x, h)
      modifies heap, handles`left, handles`right, handles`parent, handles`idx, h`active, this`ready, this`halted
      ensures Valid() && Live() && heap.elems == old(heap.elems) - {h} && Collected(ready, heap.elems, start, time)
    {
      FirstOfAll(h);
      CollectStep(ready, heap.elems, start, time, h);
      MoveToReady(h);
    }

    method MoveToReady(h: Node)
      requires Valid() && Live() && Roomy() && h in heap.elems
      modifies heap, handles`left, handles`right, handles`parent, handles`idx, h`active, this`ready, this`halted
      ensures Valid() && Live() && heap.elems == old(heap.elems) - {h} && ready == old(ready) + [h]
    {
      WithoutProps(ready, h);
      var _ := TimerStop(h);
      ready := ready + [h];
    }

    // What a call leaves, of the handles, the ready queue and the record of what was taken out.
    twostate predicate Did(c: Call)
      reads this, handles
    {
      && Now() == After(c, old(Now())) && halted == old(halted) + Halts(c, old(Now()))
      && ready == if Halts(c, old(Now())) == {} then old(ready) else Without(old(ready), c.h)
    }

    // Of the handles only h has been changed.
    twostate lemma OneChanged(h: Node)
      requires handles == old(handles) && h in handles
      requires forall x :: x in handles && x != h ==> ConfOf(x) == old(ConfOf(x))
      ensures Now() == View(time, counter, old(Now()).confs[h := ConfOf(h)])
    {
    }

    twostate lemma NoneChanged(h: Node)
      requires handles == old(handles) && h in handles && time == old(time) && counter == old(counter)
      requires ConfOf(h) == old(ConfOf(h))
      requires forall x :: x in handles && x != h ==> ConfOf(x) == old(ConfOf(x))
      ensures Now() == old(Now())
    {
    }

    method StartOn(h: Node, cb: nat, timeout: nat, repeat: nat)
      requires Valid() && Live() && Roomy() && h in handles
      modifies heap, handles, this`counter, this`ready, this`halted
      ensures Valid() && Live()
      ensures if old(h.closing) || cb == 0 then Now() == old(Now()) && ready == old(ready) && halted == old(halted)
        else && Now() == Armed(old(Now()), h, cb, timeout, repeat)
             && ready == Without(old(ready), h) && halted == old(halted) + {h}
    {
      var r := TimerStart(h, cb, timeout, repeat);
      if r == 0 {
        OneChanged(h);
      } else {
        NoneChanged(h);
      }
    }

    method CallStart(h: Node, cb: nat, timeout: nat, repeat: nat)
      requires Valid() && Live() && Roomy() && h in handles
      modifies heap, handles, this`counter, this`ready, this`halted
      ensures Valid() && Live() && Did(Start(h, cb, timeout, repeat))
    {
      StartOn(h, cb, timeout, repeat);
    }

    method CallStop(h: Node)
      requires Valid() && Live() && Roomy() && h in handles
      modifies heap, handles, this`counter, this`ready, this`halted
      ensures Valid() && Live() && Did(Stop(h))
    {
      var _ := TimerStop(h);
      OneChanged(h);
    }

    method AgainOn(h: Node)
      requires Valid() && Live() && Roomy() && h in handles
      modifies heap, handles, this`counter, this`ready, this`halted
      ensures Valid() && Live()
      ensures if old(h.cb == 0 || h.repeat == 0) then
          Now() == old(Now()) && ready == old(ready) && halted == old(halted)
        else
          && ready == Without(old(ready), h) && halted == old(halted) + {h}
          && Now() == if old(h.closing)
                      then old(Now()).(confs := old(Now()).confs[h := old(ConfOf(h)).(active := false)])
                      else Armed(old(Now()), h, old(h.cb), old(h.repeat), old(h.repeat))
    {
      ghost var none := h.cb == 0 || h.repeat == 0;
      var _ := TimerAgain(h);
      if none {
        NoneChanged(h);
      } else {
        OneChanged(h);
      }
    }

    method CallAgain(h: Node)
      requires Valid() && Live() && Roomy() && h in handles
      modifies heap, handles, this`counter, this`ready, this`halted
      ensures Valid() && Live() && Did(Again(h))
    {
      AgainOn(h);
    }

    method CallSetRepeat(h: Node, repeat: nat)
      requires Valid() && Live() && Roomy() && h in handles
      modifies heap, handles, this`counter, this`ready, this`halted
      ensures Valid() && Live() && Did(SetRepeat(h, repeat))
    {
      h.repeat := repeat;
      OneChanged(h);
    }

    method CloseOn(h: Node)
      requires Valid() && Live() && Roomy() && h in handles
      modifies heap, handles, this`counter, this`ready, this`halted
      ensures Valid() && Live() && ready == Without(old(ready), h) && halted == old(halted) + {h}
      ensures Now() == old(Now()).(confs := old(Now()).confs[h := old(ConfOf(h)).(closing := true, active := false)])
    {
      Close(h);
      OneChanged(h);
    }

    method CallClose(h: Node)
      requires Valid() && Live() && Roomy() && h in handles
      modifies heap, handles, this`counter, this`ready, this`halted
      ensures Valid() && Live() && Did(Call.Close(h))
    {
      CloseOn(h);
    }

    method Apply(c: Call)
      requires Valid() && Live() && Roomy() && CallOn(c, handles)
      modifies heap, handles, this`time, this`counter, this`ready, this`halted
      ensures Valid() && Live() && Did(c)
    {
      match c {
        case Start(h, cb, timeout, repeat) => { CallStart(h, cb, timeout, repeat); }
        case Stop(h) => { CallStop(h); }
        case Again(h) => { CallAgain(h); }
        case SetRepeat(h, repeat) => { CallSetRepeat(h, repeat); }
        case Close(h) => { CallClose(h); }
        case UpdateTime(t) => { time := t; }
      }
    }

    // A callback: any calls at all.
    method RunCallback(calls: seq<Call>)
      requires Valid() && Live() && Roomy()
      requires forall k :: 0 <= k < |calls| ==> CallOn(calls[k], handles)
      modifies heap, handles, this`time, this`counter, this`ready, this`halted
      ensures Valid() && Live() && ready == Minus(old(ready), halted)
      ensures Now() == AfterAll(calls, old(Now())) && halted == Halted(calls, old(Now()))
    {
      halted := {};
      MinusNone(ready);
      for k := 0 to |calls|
        invariant Valid() && Live() && ready == Minus(old(ready), halted)
        invariant Now() == AfterAll(calls[..k], old(Now())) && halted == Halted(calls[..k], old(Now()))
      {
        NextCall(calls, k, old(Now()));
        MinusHalts(old(ready), halted, calls[k], Now());
        Apply(calls[k]);
      }
      assert calls[..|calls|] == calls;
    }

    method TakeHead() returns (h: Node)
      requires Valid() && Live() && ready != []
      modifies this`ready
      ensures Valid() && Live() && h == old(ready)[0] && ready == old(ready)[1..] && h in handles
      ensures h !in ready && h !in heap.elems && h.cb != 0 && !h.closing && !h.active
    {
      h := ready[0];
      ready := ready[1..];
    }

    // The head of the ready queue, started again if it repeats.
    method NextReady() returns (h: Node)
      requires Valid() && Live() && Roomy() && ready != []
      modifies heap, handles, this`counter, this`ready, this`halted
      ensures Valid() && Live() && h == old(ready)[0] && ready == old(ready)[1..] && h in handles
      ensures Now() == After(Again(h), old(Now())) && h.cb == old(h.cb) != 0 && h.repeat == old(h.repeat) && !h.closing
      ensures h in heap.elems <==> h.repeat != 0
      ensures h.repeat != 0 ==> h.active && h.timeout == Clamp(time, h.repeat)
    {
      h := TakeHead();
      WithoutProps(ready, h);
      CallAgain(h);
    }

    // One turn of the second loop of uv__run_timers, with the calls its callback makes.
    method FireNext(calls: seq<Call>) returns (h: Node, ghost halts: set<Node>)
      requires Valid() && Live() && Roomy() && ready != []
      requires forall k :: 0 <= k < |calls| ==> CallOn(calls[k], handles)
      modifies heap, handles, this`time, this`counter, this`ready, this`halted
      ensures Valid() && Live() && h == old(ready)[0] && ready == Minus(old(ready)[1..], halts)
      ensures var v := After(Again(h), old(Now())); Now() == AfterAll(calls, v) && halts == Halted(calls, v)
    {
      h := NextReady();
      RunCallback(calls);
      halts := halted;
    }

    // The pass over due has fired fired, and the callbacks took out halts; v is what it
    // started with.
    ghost predicate InPass(scripts: seq<seq<Call>>, due: seq<Node>, fired: seq<Node>, halts: seq<set<Node>>, v: View)
      reads this`time, this`counter, this`ready, this`handles
      reads handles`cb, handles`repeat, handles`closing, handles`active, handles`timeout, handles`startId
    {
      && ready == Rest(due, halts) && fired == Fired(due, halts)
      && Now() == Turns(scripts, fired, v) && Scripted(scripts, fired, halts, v)
    }

    method FireOne(scripts: seq<seq<Call>>, fired: seq<Node>, ghost due: seq<Node>, ghost halts: seq<set<Node>>,
        ghost v: View)
      returns (h: Node, ghost s: set<Node>)
      requires Valid() && Live() && Roomy() && ready != [] && InPass(scripts, due, fired, halts, v)
      requires forall n, k :: 0 <= n < |scripts| && 0 <= k < |scripts[n]| ==> CallOn(scripts[n][k], handles)
      modifies heap, handles, this`time, this`counter, this`ready, this`halted
      ensures Valid() && Live() && InPass(scripts, due, fired + [h], halts + [s], v) && |ready| < |old(ready)|
    {
      ghost var line := ready;
      ScriptOn(scripts, |fired|, handles);
      h, s := FireNext(Script(scripts, |fired|));
      PassStep(due, halts, s);
      MinusShort(line[1..], s);
      ScriptedMore(scripts, fired, h, halts, s, v);
      NextAt(scripts, fired, h, v);
    }

    // The second loop of uv__run_timers.
    method FireReady(scripts: seq<seq<Call>>) returns (fired: seq<Node>, ghost halts: seq<set<Node>>)
      requires Valid() && Live() && Roomy()
      requires forall n, k :: 0 <= n < |scripts| && 0 <= k < |scripts[n]| ==> CallOn(scripts[n][k], handles)
      modifies heap, handles, this`time, this`counter, this`ready, this`halted
      ensures Valid() && Live() && ready == [] && InPass(scripts, old(ready), fired, halts, old(Now()))
    {
      fired, halts := [], [];
      ghost var due, v := ready, Now();
      while ready != []
        invariant Valid() && Live() && InPass(scripts, due, fired, halts, v)
        decreases |ready|
      {
        var h, s := FireOne(scripts, fired, due, halts, v);
        fired, halts := fired + [h], halts + [s];
      }
    }

    // uv__run_timers, where the k-th callback makes the calls of scripts[k]. due lists
    // the timers due at entry, halts[k] the handles the k-th callback took out.
    method RunTimers(scripts: seq<seq<Call>>)
        returns (ghost due: seq<Node>, fired: seq<Node>, ghost halts: seq<set<Node>>)
      requires Valid() && Live() && Roomy() && ready == []
      requires forall n, k :: 0 <= n < |scripts| && 0 <= k < |scripts[n]| ==> CallOn(scripts[n][k], handles)
      modifies heap, handles, this`time, this`counter, this`ready, this`halted
      ensures Valid() && Live() && ready == [] && Distinct(due)
      ensures forall x :: x in due <==> x in old(heap.elems) && old(x.timeout) <= old(time)
      ensures forall i, j :: 0 <= i < j < |due| ==>
        && due[i] in old(heap.elems) && due[j] in old(heap.elems)
        && old(due[i].timeout < due[j].timeout || (due[i].timeout == due[j].timeout && due[i].startId < due[j].startId))
      ensures fired == Fired(due, halts) && FiresExactly(due, halts, fired)
      ensures var v := Idle(old(Now()), due);
        Now() == Turns(scripts, fired, v) && Scripted(scripts, fired, halts, v)
          && Outcome(scripts, due, fired, v, Now())
    {
      due := Collect();
      fired, halts := FireAll(scripts);
    }

    // The second loop of uv__run_timers again, and what comes of it.
    method FireAll(scripts: seq<seq<Call>>) returns (fired: seq<Node>, ghost halts: seq<set<Node>>)
      requires Valid() && Live() && Roomy() && Distinct(ready)
      requires forall n, k :: 0 <= n < |scripts| && 0 <= k < |scripts[n]| ==> CallOn(scripts[n][k], handles)
      modifies heap, handles, this`time, this`counter, this`ready, this`halted
      ensures Valid() && Live() && ready == [] && Now() == Turns(scripts, fired, old(Now()))
      ensures fired == Fired(old(ready), halts) && FiresExactly(old(ready), halts, fired)
      ensures Scripted(scripts, fired, halts, old(Now())) && Outcome(scripts, old(ready), fired, old(Now()), Now())
    {
      ghost var due, v := ready, Now();
      InLine(due, v);
      fired, halts := FireReady(scripts);
      PassFires(due, halts);
      PassOutcome(scripts, due, fired, halts, v, Now());
    }

    lemma InLine(due: seq<Node>, v: View)
      requires Valid() && Live() && due == ready && v == Now()
      ensures Waiting(due, v)
    {
    }
  }

  // The timers of due are ready to fire, and not in the heap.
  ghost predicate Waiting(due: seq<Node>, v: View) { forall x :: x in due ==> CanFire(v, x) && !v.confs[x].active }

  // fired[i] is active if and only if it repeats, and then due one repeat after the
  // loop's time at its turn.
  ghost predicate Rearmed(scripts: seq<seq<Call>>, fired: seq<Node>, v: View, w: View, x: Node, i: nat)
    requires i < |fired| && x in v.confs
  {
    x in w.confs &&
    var f := w.confs[x];
    && f.repeat == v.confs[x].repeat && (f.active <==> f.repeat != 0)
    && (f.repeat != 0 ==> f.timeout == Clamp(Turns(scripts, fired[..i], v).time, f.repeat))
  }

  // A pass that started with v and ends with w: a due timer has fired unless it was taken
  // out before its turn; if it has fired and no call was for it, it has been armed again;
  // any other timer that no call was for is as it was.
  ghost predicate Outcome(scripts: seq<seq<Call>>, due: seq<Node>, fired: seq<Node>, v: View, w: View) {
    && (forall x :: x in due ==> (x in fired <==> !TakenEarly(scripts, fired, v, x)))
    && (forall x, i :: 0 <= i < |fired| && fired[i] == x && x in v.confs && Untouched(scripts, |fired|, x) ==>
      Rearmed(scripts, fired, v, w, x, i))
    && (forall x :: x in v.confs && x !in due && Untouched(scripts, |fired|, x) ==>
      x in w.confs && w.confs[x] == v.confs[x])
  }

  lemma ArmedAgain(scripts: seq<seq<Call>>, due: seq<Node>, fired: seq<Node>, v: View, x: Node, i: nat)
    requires Distinct(fired) && Waiting(due, v) && i < |fired| && fired[i] == x && x in due
    requires Untouched(scripts, |fired|, x)
    ensures x in v.confs && Rearmed(scripts, fired, v, Turns(scripts, fired, v), x, i)
  {
    FiredIsArmed(scripts, fired, v, i);
  }

  lemma PassOutcome(scripts: seq<seq<Call>>, due: seq<Node>, fired: seq<Node>, halts: seq<set<Node>>, v: View, w: View)
    requires Distinct(due) && Waiting(due, v) && FiresExactly(due, halts, fired)
    requires Rest(due, halts) == [] && fired == Fired(due, halts) && Scripted(scripts, fired, halts, v)
    requires w == Turns(scripts, fired, v)
    ensures Outcome(scripts, due, fired, v, w)
  {
    forall x | x in due ensures x in fired <==> !TakenEarly(scripts, fired, v, x) {
      WhoFires(due, scripts, halts, v, x);
    }
    forall x, i | 0 <= i < |fired| && fired[i] == x && x in v.confs && Untouched(scripts, |fired|, x)
      ensures Rearmed(scripts, fired, v, w, x, i)
    {
      ArmedAgain(scripts, due, fired, v, x, i);
    }
    forall x | x in v.confs && x !in due && Untouched(scripts, |fired|, x)
      ensures x in w.confs && w.confs[x] == v.confs[x]
    {
      TurnsKeep(scripts, fired, v, x);
    }
  }

  // One of the calls of the k-th callback takes x out.
  ghost predicate Struck(scripts: seq<seq<Call>>, fired: seq<Node>, k: nat, v: View, x: Node) {
    k < |fired| && exists j :: TakenAt(Script(scripts, k), j, At(scripts, fired, k, v), x)
  }

  // A callback that ran before x could fire stops, closes or restarts x.
  ghost predicate TakenEarly(scripts: seq<seq<Call>>, fired: seq<Node>, v: View, x: Node) {
    exists k :: 0 <= k < |fired| && x !in fired[..k + 1] && Struck(scripts, fired, k, v, x)
  }

  lemma AgainCanFire(h: Node, v: View, x: Node)
    requires CanFire(v, x)
    ensures CanFire(After(Again(h), v), x)
  {
  }

  // Before it is first taken out, x can fire, and it is taken out when it is struck.
  lemma {:induction false} StillCanFire(scripts: seq<seq<Call>>, fired: seq<Node>, halts: seq<set<Node>>, v: View,
      x: Node, k: nat)
    requires Scripted(scripts, fired, halts, v) && CanFire(v, x) && k <= |halts|
      && forall i :: 0 <= i < k ==> x !in halts[i]
    ensures CanFire(Turns(scripts, fired[..k], v), x)
    ensures k < |halts| ==> (x in halts[k] <==> Struck(scripts, fired, k, v, x))
  {
    if k > 0 {
      StillCanFire(scripts, fired, halts, v, x, k - 1);
      AgainCanFire(fired[k - 1], Turns(scripts, fired[..k - 1], v), x);
      TakenExactly(Script(scripts, k - 1), At(scripts, fired, k - 1, v), x);
      assert fired[..k][..k - 1] == fired[..k - 1];
    }
    if k < |halts| {
      AgainCanFire(fired[k], Turns(scripts, fired[..k], v), x);
      TakenExactly(Script(scripts, k), At(scripts, fired, k, v), x);
    }
  }

  // The first callback that strikes x takes it out.
  lemma {:induction false} FirstStrike(scripts: seq<seq<Call>>, fired: seq<Node>, halts: seq<set<Node>>, v: View,
      x: Node, k: nat)
      returns (i: nat)
    requires Scripted(scripts, fired, halts, v) && CanFire(v, x) && k < |halts| && Struck(scripts, fired, k, v, x)
    ensures i <= k && x in halts[i]
  {
    if n: nat :| n <= k && x in halts[n] { return n; }
    StillCanFire(scripts, fired, halts, v, x, k);
    i := k;
  }

  lemma DroppedIsTaken(due: seq<Node>, scripts: seq<seq<Call>>, halts: seq<set<Node>>, v: View, x: Node)
    requires CanFire(v, x) && Scripted(scripts, Fired(due, halts), halts, v) && Dropped(due, halts, x)
    ensures TakenEarly(scripts, Fired(due, halts), v, x)
  {
    var k := DroppedAt(due, halts, x);
    var i := FirstHalt(halts, x, k);
    StillCanFire(scripts, Fired(due, halts), halts, v, x, i);
    NotIn(Fired(due, halts), i, k, x);
  }

  lemma TakenIsDropped(due: seq<Node>, scripts: seq<seq<Call>>, halts: seq<set<Node>>, v: View, x: Node)
    requires CanFire(v, x) && Scripted(scripts, Fired(due, halts), halts, v)
    requires TakenEarly(scripts, Fired(due, halts), v, x)
    ensures Dropped(due, halts, x)
  {
    var fired := Fired(due, halts);
    var k :| 0 <= k < |fired| && x !in fired[..k + 1] && Struck(scripts, fired, k, v, x);
    var i := FirstStrike(scripts, fired, halts, v, x, k);
    NotIn(fired, i, k, x);
    DroppedFrom(due, halts, x, i);
  }

  lemma NotIn(q: seq<Node>, i: nat, k: nat, x: Node)
    requires i <= k < |q| && x !in q[..k + 1]
    ensures x !in q[..i + 1]
  {
    assert q[..i + 1] == q[..k + 1][..i + 1];
  }

  // A due timer fires unless it was taken out by a callback that ran before its turn.
  lemma WhoFires(due: seq<Node>, scripts: seq<seq<Call>>, halts: seq<set<Node>>, v: View, x: Node)
    requires Distinct(due) && x in due && CanFire(v, x) && Scripted(scripts, Fired(due, halts), halts, v)
    requires Rest(due, halts) == []
    ensures x in Fired(due, halts) <==> !TakenEarly(scripts, Fired(due, halts), v, x)
  {
    FiredUnlessDropped(due, halts, x);
    if Dropped(due, halts, x) {
      DroppedIsTaken(due, scripts, halts, v, x);
    } else if TakenEarly(scripts, Fired(due, halts), v, x) {
      TakenIsDropped(due, scripts, halts, v, x);
    }
  }

  lemma {:induction false} FirstHalt(halts: seq<set<Node>>, x: Node, k: nat) returns (i: nat)
    requires k < |halts| && x in halts[k]
    ensures i <= k && x in halts[i] && forall j :: 0 <= j < i ==> x !in halts[j]
  {
    if n: nat :| n < k && x in halts[n] { i := FirstHalt(halts, x, n); } else { i := k; }
  }

  lemma Sizes(a: set<Node>, b: set<Node>)
    requires a <= b
    ensures |a| <= |b|
  {
    assert b == a + (b - a);
  }
}
