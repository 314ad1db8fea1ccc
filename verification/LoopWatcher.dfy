// Prepare, check and idle watchers, unix/loop-watcher.c: one pass moves the list aside
// and puts each watcher back before it calls it.
module LoopWatcher {
  import opened Queue
  import opened Passes

  const UV_EINVAL := -22

  // What a callback may do; uv_close of a watcher stops it.
  datatype Call = Start(w: Link, cb: nat) | Stop(w: Link)

  predicate CallOn(c: Call, watchers: set<Link>) { c.w in watchers }

  // The watchers some of the calls stop.
  function Stopped(calls: seq<Call>): set<Link> {
    if calls == [] then {} else
      var last := calls[|calls| - 1];
      Stopped(calls[..|calls| - 1]) + if last.Stop? then {last.w} else {}
  }

  function Script(scripts: seq<seq<Call>>, k: nat): seq<Call> { if k < |scripts| then scripts[k] else [] }

  // The loop's list, the list set aside, and the callback of each watcher.
  datatype Lines = Lines(list: seq<Link>, todo: seq<Link>, cbs: map<Link, nat>)

  function AfterCall(c: Call, v: Lines): Lines {
    match c
    case Start(w, cb) =>
      if cb == 0 || w in v.list || w in v.todo then v else Lines([w] + v.list, v.todo, v.cbs[w := cb])
    case Stop(w) => Lines(Without(v.list, w), Without(v.todo, w), v.cbs)
  }

  function AfterAll(calls: seq<Call>, v: Lines): Lines {
    if calls == [] then v else AfterCall(calls[|calls| - 1], AfterAll(calls[..|calls| - 1], v))
  }

  // A turn puts the first watcher that was set aside back, and makes the calls.
  function Turn(calls: seq<Call>, v: Lines): Lines {
    if v.todo == [] then v else AfterAll(calls, Lines(v.list + [v.todo[0]], v.todo[1..], v.cbs))
  }

  function AfterTurns(scripts: seq<seq<Call>>, n: nat, v: Lines): Lines {
    if n == 0 then v else Turn(Script(scripts, n - 1), AfterTurns(scripts, n - 1, v))
  }

  lemma NextCall(calls: seq<Call>, n: nat, v: Lines)
    requires n < |calls|
    ensures AfterAll(calls[..n + 1], v) == AfterCall(calls[n], AfterAll(calls[..n], v))
  {
    assert calls[..n + 1][..n] == calls[..n];
  }

  // The calls of the first n turns, in order.
  function Made(scripts: seq<seq<Call>>, n: nat): seq<Call> {
    if n == 0 then [] else Made(scripts, n - 1) + Script(scripts, n - 1)
  }

  // Whether x is active after the calls, given whether it was: the last of them that
  // stops it, or starts it with a callback, decides.
  predicate OnAfter(calls: seq<Call>, x: Link, on: bool) {
    if calls == [] then on else
      var c := calls[|calls| - 1];
      if c.w == x && c.Stop? then false
      else if c.w == x && c.cb != 0 then true
      else OnAfter(calls[..|calls| - 1], x, on)
  }

  predicate On(v: Lines, x: Link) { x in v.list || x in v.todo }

  lemma OnCall(c: Call, v: Lines, x: Link)
    ensures On(AfterCall(c, v), x)
      <==> if c.w == x && c.Stop? then false else if c.w == x && c.cb != 0 then true else On(v, x)
  {
    if c.Stop? {
      WithoutProps(v.list, c.w);
      WithoutProps(v.todo, c.w);
    }
  }

  lemma {:induction false} OnCalls(calls: seq<Call>, v: Lines, x: Link)
    ensures On(AfterAll(calls, v), x) <==> OnAfter(calls, x, On(v, x))
  {
    if calls != [] {
      var before := calls[..|calls| - 1];
      OnCalls(before, v, x);
      OnCall(calls[|calls| - 1], AfterAll(before, v), x);
    }
  }

  lemma {:induction false} OnJoin(a: seq<Call>, b: seq<Call>, x: Link, on: bool)
    ensures OnAfter(a + b, x, on) <==> OnAfter(b, x, OnAfter(a, x, on))
  {
    if b == [] {
      assert a + b == a;
    } else {
      var n := |b| - 1;
      assert (a + b)[..|a| + n] == a + b[..n];
      OnJoin(a, b[..n], x, on);
    }
  }

  lemma OnTurn(calls: seq<Call>, u: Lines, x: Link)
    requires u.todo != []
    ensures On(Turn(calls, u), x) <==> OnAfter(calls, x, On(u, x))
  {
    assert u.todo == [u.todo[0]] + u.todo[1..];
    OnCalls(calls, Lines(u.list + [u.todo[0]], u.todo[1..], u.cbs), x);
  }

  // A watcher is in one of the lists after n turns if and only if the calls leave it so.
  lemma {:induction false} OnTurns(scripts: seq<seq<Call>>, n: nat, v: Lines, x: Link)
    requires AllBusy(scripts, n, v)
    ensures On(AfterTurns(scripts, n, v), x) <==> OnAfter(Made(scripts, n), x, On(v, x))
  {
    if n > 0 {
      var u := AfterTurns(scripts, n - 1, v);
      OnTurns(scripts, n - 1, v, x);
      OnTurn(Script(scripts, n - 1), u, x);
      OnJoin(Made(scripts, n - 1), Script(scripts, n - 1), x, On(v, x));
    }
  }

  // Without calls the watchers only go back, in order.
  lemma {:induction false} QuietTurns(scripts: seq<seq<Call>>, n: nat, v: Lines)
    requires n <= |v.todo| && forall k :: 0 <= k < n ==> Script(scripts, k) == []
    ensures AfterTurns(scripts, n, v) == Lines(v.list + v.todo[..n], v.todo[n..], v.cbs)
  {
    if n == 0 {
      assert v.list + [] == v.list;
    } else {
      QuietTurns(scripts, n - 1, v);
      assert v.list + v.todo[..n - 1] + [v.todo[n - 1]] == v.list + v.todo[..n];
    }
  }

  // The k-th callback stopped halts[k].
  ghost predicate Scripted(scripts: seq<seq<Call>>, halts: seq<set<Link>>) {
    forall k {:trigger halts[k]} :: 0 <= k < |halts| ==> halts[k] == Stopped(Script(scripts, k))
  }

  lemma ScriptOn(scripts: seq<seq<Call>>, k: nat, watchers: set<Link>)
    requires forall n, j :: 0 <= n < |scripts| && 0 <= j < |scripts[n]| ==> CallOn(scripts[n][j], watchers)
    ensures forall j :: 0 <= j < |Script(scripts, k)| ==> CallOn(Script(scripts, k)[j], watchers)
  {
  }

  lemma ScriptedStep(scripts: seq<seq<Call>>, halts: seq<set<Link>>, s: set<Link>)
    requires Scripted(scripts, halts) && s == Stopped(Script(scripts, |halts|))
    ensures Scripted(scripts, halts + [s])
  {
  }

  // Each of the first n turns has a watcher to call.
  ghost predicate AllBusy(scripts: seq<seq<Call>>, n: nat, v: Lines) {
    n == 0 || (AllBusy(scripts, n - 1, v) && AfterTurns(scripts, n - 1, v).todo != [])
  }

  lemma NextTurn(scripts: seq<seq<Call>>, n: nat, was: Lines)
    ensures AfterTurns(scripts, n + 1, was) == Turn(Script(scripts, n), AfterTurns(scripts, n, was))
  {
  }

  lemma NextBusy(scripts: seq<seq<Call>>, n: nat, was: Lines)
    requires AllBusy(scripts, n, was) && AfterTurns(scripts, n, was).todo != []
    ensures AllBusy(scripts, n + 1, was)
  {
  }

  lemma {:induction false} BusyAt(scripts: seq<seq<Call>>, n: nat, v: Lines, k: nat)
    requires AllBusy(scripts, n, v) && k < n
    ensures AfterTurns(scripts, k, v).todo != []
  {
    if k < n - 1 { BusyAt(scripts, n - 1, v, k); }
  }

  lemma QuietPass(scripts: seq<seq<Call>>, n: nat, v: Lines)
    requires forall k :: 0 <= k < n ==> Script(scripts, k) == []
    requires AllBusy(scripts, n, v) && AfterTurns(scripts, n, v).todo == []
    ensures AfterTurns(scripts, n, v).list == v.list + v.todo
  {
    var m := |v.todo|;
    QuietTurns(scripts, if n < m then n else m, v);
    if n > m { BusyAt(scripts, n, v, m); }
    assert v.todo[..m] == v.todo;
  }

  // What a pass leaves in the list.
  lemma PassLeaves(scripts: seq<seq<Call>>, n: nat, v: Lines, u: Lines)
    requires AllBusy(scripts, n, v) && u == AfterTurns(scripts, n, v) && u.todo == [] && v.list == []
    ensures forall x :: x in u.list <==> OnAfter(Made(scripts, n), x, x in v.todo)
    ensures (forall k :: 0 <= k < n ==> Script(scripts, k) == []) ==> u.list == v.todo
  {
    forall x ensures x in u.list <==> OnAfter(Made(scripts, n), x, x in v.todo) { OnTurns(scripts, n, v, x); }
    if forall k :: 0 <= k < n ==> Script(scripts, k) == [] {
      QuietPass(scripts, n, v);
      assert [] + v.todo == v.todo;
    }
  }

  class Loop {
    // The head of name##_handles and of the list a pass works on, and what they hold.
    const handles: Link
    const queue: Link
    ghost var list: seq<Link>
    ghost var todo: seq<Link>
    ghost var watchers: set<Link>

    ghost function Listed(): seq<Link>
      reads this
    {
      [handles] + list
    }

    ghost function Aside(): seq<Link>
      reads this
    {
      [queue] + todo
    }

    // Both lists are well formed and hold each active watcher once.
    ghost predicate Flags()
      reads this, watchers`active
    {
      && handles != queue && handles !in watchers && queue !in watchers && (forall x :: x in list ==> x !in todo)
      && (forall x :: x in list ==> x in watchers) && (forall x :: x in todo ==> x in watchers)
      && (forall x :: x in watchers ==> (x.active <==> x in list || x in todo))
    }

    ghost function Callbacks(): map<Link, nat>
      reads this`watchers, watchers`cb
    {
      map x | x in watchers :: x.cb
    }

    ghost function Now(): Lines
      reads this`list, this`todo, this`watchers, watchers`cb
    {
      Lines(list, todo, Callbacks())
    }

    ghost predicate Valid()
      reads this, watchers`active, Listed()`next, Listed()`prev, Aside()`next, Aside()`prev
    {
      Ring(Listed()) && Ring(Aside()) && Flags()
    }

    constructor ()
      ensures Valid() && list == [] && todo == [] && watchers == {} && fresh(handles) && fresh(queue)
    {
      handles := new Link();
      queue := new Link();
      list, todo, watchers := [], [], {};
    }

    // uv_name_init
    method Init() returns (w: Link)
      requires Valid()
      modifies this`watchers
      ensures Valid() && fresh(w) && watchers == old(watchers) + {w} && !w.active && w.cb == 0
    {
      w := new Link();
      watchers := watchers + {w};
    }

    // Membership of the rings, which are apart.
    lemma Members(w: Link)
      requires Flags() && w in watchers
      ensures w in Listed() <==> w in list
      ensures w in Aside() <==> w in todo
      ensures forall x :: x in Aside() ==> x !in Listed()
      ensures forall x :: x in Listed() ==> x !in Aside()
    {
    }

    method PutFirst(w: Link)
      requires Ring(Listed()) && Ring(Aside()) && w !in Listed() && w !in Aside()
        && forall x :: x in Aside() ==> x !in Listed()
      modifies w`next, w`prev, Listed()`next, Listed()`prev, this`list
      ensures Ring(Listed()) && Ring(Aside()) && list == [w] + old(list)
    {
      ghost var aside := Aside();
      assert forall i :: 0 <= i < |aside| ==> aside[i] != w && aside[i] !in Listed();
      InsertHead(handles, w, Listed());
      assert Ring(aside);
      assert [handles, w] + Listed()[1..] == [handles] + ([w] + list);
      list := [w] + list;
    }

    // uv_name_start
    method WatcherStart(w: Link, cb: nat) returns (r: int)
      requires Valid() && w in watchers
      modifies w`next, w`prev, w`cb, w`active, Listed()`next, Listed()`prev, this`list
      ensures Valid()
      ensures old(w.active) ==> r == 0 && list == old(list) && w.cb == old(w.cb)
      ensures !old(w.active) && cb == 0 ==> r == UV_EINVAL && list == old(list) && w.cb == old(w.cb)
      ensures !old(w.active) && cb != 0 ==> r == 0 && list == [w] + old(list) && w.cb == cb
    {
      if w.active { return 0; }
      if cb == 0 { return UV_EINVAL; }
      Members(w);
      PutFirst(w);
      w.cb := cb;
      w.active := true;
      r := 0;
    }

    // The ring w is in, and where; without w it is the ring of that list without w.
    lemma Locate(w: Link) returns (listed: bool, c: seq<Link>, i: nat)
      requires Valid() && w in watchers && w.active
      ensures Ring(c) && 0 < i < |c| && c[i] == w
      ensures listed ==>
        c == Listed() && c[..i] + c[i + 1..] == [handles] + Without(list, w) && Without(todo, w) == todo
      ensures !listed ==> c == Aside() && c[..i] + c[i + 1..] == [queue] + Without(todo, w) && Without(list, w) == list
      ensures forall j :: 0 <= j < |Listed()| ==> Listed()[j] !in Aside()
      ensures forall j :: 0 <= j < |Aside()| ==> Aside()[j] !in Listed()
    {
      Members(w);
      WithoutProps(list, w);
      WithoutProps(todo, w);
      listed := w in list;
      if listed {
        c, i := Listed(), Find(list, w) + 1;
        UnlinkShape(handles, list, i - 1);
      } else {
        c, i := Aside(), Find(todo, w) + 1;
        UnlinkShape(queue, todo, i - 1);
      }
    }

    // Takes w out of the ring c; another ring, apart from it, stays one.
    method TakeOut(w: Link, ghost c: seq<Link>, ghost i: nat, ghost other: seq<Link>)
      requires Ring(c) && 0 < i < |c| && c[i] == w
      requires Ring(other) && forall j :: 0 <= j < |other| ==> other[j] !in c
      modifies c`next, c`prev
      ensures Ring(c[..i] + c[i + 1..]) && Ring(other)
    {
      Queue.Remove(w, c, i);
    }

    // Takes w out of the list it is in.
    method Unlink(w: Link)
      requires Valid() && w in watchers && w.active
      modifies Listed()`next, Listed()`prev, Aside()`next, Aside()`prev, this`list, this`todo
      ensures Ring(Listed()) && Ring(Aside())
      ensures list == Without(old(list), w) && todo == Without(old(todo), w)
    {
      ghost var listed, c, i := Locate(w);
      ghost var other := if listed then Aside() else Listed();
      ghost var l, t := Without(list, w), Without(todo, w);
      TakeOut(w, c, i, other);
      assert Ring([handles] + l) && Ring([queue] + t);
      list, todo := l, t;
    }

    // uv_name_stop
    method WatcherStop(w: Link) returns (r: int)
      requires Valid() && w in watchers
      modifies Listed()`next, Listed()`prev, Aside()`next, Aside()`prev, this`list, this`todo, w`active
      ensures Valid() && r == 0 && !w.active
      ensures list == Without(old(list), w) && todo == Without(old(todo), w)
    {
      WithoutProps(list, w);
      WithoutProps(todo, w);
      if !w.active { return 0; }
      Unlink(w);
      w.active := false;
      r := 0;
    }

    // The first watcher set aside goes to the end of the list again.
    method PutBack() returns (w: Link)
      requires Valid() && todo != []
      modifies Listed()`next, Listed()`prev, Aside()`next, Aside()`prev, this`list, this`todo
      ensures Valid() && w == old(todo)[0] && todo == old(todo)[1..] && list == old(list) + [w]
      ensures Now() == Lines(old(list) + [old(todo)[0]], old(todo)[1..], old(Callbacks()))
    {
      w := Head(queue, Aside());
      Take(w);
      PutLast(w);
    }

    method PutLast(w: Link)
      requires Ring(Listed()) && Ring(Aside()) && w !in Listed() && w !in Aside()
        && forall j :: 0 <= j < |Aside()| ==> Aside()[j] !in Listed()
      modifies w`next, w`prev, Listed()`next, Listed()`prev, this`list
      ensures Ring(Listed()) && Ring(Aside()) && list == old(list) + [w]
    {
      InsertTail(handles, w, Listed());
      assert Listed() + [w] == [handles] + (list + [w]);
      list := list + [w];
    }

    lemma FirstAside()
      requires Valid() && todo != []
      ensures var w := todo[0];
        && w in watchers && w !in Listed() && w !in todo[1..] && w != queue
          && Aside()[..1] + Aside()[2..] == [queue] + todo[1..]
        && (forall j :: 0 <= j < |Listed()| ==> Listed()[j] !in Aside())
        && (forall j :: 0 <= j < |Aside()| ==> Aside()[j] !in Listed())
    {
      Members(todo[0]);
      assert Aside()[1] == todo[0] && forall j :: 0 <= j < |todo| - 1 ==> todo[1..][j] == Aside()[j + 2];
    }

    // Takes the first watcher set aside out.
    method Take(w: Link)
      requires Valid() && todo != [] && w == todo[0]
      modifies Aside()`next, Aside()`prev, this`todo
      ensures Ring(Listed()) && Ring(Aside()) && todo == old(todo)[1..]
      ensures w in watchers && w !in Listed() && w !in Aside()
      ensures forall j :: 0 <= j < |Aside()| ==> Aside()[j] !in Listed()
      ensures forall x :: x in old(todo) <==> x == w || x in todo
    {
      FirstAside();
      Queue.Remove(w, Aside(), 1);
      assert todo == [w] + todo[1..];
      todo := todo[1..];
    }

    method Apply(c: Call)
      requires Valid() && CallOn(c, watchers)
      modifies watchers, handles, queue, this`list, this`todo
      ensures Valid() && Now() == AfterCall(c, old(Now()))
      ensures todo == if c.Stop? then Without(old(todo), c.w) else old(todo)
    {
      match c {
        case Start(w, cb) => { ApplyStart(w, cb); }
        case Stop(w) => { var _ := WatcherStop(w); }
      }
    }

    method ApplyStart(w: Link, cb: nat)
      requires Valid() && w in watchers
      modifies watchers, handles, queue, this`list, this`todo
      ensures Valid() && Now() == AfterCall(Start(w, cb), old(Now())) && todo == old(todo)
    {
      var _ := WatcherStart(w, cb);
    }

    // A callback: any calls at all.
    method RunCallback(calls: seq<Call>)
      requires Valid() && forall k :: 0 <= k < |calls| ==> CallOn(calls[k], watchers)
      modifies watchers, handles, queue, this`list, this`todo
      ensures Valid() && todo == Minus(old(todo), Stopped(calls)) && Now() == AfterAll(calls, old(Now()))
    {
      MinusNone(todo);
      for k := 0 to |calls|
        invariant Valid() && todo == Minus(old(todo), Stopped(calls[..k])) && Now() == AfterAll(calls[..k], old(Now()))
      {
        NextCall(calls, k, old(Now()));
        Apply(calls[k]);
        StoppedMore(calls, k);
        if !calls[k].Stop? { assert Stopped(calls[..k + 1]) == Stopped(calls[..k]); }
        if calls[k].Stop? { MinusWithout(old(todo), Stopped(calls[..k]), calls[k].w); }
      }
      assert calls[..|calls|] == calls;
    }

    // uv__queue_move at the start of a pass.
    method SetAside()
      requires Valid() && todo == []
      modifies handles`next, handles`prev, Listed()`next, Listed()`prev, Aside()`next, Aside()`prev, this`list,
        this`todo
      ensures Valid() && list == [] && todo == old(list) && Callbacks() == old(Callbacks())
    {
      assert queue !in Listed() && Aside()[0] == queue && Listed()[0] == handles;
      Move(handles, queue, Listed());
      assert [queue] + Listed()[1..] == [queue] + list;
      list, todo := [], list;
      assert Listed() == [handles];
    }

    // One turn of a pass, with the calls its callback makes.
    method CallNext(calls: seq<Call>) returns (h: Link)
      requires Valid() && todo != [] && forall k :: 0 <= k < |calls| ==> CallOn(calls[k], watchers)
      modifies watchers, handles, queue, this`list, this`todo
      ensures Valid() && h == old(todo)[0] && todo == Minus(old(todo)[1..], Stopped(calls))
      ensures Now() == Turn(calls, old(Now()))
    {
      h := PutBack();
      RunCallback(calls);
    }

    // The pass over start has come to where the callbacks stopped halts; was is what the
    // lists were at its start.
    ghost predicate InPass(scripts: seq<seq<Call>>, start: seq<Link>, halts: seq<set<Link>>, was: Lines)
      reads this`list, this`todo, this`watchers, watchers`cb
    {
      && todo == Rest(start, halts) && Scripted(scripts, halts)
      && Now() == AfterTurns(scripts, |halts|, was) && AllBusy(scripts, |halts|, was)
    }

    method CallOne(scripts: seq<seq<Call>>, k: nat, ghost start: seq<Link>, ghost halts: seq<set<Link>>,
        ghost was: Lines)
      returns (h: Link, ghost s: set<Link>)
      requires Valid() && todo != [] && k == |halts| && InPass(scripts, start, halts, was)
      requires forall n, k :: 0 <= n < |scripts| && 0 <= k < |scripts[n]| ==> CallOn(scripts[n][k], watchers)
      modifies watchers, handles, queue, this`list, this`todo
      ensures Valid() && InPass(scripts, start, halts + [s], was) && |todo| < |old(todo)|
      ensures Fired(start, halts + [s]) == Fired(start, halts) + [h]
    {
      ghost var line := todo;
      ScriptOn(scripts, k, watchers);
      s := Stopped(Script(scripts, k));
      h := CallNext(Script(scripts, k));
      PassStep(start, halts, s);
      MinusShort(line[1..], s);
      ScriptedStep(scripts, halts, s);
      NextTurn(scripts, k, was);
      NextBusy(scripts, k, was);
      assert |halts + [s]| == k + 1;
    }

    // The loop of a pass, over the watchers set aside.
    method RunAside(scripts: seq<seq<Call>>) returns (fired: seq<Link>, ghost halts: seq<set<Link>>)
      requires Valid()
      requires forall n, k :: 0 <= n < |scripts| && 0 <= k < |scripts[n]| ==> CallOn(scripts[n][k], watchers)
      modifies watchers, handles, queue, this`list, this`todo
      ensures Valid() && todo == [] && |halts| == |fired| && Scripted(scripts, halts)
      ensures fired == Fired(old(todo), halts) && Rest(old(todo), halts) == []
      ensures Now() == AfterTurns(scripts, |fired|, old(Now())) && AllBusy(scripts, |fired|, old(Now()))
    {
      ghost var start, was := todo, Now();
      fired, halts := [], [];
      while !Empty(queue, Aside())
        invariant Valid() && |halts| == |fired|
        invariant InPass(scripts, start, halts, was) && fired == Fired(start, halts)
        decreases |todo|
      {
        var h, s := CallOne(scripts, |fired|, start, halts, was);
        fired, halts := fired + [h], halts + [s];
      }
    }

    // uv__run_name, where the k-th callback makes the calls of scripts[k] and so stops
    // halts[k].
    method Run(scripts: seq<seq<Call>>) returns (fired: seq<Link>, ghost halts: seq<set<Link>>)
      requires Valid() && todo == []
      requires forall n, k :: 0 <= n < |scripts| && 0 <= k < |scripts[n]| ==> CallOn(scripts[n][k], watchers)
      modifies watchers, handles, queue, this`list, this`todo
      ensures Valid() && todo == [] && |halts| == |fired| && Scripted(scripts, halts)
      ensures fired == Fired(old(list), halts) && FiresExactly(old(list), halts, fired)
      ensures Now() == AfterTurns(scripts, |fired|, Lines([], old(list), old(Callbacks())))
      ensures forall x :: x in list <==> OnAfter(Made(scripts, |fired|), x, x in old(list))
      ensures (forall k :: 0 <= k < |fired| ==> Script(scripts, k) == []) ==> list == old(list)
    {
      TailDistinct(handles, list);
      SetAside();
      ghost var v := Now();
      fired, halts := RunAside(scripts);
      PassFires(old(list), halts);
      PassLeaves(scripts, |fired|, v, Now());
    }
  }

  lemma StoppedMore(calls: seq<Call>, k: nat)
    requires k < |calls|
    ensures Stopped(calls[..k + 1]) == Stopped(calls[..k]) + if calls[k].Stop? then {calls[k].w} else {}
  {
    assert calls[..k + 1][..k] == calls[..k];
  }

  ghost function Find(q: seq<Link>, w: Link): (i: nat)
    requires w in q
    ensures i < |q| && q[i] == w
  {
    if q[0] == w then 0 else 1 + Find(q[1..], w)
  }

  lemma TailDistinct(h: Link, q: seq<Link>)
    requires Distinct([h] + q)
    ensures Distinct(q)
  {
    var c := [h] + q;
    forall i, j | 0 <= i < j < |q| ensures q[i] != q[j] { assert c[i + 1] == q[i] && c[j + 1] == q[j]; }
  }

  lemma UnlinkShape(h: Link, q: seq<Link>, i: nat)
    requires i < |q| && Distinct([h] + q)
    ensures ([h] + q)[..i + 1] + ([h] + q)[i + 2..] == [h] + Without(q, q[i])
  {
    TailDistinct(h, q);
    WithoutAt(q, i);
    CutShape(h, q, i, Without(q, q[i]));
  }

  lemma CutShape(h: Link, q: seq<Link>, i: nat, w: seq<Link>)
    requires i < |q| && w == q[..i] + q[i + 1..]
    ensures ([h] + q)[..i + 1] + ([h] + q)[i + 2..] == [h] + w
  {
    assert ([h] + q)[..i + 1] == [h] + q[..i] && ([h] + q)[i + 2..] == q[i + 1..];
  }
}
