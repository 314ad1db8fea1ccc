// A pass over a line of handles whose callbacks may take handles out of the line: the
// second loop of uv__run_timers, and uv__run_prepare, uv__run_check and uv__run_idle.
module Passes {

  // q without x: uv__queue_remove when x is in q at most once.
  function Without<T(==)>(q: seq<T>, h: T): seq<T> {
    if q == [] then [] else if q[0] == h then Without(q[1..], h) else [q[0]] + Without(q[1..], h)
  }

  ghost predicate Distinct<T>(q: seq<T>) { forall i, j :: 0 <= i < j < |q| ==> q[i] != q[j] }

  // q without the members of s.
  function Minus<T(==)>(q: seq<T>, s: set<T>): seq<T> {
    if q == [] then [] else if q[0] in s then Minus(q[1..], s) else [q[0]] + Minus(q[1..], s)
  }

  lemma {:induction false} MinusWithout<T>(q: seq<T>, s: set<T>, h: T)
    ensures Without(Minus(q, s), h) == Minus(q, s + {h})
  {
    if q != [] { MinusWithout(q[1..], s, h); }
  }

  lemma {:induction false} MinusNone<T>(q: seq<T>)
    ensures Minus(q, {}) == q
  {
    if q != [] { MinusNone(q[1..]); }
  }

  lemma {:induction false} MinusHas<T>(q: seq<T>, s: set<T>, x: T)
    ensures x in Minus(q, s) <==> x in q && x !in s
  {
    if q != [] { MinusHas(q[1..], s, x); }
  }

  // The index of the first x in q.
  function Pos<T(==)>(q: seq<T>, x: T): nat {
    if q == [] || q[0] == x then 0 else 1 + Pos(q[1..], x)
  }

  lemma {:induction false} PosOf<T>(q: seq<T>, i: nat)
    requires i < |q| && Distinct(q)
    ensures Pos(q, q[i]) == i
  {
    if i > 0 { PosOf(q[1..], i - 1); }
  }

  ghost predicate InOrder<T>(q: seq<T>, f: seq<T>) {
    forall i, j :: 0 <= i < j < |f| ==> Pos(q, f[i]) < Pos(q, f[j])
  }

  lemma SkipInOrder<T>(q: seq<T>, f: seq<T>, r: seq<T>)
    requires r != [] && InOrder(q, f + r)
    ensures InOrder(q, f + r[1..])
  {
    var a, b := f + r[1..], f + r;
    forall i, j | 0 <= i < j < |a| ensures Pos(q, a[i]) < Pos(q, a[j]) {
      assert a[i] == b[if i < |f| then i else i + 1] && a[j] == b[if j < |f| then j else j + 1];
    }
  }

  lemma OneOver<T>(f: seq<T>, r: seq<T>, rest: seq<T>)
    requires r != [] && r == [r[0]] + rest
    ensures f + r == f + [r[0]] + rest
  {
  }

  lemma {:induction false} MinusInOrder<T>(q: seq<T>, f: seq<T>, r: seq<T>, s: set<T>)
    requires InOrder(q, f + r)
    ensures InOrder(q, f + Minus(r, s))
    decreases |r|
  {
    if r != [] {
      if r[0] in s {
        SkipInOrder(q, f, r);
        MinusInOrder(q, f, r[1..], s);
      } else {
        OneOver(f, r, r[1..]);
        OneOver(f, Minus(r, s), Minus(r[1..], s));
        MinusInOrder(q, f + [r[0]], r[1..], s);
      }
    } else {
      assert Minus(r, s) == r;
    }
  }

  // A pass over the due timers: each callback fires the first in line, and takes the
  // handles it stops, restarts or closes out of the line. Rest is the line after the
  // callbacks that took halts, Fired what they fired.
  function Rest<T(==)>(due: seq<T>, halts: seq<set<T>>): seq<T> {
    if halts == [] then due else
      var r := Rest(due, halts[..|halts| - 1]);
      if r == [] then [] else Minus(r[1..], halts[|halts| - 1])
  }

  function Fired<T(==)>(due: seq<T>, halts: seq<set<T>>): seq<T> {
    if halts == [] then [] else
      var before := halts[..|halts| - 1];
      if Rest(due, before) == [] then Fired(due, before) else Fired(due, before) + [Rest(due, before)[0]]
  }

  // Some callback took x out of the line before x could fire.
  ghost predicate Dropped<T>(due: seq<T>, halts: seq<set<T>>, x: T) {
    halts != [] && (Dropped(due, halts[..|halts| - 1], x) || (x in halts[|halts| - 1] && x !in Fired(due, halts)))
  }

  // What has fired and what is still in line, in the order of the due timers.
  lemma {:induction false} FiredInOrder<T>(due: seq<T>, halts: seq<set<T>>)
    requires Distinct(due)
    ensures InOrder(due, Fired(due, halts) + Rest(due, halts))
  {
    if halts == [] {
      forall i | 0 <= i < |due| ensures Pos(due, due[i]) == i { PosOf(due, i); }
      assert Fired(due, halts) + Rest(due, halts) == due;
    } else {
      var before := halts[..|halts| - 1];
      FiredInOrder(due, before);
      var f, r := Fired(due, before), Rest(due, before);
      if r != [] {
        assert f + r == f + [r[0]] + r[1..];
        MinusInOrder(due, f + [r[0]], r[1..], halts[|halts| - 1]);
      }
    }
  }

  // A due timer is in line, has fired or was dropped; if dropped, it does not fire.
  lemma {:induction false} FiredUnlessDropped<T>(due: seq<T>, halts: seq<set<T>>, x: T)
    requires Distinct(due) && x in due
    ensures x in Rest(due, halts) || x in Fired(due, halts) || Dropped(due, halts, x)
    ensures Dropped(due, halts, x) ==> x !in Rest(due, halts) && x !in Fired(due, halts)
  {
    if halts != [] {
      var n, before := |halts| - 1, halts[..|halts| - 1];
      FiredUnlessDropped(due, before, x);
      var r := Rest(due, before);
      if r != [] {
        MinusHas(r[1..], halts[n], x);
        assert r == [r[0]] + r[1..];
      }
    }
  }

  // With one firing for each callback, the first k callbacks fired the first k.
  lemma {:induction false} FiredFirst<T>(due: seq<T>, halts: seq<set<T>>, k: nat)
    requires |Fired(due, halts)| == |halts| && k <= |halts|
    ensures Fired(due, halts[..k]) == Fired(due, halts)[..k]
  {
    if k == |halts| {
      assert halts[..k] == halts;
    } else {
      var before := halts[..|halts| - 1];
      FiredAtMost(due, before);
      FiredFirst(due, before, k);
      assert before[..k] == halts[..k];
    }
  }

  lemma {:induction false} FiredAtMost<T>(due: seq<T>, halts: seq<set<T>>)
    ensures |Fired(due, halts)| <= |halts|
  {
    if halts != [] { FiredAtMost(due, halts[..|halts| - 1]); }
  }

  // Which callback dropped x: one that ran before x could fire, and took x out.
  lemma {:induction false} DroppedAt<T>(due: seq<T>, halts: seq<set<T>>, x: T) returns (k: nat)
    requires Dropped(due, halts, x) && |Fired(due, halts)| == |halts|
    ensures k < |halts| && x in halts[k] && x !in Fired(due, halts)[..k + 1]
  {
    var n, before := |halts| - 1, halts[..|halts| - 1];
    if Dropped(due, before, x) {
      FiredAtMost(due, before);
      k := DroppedAt(due, before, x);
      FiredFirst(due, halts, n);
    } else {
      k := n;
    }
  }

  lemma {:induction false} DroppedFrom<T>(due: seq<T>, halts: seq<set<T>>, x: T, k: nat)
    requires |Fired(due, halts)| == |halts| && k < |halts| && x in halts[k] && x !in Fired(due, halts)[..k + 1]
    ensures Dropped(due, halts, x)
  {
    var n, before := |halts| - 1, halts[..|halts| - 1];
    if k < n {
      FiredAtMost(due, before);
      FiredFirst(due, halts, n);
      assert Fired(due, halts)[..n][..k + 1] == Fired(due, halts)[..k + 1];
      DroppedFrom(due, before, x, k);
    }
  }

  // A pass fires due timers only, each at most once, in their order, and exactly those
  // no earlier callback of the pass has stopped, restarted or closed.
  ghost predicate FiresExactly<T>(due: seq<T>, halts: seq<set<T>>, f: seq<T>) {
    && Distinct(f) && InOrder(due, f)
    && (forall x :: x in f ==> x in due)
    && (forall x :: x in due ==> (x in f <==> !Dropped(due, halts, x)))
  }

  lemma PassFires<T>(due: seq<T>, halts: seq<set<T>>)
    requires Distinct(due) && Rest(due, halts) == []
    ensures FiresExactly(due, halts, Fired(due, halts))
  {
    var f := Fired(due, halts);
    FiredInOrder(due, halts);
    assert f + Rest(due, halts) == f;
    forall x | x in f ensures x in due { OnlyDue(due, halts, x); }
    forall x | x in due ensures x in f <==> !Dropped(due, halts, x) { FiredUnlessDropped(due, halts, x); }
  }

  lemma {:induction false} OnlyDue<T>(due: seq<T>, halts: seq<set<T>>, x: T)
    requires x in Fired(due, halts) || x in Rest(due, halts)
    ensures x in due
  {
    if halts != [] {
      var before := halts[..|halts| - 1];
      var r := Rest(due, before);
      if r != [] { MinusHas(r[1..], halts[|halts| - 1], x); }
      OnlyDue(due, before, x);
    }
  }

  lemma {:induction false} MinusShort<T>(q: seq<T>, s: set<T>)
    ensures |Minus(q, s)| <= |q|
  {
    if q != [] { MinusShort(q[1..], s); }
  }

  lemma PassStep<T>(due: seq<T>, halts: seq<set<T>>, s: set<T>)
    ensures var r := Rest(due, halts);
      && Rest(due, halts + [s]) == (if r == [] then [] else Minus(r[1..], s))
      && Fired(due, halts + [s]) == (if r == [] then Fired(due, halts) else Fired(due, halts) + [r[0]])
  {
    var more := halts + [s];
    assert more[..|more| - 1] == halts;
  }

  lemma {:induction false} WithoutProps<T>(q: seq<T>, h: T)
    ensures var w := Without(q, h);
      h !in w && |w| <= |q| && (forall x :: x in w ==> x in q) && (forall x :: x in q && x != h ==> x in w)
      && (Distinct(q) ==> Distinct(w)) && (h !in q ==> w == q)
  {
    if q != [] {
      var w := Without(q[1..], h);
      WithoutProps(q[1..], h);
      assert q == [q[0]] + q[1..];
      if q[0] != h && Distinct(q) { assert q[0] !in q[1..]; }
    }
  }

  lemma {:induction false} WithoutAt<T>(q: seq<T>, i: nat)
    requires i < |q| && Distinct(q)
    ensures Without(q, q[i]) == q[..i] + q[i + 1..]
  {
    if i == 0 {
      WithoutProps(q[1..], q[0]);
      assert q[0] !in q[1..];
    } else {
      WithoutAt(q[1..], i - 1);
    }
  }
}
