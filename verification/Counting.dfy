// How often a number occurs in a sequence, and taking one occurrence out: the queues of
// threadpool.c and async.c seen as sequences of entry numbers.
module Counting {

  function Count(q: seq<int>, x: int): nat {
    if q == [] then 0 else (if q[0] == x then 1 else 0) + Count(q[1..], x)
  }

  // Removes the first occurrence of x.
  function Drop(q: seq<int>, x: int): seq<int> {
    if q == [] then [] else if q[0] == x then q[1..] else [q[0]] + Drop(q[1..], x)
  }

  lemma {:induction false} CountAppend(q: seq<int>, y: int, x: int)
    ensures Count(q + [y], x) == Count(q, x) + if x == y then 1 else 0
  {
    if q != [] {
      assert (q + [y])[1..] == q[1..] + [y];
      CountAppend(q[1..], y, x);
    }
  }

  lemma {:induction false} CountUpdate(q: seq<int>, i: nat, y: int, x: int)
    requires i < |q|
    ensures Count(q[i := y], x) + (if q[i] == x then 1 else 0) == Count(q, x) + if y == x then 1 else 0
  {
    if i == 0 {
      assert q[i := y][1..] == q[1..];
    } else {
      assert q[i := y][1..] == q[1..][i - 1 := y];
      CountUpdate(q[1..], i - 1, y, x);
    }
  }

  lemma {:induction false} CountDrop(q: seq<int>, y: int, x: int)
    ensures Count(Drop(q, y), x) == if x == y && Count(q, y) > 0 then Count(q, x) - 1 else Count(q, x)
  {
    if q != [] && q[0] != y {
      CountDrop(q[1..], y, x);
      assert Drop(q, y)[1..] == Drop(q[1..], y);
    }
  }

  lemma {:induction false} CountAt(q: seq<int>, i: nat)
    requires i < |q|
    ensures Count(q, q[i]) >= 1
  {
    if i > 0 { CountAt(q[1..], i - 1); }
  }

  lemma {:induction false} CountTwice(q: seq<int>, i: nat, j: nat)
    requires i < j < |q| && q[i] == q[j]
    ensures Count(q, q[i]) >= 2
  {
    if i > 0 {
      CountTwice(q[1..], i - 1, j - 1);
    } else {
      CountAt(q[1..], j - 1);
      assert q[1..][j - 1] == q[j];
    }
  }

  lemma {:induction false} CountNone(q: seq<int>, x: int)
    requires forall i :: 0 <= i < |q| ==> q[i] != x
    ensures Count(q, x) == 0
  {
    if q != [] { CountNone(q[1..], x); }
  }

  lemma {:induction false} DropShape(q: seq<int>, x: int) returns (p: nat)
    ensures p <= |q|
    ensures Drop(q, x) == if p < |q| then q[..p] + q[p + 1..] else q
  {
    if q == [] || q[0] == x {
      p := 0;
    } else {
      var r := DropShape(q[1..], x);
      p := r + 1;
    }
  }

  lemma {:induction false} Find(q: seq<int>, x: int) returns (i: nat)
    requires Count(q, x) > 0
    ensures i < |q| && q[i] == x
  {
    if q[0] == x { return 0; }
    i := Find(q[1..], x);
    i := i + 1;
  }
}
