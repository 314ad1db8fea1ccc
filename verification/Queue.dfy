// The circular doubly linked list of queue.h. A list with head h that holds s is the
// ring [h] + s.
module Queue {
  import opened Passes

  // A struct uv__queue. One embedded in a watcher carries the watcher's callback, 0 for
  // NULL, and its active flag.
  class Link {
    var next: Link
    var prev: Link
    var cb: nat
    var active: bool

    // uv__queue_init
    constructor ()
      ensures next == this && prev == this && Ring([this]) && !active && cb == 0
    {
      next := this;
      prev := this;
      cb, active := 0, false;
    }
  }

  function After(n: nat, i: nat): nat { if i + 1 == n then 0 else i + 1 }
  function Before(n: nat, i: nat): int { if i == 0 then n - 1 else i - 1 }

  ghost predicate NextAt(c: seq<Link>, i: nat)
    requires i < |c|
    reads {c[i]}`next
  {
    c[i].next == c[After(|c|, i)]
  }

  ghost predicate PrevAt(c: seq<Link>, i: nat)
    requires i < |c|
    reads {c[i]}`prev
  {
    c[i].prev == c[Before(|c|, i)]
  }

  ghost predicate Ring(c: seq<Link>)
    reads c`next, c`prev
  {
    |c| > 0 && Distinct(c) && (forall i :: 0 <= i < |c| ==> NextAt(c, i)) && (forall i :: 0 <= i < |c| ==> PrevAt(c, i))
  }

  // uv__queue_empty
  predicate Empty(h: Link, ghost c: seq<Link>): (r: bool)
    requires Ring(c) && c[0] == h
    reads c`next, c`prev
    ensures r <==> |c| == 1
  {
    assert NextAt(c, 0);
    h == h.next
  }

  // uv__queue_head
  function Head(h: Link, ghost c: seq<Link>): (q: Link)
    requires Ring(c) && c[0] == h && |c| > 1
    reads c`next, c`prev
    ensures q == c[1]
  {
    assert NextAt(c, 0);
    h.next
  }

  // uv__queue_insert_tail
  method InsertTail(h: Link, q: Link, ghost c: seq<Link>)
    requires Ring(c) && c[0] == h && q !in c
    modifies q`next, q`prev, c`next, c`prev
    ensures Ring(c + [q])
  {
    ghost var n := |c|;
    assert PrevAt(c, 0);
    q.next := h;
    q.prev := h.prev;
    q.prev.next := q;
    h.prev := q;
    forall i | 0 <= i <= n ensures NextAt(c + [q], i) { assert i < n ==> old(NextAt(c, i)); }
    forall i | 0 <= i <= n ensures PrevAt(c + [q], i) { assert i < n ==> old(PrevAt(c, i)); }
  }

  // uv__queue_insert_head
  method InsertHead(h: Link, q: Link, ghost c: seq<Link>)
    requires Ring(c) && c[0] == h && q !in c
    modifies q`next, q`prev, c`next, c`prev
    ensures Ring([h, q] + c[1..])
  {
    ghost var n, c' := |c|, [h, q] + c[1..];
    assert NextAt(c, 0) && PrevAt(c, After(n, 0));
    q.next := h.next;
    q.prev := h;
    q.next.prev := q;
    h.next := q;
    forall i | 0 <= i <= n ensures NextAt(c', i) { assert i > 1 ==> old(NextAt(c, i - 1)); }
    forall i | 0 <= i <= n ensures PrevAt(c', i) { assert old(PrevAt(c, if i > 1 then i - 1 else 0)); }
  }

  // uv__queue_remove, of an entry that is not the head; it does not need the head.
  method Remove(q: Link, ghost c: seq<Link>, ghost i: nat)
    requires Ring(c) && 0 < i < |c| && c[i] == q
    modifies c`next, c`prev
    ensures Ring(c[..i] + c[i + 1..])
  {
    ghost var n, c' := |c|, c[..i] + c[i + 1..];
    assert NextAt(c, i) && PrevAt(c, i);
    q.prev.next := q.next;
    q.next.prev := q.prev;
    forall k | 0 <= k < n - 1 ensures NextAt(c', k) { assert old(NextAt(c, if k < i then k else k + 1)); }
    forall k | 0 <= k < n - 1 ensures PrevAt(c', k) { assert old(PrevAt(c, if k < i then k else k + 1)); }
  }

  // uv__queue_move: n takes over the list of h, which is left empty.
  method Move(h: Link, n: Link, ghost c: seq<Link>)
    requires Ring(c) && c[0] == h && n !in c
    modifies n`next, n`prev, c`next, c`prev
    ensures Ring([n] + c[1..]) && Ring([h])
  {
    ghost var k, c' := |c|, [n] + c[1..];
    var empty := Empty(h, c);
    if empty {
      assert c == [h] && [n] + c[1..] == [n] && n != h;
      assert NextAt(c, 0) && PrevAt(c, 0);
      n.next, n.prev := n, n;
      assert Ring([h]) && Ring([n]);
    } else {
      assert NextAt(c, 0) && PrevAt(c, 0) && PrevAt(c, 1);
      var q := h.next;
      n.prev := h.prev;
      n.prev.next := n;
      n.next := q;
      h.prev := q.prev;
      h.prev.next := h;
      q.prev := n;
      forall i | 0 <= i < k ensures NextAt(c', i) { assert old(NextAt(c, i)); }
      forall i | 0 <= i < k ensures PrevAt(c', i) { assert old(PrevAt(c, i)); }
    }
  }

  // uv__queue_add: the list of n goes to the end of that of h.
  method Add(h: Link, n: Link, ghost c: seq<Link>, ghost d: seq<Link>)
    requires Ring(c) && Ring(d) && c[0] == h && d[0] == n && Distinct(c + d)
    modifies c`next, c`prev, d`next, d`prev
    ensures Ring(c + d[1..])
  {
    ghost var k, m, e := |c|, |d|, c + d[1..];
    assert PrevAt(c, 0) && NextAt(d, 0) && PrevAt(d, 0);
    forall i, j | 0 <= i < k && 0 <= j < m ensures c[i] != d[j] { assert (c + d)[i] == c[i] && (c + d)[k + j] == d[j]; }
    h.prev.next := n.next;
    n.next.prev := h.prev;
    h.prev := n.prev;
    h.prev.next := h;
    forall i | 0 <= i < k + m - 1 ensures NextAt(e, i) {
      assert if i < k then old(NextAt(c, i)) else old(NextAt(d, i - k + 1));
    }
    forall i | 0 <= i < k + m - 1 ensures PrevAt(e, i) {
      assert if i < k then old(PrevAt(c, i)) else old(PrevAt(d, i - k + 1));
    }
  }
}
