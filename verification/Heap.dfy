// The pointer-linked binary heap of heap-inl.h. The ghost sequence slots lists the
// nodes in level order: the children of slot i are slots 2i+1 and 2i+2.
module Heap {

  // uv_timer_t, the one kind of handle libuv keeps in a heap, with its heap_node.
  class Node {
    var left: Node?
    var right: Node?
    var parent: Node?
    var timeout: nat
    var startId: nat
    // The slot of a node that is in a heap.
    ghost var idx: nat

    // timer_cb, 0 for NULL; then repeat and the handle flags.
    var cb: nat
    var repeat: nat
    var active: bool
    var closing: bool

    // uv_timer_init
    constructor ()
      ensures timeout == 0 && cb == 0 && repeat == 0 && !active && !closing
    {
      left, right, parent := null, null, null;
      timeout, cb, repeat, active, closing := 0, 0, 0, false, false;
    }
  }

  // timer_less_than: by timeout, then by start_id.
  predicate LessThan(a: Node, b: Node)
    reads a`timeout, a`startId, b`timeout, b`startId
  {
    a.timeout < b.timeout || (a.timeout == b.timeout && a.startId < b.startId)
  }

  function Up(i: int): int { (i - 1) / 2 }

  function Slot(s: seq<Node>, i: nat): Node? { if i < |s| then s[i] else null }

  ghost predicate LeftAt(s: seq<Node>, i: nat)
    requires i < |s|
    reads {s[i]}`left
  {
    s[i].left == Slot(s, 2 * i + 1)
  }

  ghost predicate RightAt(s: seq<Node>, i: nat)
    requires i < |s|
    reads {s[i]}`right
  {
    s[i].right == Slot(s, 2 * i + 2)
  }

  ghost predicate ParentAt(s: seq<Node>, i: nat)
    requires i < |s|
    reads {s[i]}`parent
  {
    s[i].parent == if i == 0 then null else s[Up(i)]
  }

  ghost predicate Lefts(s: seq<Node>)
    reads s`left
  {
    forall i :: 0 <= i < |s| ==> LeftAt(s, i)
  }

  ghost predicate Rights(s: seq<Node>)
    reads s`right
  {
    forall i :: 0 <= i < |s| ==> RightAt(s, i)
  }

  ghost predicate Parents(s: seq<Node>)
    reads s`parent
  {
    forall i :: 0 <= i < |s| ==> ParentAt(s, i)
  }

  // No node is in two slots.
  ghost predicate Placed(s: seq<Node>)
    reads s`idx
  {
    forall i :: 0 <= i < |s| ==> s[i].idx == i
  }

  // The nodes a swap of p with its child c touches: the parent g of p, the other
  // child s of p, the children l and r of c.
  datatype Around = Around(p: Node, c: Node, g: Node?, s: Node?, l: Node?, r: Node?)

  ghost predicate Apart(a: Around) {
    && a.p != a.c && a.g != a.p && a.g != a.c && a.s != a.p && a.s != a.c && a.l != a.p && a.l != a.c && a.r != a.p
      && a.r != a.c
    && (a.g != null ==> a.g != a.s && a.g != a.l && a.g != a.r)
    && (a.s != null ==> a.s != a.l && a.s != a.r) && (a.l != null ==> a.l != a.r)
  }

  // Slots whose child links, or whose parent link, a swap of slots i and j leaves alone.
  predicate Far(i: nat, j: nat, m: int) { m != i && m != j && m != Up(i) }
  predicate Deep(i: nat, j: nat, m: int) {
    m != i && m != j && m != 2 * i + 1 && m != 2 * i + 2 && m != 2 * j + 1 && m != 2 * j + 2
  }

  function Near(s: seq<Node>, i: nat, j: nat): Around
    requires i < |s| && 0 < j < |s| && i == Up(j)
  {
    Around(s[i], s[j], if i == 0 then null else s[Up(i)], Slot(s, if j % 2 == 1 then 2 * i + 2 else 2 * i + 1),
           Slot(s, 2 * j + 1), Slot(s, 2 * j + 2))
  }

  lemma Surround(s: seq<Node>, i: nat, j: nat)
    requires i < |s| && 0 < j < |s| && i == Up(j) && Lefts(s) && Rights(s) && Parents(s) && Placed(s)
    ensures var a := Near(s, i, j);
      && Apart(a)
      && a.p.left == (if j % 2 == 1 then a.c else a.s) && a.p.right == (if j % 2 == 1 then a.s else a.c)
      && a.p.parent == a.g && a.c.left == a.l && a.c.right == a.r && a.c.parent == a.p
      && (a.g != null ==>
        a.g.left == (if i % 2 == 1 then a.p else Slot(s, 2 * Up(i) + 1))
        && a.g.right == (if i % 2 == 1 then Slot(s, 2 * Up(i) + 2) else a.p))
      && (a.g != null && i % 2 == 0 ==> a.g.left != a.p) && (j % 2 == 0 ==> a.p.left != a.c)
  {
    assert LeftAt(s, i) && RightAt(s, i) && ParentAt(s, i) && LeftAt(s, j) && RightAt(s, j) && ParentAt(s, j);
    if i > 0 { assert LeftAt(s, Up(i)) && RightAt(s, Up(i)); }
  }

  lemma AllApart(s: seq<Node>, i: nat, j: nat)
    requires i < |s| && 0 < j < |s| && i == Up(j) && Placed(s)
    ensures var a := Near(s, i, j);
      && (forall m :: 0 <= m < |s| && Far(i, j, m) ==> s[m] != a.p && s[m] != a.c && s[m] != a.g)
      && (forall m :: 0 <= m < |s| && Deep(i, j, m) ==>
        s[m] != a.p && s[m] != a.c && s[m] != a.s && s[m] != a.l && s[m] != a.r)
  {
  }

  lemma TurnLefts(s: seq<Node>, i: nat, j: nat)
    requires i < |s| && 0 < j < |s| && i == Up(j)
    requires forall m :: 0 <= m < |s| && Far(i, j, m) ==> LeftAt(s, m)
    requires s[i].left == Slot(s, 2 * j + 1) && s[j].left == if j == 2 * i + 1 then s[i] else Slot(s, 2 * i + 1)
    requires i > 0 ==> s[Up(i)].left == if i == 2 * Up(i) + 1 then s[j] else Slot(s, 2 * Up(i) + 1)
    ensures Lefts(s[i := s[j]][j := s[i]])
  {
    var s' := s[i := s[j]][j := s[i]];
    forall m | 0 <= m < |s| ensures LeftAt(s', m) { assert Far(i, j, m) ==> LeftAt(s, m); }
  }

  lemma TurnRights(s: seq<Node>, i: nat, j: nat)
    requires i < |s| && 0 < j < |s| && i == Up(j)
    requires forall m :: 0 <= m < |s| && Far(i, j, m) ==> RightAt(s, m)
    requires s[i].right == Slot(s, 2 * j + 2) && s[j].right == if j == 2 * i + 2 then s[i] else Slot(s, 2 * i + 2)
    requires i > 0 ==> s[Up(i)].right == if i == 2 * Up(i) + 2 then s[j] else Slot(s, 2 * Up(i) + 2)
    ensures Rights(s[i := s[j]][j := s[i]])
  {
    var s' := s[i := s[j]][j := s[i]];
    forall m | 0 <= m < |s| ensures RightAt(s', m) { assert Far(i, j, m) ==> RightAt(s, m); }
  }

  lemma TurnParents(s: seq<Node>, i: nat, j: nat)
    requires i < |s| && 0 < j < |s| && i == Up(j)
    requires forall m :: 0 <= m < |s| && Deep(i, j, m) ==> ParentAt(s, m)
    requires s[i].parent == s[j] && s[j].parent == if i == 0 then null else s[Up(i)]
    requires var a := Near(s, i, j);
      (a.s != null ==> a.s.parent == a.c) && (a.l != null ==> a.l.parent == a.p) && (a.r != null ==> a.r.parent == a.p)
    ensures Parents(s[i := s[j]][j := s[i]])
  {
    var s' := s[i := s[j]][j := s[i]];
    forall m | 0 <= m < |s| ensures ParentAt(s', m) { assert Deep(i, j, m) ==> ParentAt(s, m); }
  }

  // The node in slot i is not less than its parent.
  ghost predicate OrderAt(s: seq<Node>, i: nat)
    requires 0 < i < |s|
    reads s`timeout, s`startId
  {
    !LessThan(s[i], s[Up(i)])
  }

  // Heap order, except that the node at slot hole may be less than its parent (if up)
  // and its children may be less than it (if down); they are not less than its parent.
  ghost predicate OrderBut(s: seq<Node>, hole: nat, up: bool, down: bool)
    reads s`timeout, s`startId
  {
    && (forall i :: 0 < i < |s| && !(up && i == hole) && !(down && Up(i) == hole) ==> OrderAt(s, i))
    && (forall i :: 0 < i < |s| && Up(i) == hole && 0 < hole ==> !LessThan(s[i], s[Up(hole)]))
  }

  ghost predicate Ordered(s: seq<Node>)
    reads s`timeout, s`startId
  {
    forall i :: 0 < i < |s| ==> OrderAt(s, i)
  }

  function Swapped(s: seq<Node>, i: nat, j: nat): seq<Node>
    requires i < |s| && j < |s|
  {
    s[i := s[j]][j := s[i]]
  }

  lemma SwapUpOrder(s: seq<Node>, j: nat)
    requires 0 < j < |s| && OrderBut(s, j, true, false) && LessThan(s[j], s[Up(j)])
    ensures OrderBut(Swapped(s, Up(j), j), Up(j), true, false)
  {
    var s', i := Swapped(s, Up(j), j), Up(j);
    forall m | 0 < m < |s| && m != i ensures OrderAt(s', m) {
      if m != j { assert OrderAt(s, m); }
      if Up(m) == i && m != j { assert !LessThan(s[m], s[i]); }
    }
    if i > 0 { assert OrderAt(s, i); }
    forall m | 0 < m < |s| && Up(m) == i && 0 < i ensures !LessThan(s'[m], s'[Up(i)]) {
      if m != j { assert OrderAt(s, m); }
    }
  }

  lemma SwapDownOrder(s: seq<Node>, i: nat, j: nat, up: bool)
    requires i < |s| && 0 < j < |s| && i == Up(j) && OrderBut(s, i, up, true) && LessThan(s[j], s[i])
    requires forall m :: 0 < m < |s| && Up(m) == i ==> !LessThan(s[m], s[j])
    ensures OrderBut(Swapped(s, i, j), j, false, true)
  {
    var s' := Swapped(s, i, j);
    forall m | 0 < m < |s| && Up(m) != j ensures OrderAt(s', m) {
      if m != i && Up(m) != i { assert OrderAt(s, m); }
    }
    forall m | 0 < m < |s| && Up(m) == j ensures !LessThan(s'[m], s'[i]) { assert OrderAt(s, m); }
  }

  lemma SiftedDown(s: seq<Node>, i: nat, up: bool)
    requires OrderBut(s, i, up, true)
    requires forall m :: 0 < m < |s| && Up(m) == i ==> !LessThan(s[m], s[i])
    ensures OrderBut(s, i, up, false)
  {
    forall m | 0 < m < |s| && !(up && m == i) ensures OrderAt(s, m) { assert Up(m) != i ==> OrderAt(s, m); }
  }

  // Putting any node x into slot i of an ordered heap leaves a hole there.
  lemma ReplaceOrder(s: seq<Node>, i: nat, x: Node)
    requires i < |s| && Ordered(s)
    ensures OrderBut(s[i := x], i, true, true)
  {
    var s' := s[i := x];
    forall m | 0 < m < |s| && m != i && Up(m) != i ensures OrderAt(s', m) { assert OrderAt(s, m); }
    forall m | 0 < m < |s| && Up(m) == i && 0 < i ensures !LessThan(s'[m], s'[Up(i)]) {
      assert OrderAt(s, m) && OrderAt(s, i);
    }
  }

  // x stands in for the node of slot i: the pointers of its neighbours lead to x.
  lemma Links(s: seq<Node>, i: nat)
    requires i < |s| && Lefts(s) && Rights(s) && Parents(s) && Placed(s)
    ensures s[i].left == Slot(s, 2 * i + 1) && s[i].right == Slot(s, 2 * i + 2)
      && s[i].parent == (if i == 0 then null else s[Up(i)])
    ensures i > 0 ==> s[Up(i)].left == (if i % 2 == 1 then s[i] else Slot(s, 2 * Up(i) + 1))
    ensures i > 0 ==> s[Up(i)].right == (if i % 2 == 0 then s[i] else Slot(s, 2 * Up(i) + 2))
    ensures i > 0 && i % 2 == 0 ==> s[Up(i)].left != s[i]
    ensures forall m :: 0 <= m < |s| && m != i && m != Up(i) ==> s[m] != s[i] && (i > 0 ==> s[m] != s[Up(i)])
    ensures forall m :: 0 <= m < |s| && m != 2 * i + 1 && m != 2 * i + 2 ==>
      s[m] != Slot(s, 2 * i + 1) && s[m] != Slot(s, 2 * i + 2)
  {
    assert LeftAt(s, i) && RightAt(s, i) && ParentAt(s, i);
    if i > 0 { assert LeftAt(s, Up(i)) && RightAt(s, Up(i)); }
  }

  lemma ReplaceLefts(s: seq<Node>, i: nat, x: Node)
    requires i < |s| && x.left == Slot(s, 2 * i + 1)
    requires forall m :: 0 <= m < |s| && m != i && m != Up(i) ==> LeftAt(s, m)
    requires i > 0 ==> s[Up(i)].left == if i % 2 == 1 then x else Slot(s, 2 * Up(i) + 1)
    ensures Lefts(s[i := x])
  {
    var s' := s[i := x];
    forall m | 0 <= m < |s| ensures LeftAt(s', m) { assert m != i && m != Up(i) ==> LeftAt(s, m); }
  }

  lemma ReplaceRights(s: seq<Node>, i: nat, x: Node)
    requires i < |s| && x.right == Slot(s, 2 * i + 2)
    requires forall m :: 0 <= m < |s| && m != i && m != Up(i) ==> RightAt(s, m)
    requires i > 0 ==> s[Up(i)].right == if i % 2 == 0 then x else Slot(s, 2 * Up(i) + 2)
    ensures Rights(s[i := x])
  {
    var s' := s[i := x];
    forall m | 0 <= m < |s| ensures RightAt(s', m) { assert m != i && m != Up(i) ==> RightAt(s, m); }
  }

  lemma ReplaceParents(s: seq<Node>, i: nat, x: Node)
    requires i < |s| && x.parent == if i == 0 then null else s[Up(i)]
    requires forall m :: 0 <= m < |s| && m != i && m != 2 * i + 1 && m != 2 * i + 2 ==> ParentAt(s, m)
    requires var l, r := Slot(s, 2 * i + 1), Slot(s, 2 * i + 2);
      (l != null ==> l.parent == x) && (r != null ==> r.parent == x)
    ensures Parents(s[i := x])
  {
    var s' := s[i := x];
    forall m | 0 <= m < |s| ensures ParentAt(s', m) {
      assert m != i && m != 2 * i + 1 && m != 2 * i + 2 ==> ParentAt(s, m);
    }
  }

  lemma AppendLefts(s: seq<Node>, x: Node)
    requires x.left == null && forall m :: 0 <= m < |s| && m != Up(|s|) ==> LeftAt(s, m)
    requires |s| > 0 ==> s[Up(|s|)].left == if |s| % 2 == 1 then x else Slot(s, 2 * Up(|s|) + 1)
    ensures Lefts(s + [x])
  {
    var s' := s + [x];
    forall m | 0 <= m < |s'| ensures LeftAt(s', m) { assert m < |s| && m != Up(|s|) ==> LeftAt(s, m); }
  }

  lemma AppendRights(s: seq<Node>, x: Node)
    requires x.right == null && forall m :: 0 <= m < |s| && m != Up(|s|) ==> RightAt(s, m)
    requires |s| > 0 ==> s[Up(|s|)].right == if |s| % 2 == 0 then x else null
    ensures Rights(s + [x])
  {
    var s' := s + [x];
    forall m | 0 <= m < |s'| ensures RightAt(s', m) { assert m < |s| && m != Up(|s|) ==> RightAt(s, m); }
  }

  lemma AppendParents(s: seq<Node>, x: Node)
    requires Parents(s) && x.parent == if |s| == 0 then null else s[Up(|s|)]
    ensures Parents(s + [x])
  {
    var s' := s + [x];
    forall m | 0 <= m < |s'| ensures ParentAt(s', m) { assert m < |s| ==> ParentAt(s, m); }
  }

  lemma AppendOrder(s: seq<Node>, x: Node)
    requires Ordered(s)
    ensures OrderBut(s + [x], |s|, true, false)
  {
    var s' := s + [x];
    forall m | 0 < m < |s| ensures OrderAt(s', m) { assert OrderAt(s, m); }
  }

  lemma ShrinkOrder(s: seq<Node>)
    requires |s| > 0 && Ordered(s)
    ensures Ordered(s[..|s| - 1])
  {
    var s' := s[..|s| - 1];
    forall m | 0 < m < |s'| ensures OrderAt(s', m) { assert OrderAt(s, m); }
  }

  lemma ShrinkLefts(s: seq<Node>)
    requires |s| > 0 && forall m :: 0 <= m < |s| && m != Up(|s| - 1) ==> LeftAt(s, m)
    requires |s| > 1 ==> s[Up(|s| - 1)].left == if |s| % 2 == 0 then null else s[2 * Up(|s| - 1) + 1]
    ensures Lefts(s[..|s| - 1])
  {
    var s' := s[..|s| - 1];
    forall m | 0 <= m < |s'| ensures LeftAt(s', m) { assert m != Up(|s| - 1) ==> LeftAt(s, m); }
  }

  lemma ShrinkRights(s: seq<Node>)
    requires |s| > 0 && forall m :: 0 <= m < |s| && m != Up(|s| - 1) ==> RightAt(s, m)
    requires |s| > 1 ==> s[Up(|s| - 1)].right == null
    ensures Rights(s[..|s| - 1])
  {
    var s' := s[..|s| - 1];
    forall m | 0 <= m < |s'| ensures RightAt(s', m) { assert m != Up(|s| - 1) ==> RightAt(s, m); }
  }

  lemma ShrinkParents(s: seq<Node>)
    requires |s| > 0 && Parents(s)
    ensures Parents(s[..|s| - 1])
  {
    var s' := s[..|s| - 1];
    forall m | 0 <= m < |s'| ensures ParentAt(s', m) { assert ParentAt(s, m); }
  }

  // The first slot holds a least node.
  lemma {:induction false} RootIsLeast(s: seq<Node>, i: nat)
    requires i < |s| && Ordered(s)
    ensures !LessThan(s[i], s[0])
  {
    if i > 0 {
      RootIsLeast(s, Up(i));
      assert OrderAt(s, i);
    }
  }

  class Heap {
    var min: Node?
    var nelts: nat
    ghost var slots: seq<Node>
    ghost var elems: set<Node>

    // The pointer work of heap_node_swap.
    method Relink(p: Node, c: Node, ghost a: Around)
      requires Apart(a) && a.p == p && a.c == c
      requires (p.left == c && p.right == a.s) || (p.left == a.s && p.right == c)
      requires p.parent == a.g && c.left == a.l && c.right == a.r && c.parent == p
      requires a.g != null ==> a.g.left == p || a.g.right == p
      modifies this`min, {p, c, a.g}`left, {p, c, a.g}`right, {p, c, a.s, a.l, a.r}`parent
      ensures p.left == a.l && p.right == a.r && p.parent == c && c.parent == a.g
      ensures old(p.left) == c ==> c.left == p && c.right == a.s
      ensures old(p.left) != c ==> c.left == a.s && c.right == p
      ensures a.s != null ==> a.s.parent == c
      ensures a.l != null ==> a.l.parent == p
      ensures a.r != null ==> a.r.parent == p
      ensures if a.g == null then min == c else min == old(min)
      ensures a.g != null && old(a.g.left) == p ==> a.g.left == c && a.g.right == old(a.g.right)
      ensures a.g != null && old(a.g.left) != p ==> a.g.right == c && a.g.left == old(a.g.left)
    {
      p.left, c.left := c.left, p.left;
      p.right, c.right := c.right, p.right;
      p.parent, c.parent := c.parent, p.parent;
      p.parent := c;
      var sibling;
      if c.left == c {
        c.left := p;
        sibling := c.right;
      } else {
        c.right := p;
        sibling := c.left;
      }
      if sibling != null { sibling.parent := c; }
      if p.left != null { p.left.parent := p; }
      if p.right != null { p.right.parent := p; }
      if c.parent == null {
        min := c;
      } else if c.parent.left == p {
        c.parent.left := c;
      } else {
        c.parent.right := c;
      }
    }

    ghost predicate Linked()
      reads this, slots`left, slots`right, slots`parent, slots`idx
    {
      && Lefts(slots) && Rights(slots) && Parents(slots) && Placed(slots)
      && min == Slot(slots, 0) && nelts == |slots|
    }

    // elems is the set of the nodes in slots.
    ghost predicate Members()
      reads this, elems`idx
    {
      && (forall i :: 0 <= i < |slots| ==> slots[i] in elems)
      && (forall x :: x in elems ==> x.idx < |slots| && slots[x.idx] == x)
    }

    // heap_node_swap: the child j takes the slot i of its parent.
    method SwapLinks(p: Node, c: Node, ghost i: nat, ghost j: nat)
      requires Linked() && i < |slots| && j < |slots| && slots[i] == p && slots[j] == c && 0 < j && i == Up(j)
      modifies this`min, slots`left, slots`right, slots`parent
      ensures var s' := Swapped(slots, i, j); Lefts(s') && Rights(s') && Parents(s') && min == s'[0]
    {
      ghost var s := slots;
      ghost var a := Near(s, i, j);
      Surround(s, i, j);
      AllApart(s, i, j);
      Relink(p, c, a);
      forall m | 0 <= m < |s| && Far(i, j, m) ensures LeftAt(s, m) { assert old(LeftAt(s, m)); }
      forall m | 0 <= m < |s| && Far(i, j, m) ensures RightAt(s, m) { assert old(RightAt(s, m)); }
      forall m | 0 <= m < |s| && Deep(i, j, m) ensures ParentAt(s, m) { assert old(ParentAt(s, m)); }
      TurnLefts(s, i, j);
      TurnRights(s, i, j);
      TurnParents(s, i, j);
    }

    method Swap(p: Node, c: Node, ghost i: nat, ghost j: nat)
      requires Linked() && Members() && i < |slots| && j < |slots| && slots[i] == p && slots[j] == c && 0 < j
        && i == Up(j)
      modifies this`min, this`slots, elems`left, elems`right, elems`parent, elems`idx
      ensures slots == Swapped(old(slots), i, j)
      ensures Linked() && Members()
    {
      SwapLinks(p, c, i, j);
      slots := Swapped(slots, i, j);
      p.idx, c.idx := j, i;
    }

    // The walk to the n-th node in level order, along the bits of n below the first:
    // the parent of its place and the side it is on.
    method Walk(n: nat) returns (up: Node?, toRight: bool)
      requires Linked() && 1 <= n <= nelts + 1 < 0x1_0000_0000
      ensures if n == 1 then up == null else up == slots[n / 2 - 1] && toRight == (n % 2 == 1)
    {
      var path, k := Path(n);
      up, toRight := null, false;
      var at := min;
      while k > 0
        invariant 1 <= Shift(n, k) <= n && path == Reversed(n, k)
        invariant at == Slot(slots, Shift(n, k) - 1)
        invariant if Shift(n, k) == 1 then up == null
          else up == slots[Shift(n, k) / 2 - 1] && toRight == (Shift(n, k) % 2 == 1)
      {
        ghost var m, m' := Shift(n, k), Shift(n, k - 1);
        assert m == m' / 2 && path == m' % 2 + 2 * Reversed(n, k - 1);
        ShiftLe(n, k - 1);
        assert LeftAt(slots, m - 1) && RightAt(slots, m - 1);
        up := at;
        toRight := path % 2 == 1;
        at := if toRight then at.right else at.left;
        path := path / 2;
        k := k - 1;
      }
    }

    // *child = node, where child is the link the walk ended at.
    method SetLink(up: Node?, toRight: bool, node: Node?)
      modifies this`min, {up}`left, {up}`right
      ensures up == null ==> min == node
      ensures up != null ==>
        min == old(min) && up.left == (if toRight then old(up.left) else node)
        && up.right == (if toRight then node else old(up.right))
    {
      if up == null {
        min := node;
      } else if toRight {
        up.right := node;
      } else {
        up.left := node;
      }
    }

    // The place after the last node in level order.
    ghost predicate AtEnd(up: Node?, toRight: bool)
      reads this
    {
      var n := |slots|; if n == 0 then up == null else up == slots[Up(n)] && toRight == (n % 2 == 0)
    }

    method Attach(node: Node, up: Node?, toRight: bool)
      requires Linked() && Members() && node !in elems && AtEnd(up, toRight)
      requires node.left == null && node.right == null && node.parent == up
      modifies this, elems`left, elems`right, node`idx
      ensures Linked() && Members() && slots == old(slots) + [node] && elems == old(elems) + {node}
    {
      ghost var s, n := slots, |slots|;
      if n > 0 { assert LeftAt(s, Up(n)) && RightAt(s, Up(n)); }
      SetLink(up, toRight, node);
      forall m | 0 <= m < n && m != Up(n) ensures LeftAt(s, m) { assert old(LeftAt(s, m)); }
      forall m | 0 <= m < n && m != Up(n) ensures RightAt(s, m) { assert old(RightAt(s, m)); }
      AppendLefts(s, node);
      AppendRights(s, node);
      AppendParents(s, node);
      nelts := nelts + 1;
      slots, elems, node.idx := s + [node], elems + {node}, n;
    }

    // The first half of heap_insert: node becomes the last one in level order.
    method Append(node: Node)
      requires Linked() && Members() && node !in elems && nelts + 1 < 0x1_0000_0000
      modifies this, elems`left, elems`right, node`left, node`right, node`parent, node`idx
      ensures Linked() && Members() && slots == old(slots) + [node] && elems == old(elems) + {node}
    {
      node.left, node.right, node.parent := null, null, null;
      var up, toRight := Walk(1 + nelts);
      node.parent := up;
      Attach(node, up, toRight);
    }

    // The first half of heap_remove: the last node in level order is unlinked.
    method Unlink() returns (last: Node)
      requires Linked() && Members() && 0 < nelts < 0xFFFF_FFFF
      modifies this, elems`left, elems`right
      ensures Linked() && Members() && |old(slots)| > 0 && last == old(slots)[|old(slots)| - 1]
      ensures slots == old(slots)[..|old(slots)| - 1] && elems == old(elems) - {last}
    {
      var up, toRight := Walk(nelts);
      nelts := nelts - 1;
      ghost var s, n := slots, |slots| - 1;
      if n > 0 { assert LeftAt(s, Up(n)) && RightAt(s, Up(n)); }
      last := if up == null then min else if toRight then up.right else up.left;
      SetLink(up, toRight, null);
      forall m | 0 <= m < |s| && m != Up(n) ensures LeftAt(s, m) { assert old(LeftAt(s, m)); }
      forall m | 0 <= m < |s| && m != Up(n) ensures RightAt(s, m) { assert old(RightAt(s, m)); }
      ShrinkLefts(s);
      ShrinkRights(s);
      ShrinkParents(s);
      slots, elems := s[..n], elems - {last};
    }

    // The pointer work of heap_remove that puts x in the place of node: g, l and r are
    // the parent and the children of node.
    method StandIn(node: Node, x: Node, ghost g: Node?, ghost l: Node?, ghost r: Node?)
      requires node.parent == g && node.left == l && node.right == r
      requires x != node && x != g && x != l && x != r && (g != null ==> g != node && g != l && g != r)
      requires (l != null ==> l != node && l != r) && (r != null ==> r != node)
        && (g != null ==> g.left == node || g.right == node)
      modifies this`min, {x, g}`left, {x, g}`right, {x, l, r}`parent
      ensures x.parent == g && x.left == l && x.right == r && (l != null ==> l.parent == x)
        && (r != null ==> r.parent == x)
      ensures if g == null then min == x else min == old(min)
      ensures g != null && old(g.left) == node ==> g.left == x && g.right == old(g.right)
      ensures g != null && old(g.left) != node ==> g.right == x && g.left == old(g.left)
    {
      x.left := node.left;
      x.right := node.right;
      x.parent := node.parent;
      if x.left != null { x.left.parent := x; }
      if x.right != null { x.right.parent := x; }
      if node.parent == null {
        min := x;
      } else if node.parent.left == node {
        node.parent.left := x;
      } else {
        node.parent.right := x;
      }
    }

    // heap_remove: x takes over the slot of node.
    method Replace(node: Node, x: Node)
      requires Linked() && Members() && node in elems && x !in elems
      modifies this`min, this`slots, this`elems, elems`left, elems`right, elems`parent, x`left, x`right, x`parent, x`idx
      ensures Linked() && Members() && slots == old(slots)[old(node.idx) := x] && elems == old(elems) - {node} + {x}
    {
      ghost var s, i := slots, node.idx;
      Links(s, i);
      StandIn(node, x, if i == 0 then null else s[Up(i)], Slot(s, 2 * i + 1), Slot(s, 2 * i + 2));
      forall m | 0 <= m < |s| && m != i && m != Up(i) ensures LeftAt(s, m) { assert old(LeftAt(s, m)); }
      forall m | 0 <= m < |s| && m != i && m != Up(i) ensures RightAt(s, m) { assert old(RightAt(s, m)); }
      forall m | 0 <= m < |s| && m != i && m != 2 * i + 1 && m != 2 * i + 2 ensures ParentAt(s, m) {
        assert old(ParentAt(s, m));
      }
      ReplaceLefts(s, i, x);
      ReplaceRights(s, i, x);
      ReplaceParents(s, i, x);
      slots, elems, x.idx := s[i := x], elems - {node} + {x}, i;
    }

    // One turn of the loop that moves a node up.
    method UpOnce(node: Node)
      requires Linked() && Members() && node in elems && OrderBut(slots, node.idx, true, false)
      requires node.parent != null && LessThan(node, node.parent)
      modifies this`min, this`slots, elems`left, elems`right, elems`parent, elems`idx
      ensures Linked() && Members() && |slots| == |old(slots)|
      ensures OrderBut(slots, node.idx, true, false) && node.idx < old(node.idx)
    {
      ghost var j := node.idx;
      assert ParentAt(slots, j);
      SwapUpOrder(slots, j);
      Swap(node.parent, node, Up(j), j);
      assert slots[Up(j)] == node && node.idx == Up(j);
      assert OrderBut(slots, Up(j), true, false);
    }

    // The loop of heap_insert and heap_remove that moves a node up.
    method SiftUp(node: Node)
      requires Linked() && Members() && node in elems && OrderBut(slots, node.idx, true, false)
      modifies this`min, this`slots, elems`left, elems`right, elems`parent, elems`idx
      ensures Linked() && Members() && |slots| == |old(slots)| && Ordered(slots)
    {
      while node.parent != null && LessThan(node, node.parent)
        invariant Linked() && Members() && |slots| == |old(slots)| && OrderBut(slots, node.idx, true, false)
        decreases node.idx
      {
        UpOnce(node);
      }
      assert ParentAt(slots, node.idx);
    }

    // One turn of the loop that moves a node down.
    method DownOnce(node: Node, child: Node, ghost up: bool)
      requires Linked() && Members() && node in elems && child in elems && OrderBut(slots, node.idx, up, true)
      requires 0 < child.idx && Up(child.idx) == node.idx && LessThan(child, node)
      requires forall m :: 0 < m < |slots| && Up(m) == node.idx ==> !LessThan(slots[m], child)
      modifies this`min, this`slots, elems`left, elems`right, elems`parent, elems`idx
      ensures Linked() && Members() && |slots| == |old(slots)|
      ensures OrderBut(slots, node.idx, false, true) && node.idx > old(node.idx)
    {
      ghost var i, j := node.idx, child.idx;
      SwapDownOrder(slots, i, j, up);
      Swap(node, child, i, j);
    }

    // The least of a node and its children; the node itself if none is less.
    method Smallest(node: Node) returns (smallest: Node)
      requires Linked() && Members() && node in elems
      ensures forall m :: 0 < m < |slots| && Up(m) == node.idx ==> !LessThan(slots[m], smallest)
      ensures smallest != node ==>
        smallest in elems && 0 < smallest.idx && Up(smallest.idx) == node.idx && LessThan(smallest, node)
    {
      ghost var i := node.idx;
      assert LeftAt(slots, i) && RightAt(slots, i);
      smallest := node;
      if node.left != null && LessThan(node.left, smallest) { smallest := node.left; }
      if node.right != null && LessThan(node.right, smallest) { smallest := node.right; }
      assert forall m :: 0 < m < |slots| && Up(m) == i ==> m == 2 * i + 1 || m == 2 * i + 2;
    }

    // The loop of heap_remove that moves a node down.
    method SiftDown(node: Node, ghost up: bool)
      requires Linked() && Members() && node in elems && OrderBut(slots, node.idx, up, true)
      modifies this`min, this`slots, elems`left, elems`right, elems`parent, elems`idx
      ensures Linked() && Members() && |slots| == |old(slots)| && OrderBut(slots, node.idx, true, false)
    {
      ghost var upper := up;
      while true
        invariant Linked() && Members() && |slots| == |old(slots)| && OrderBut(slots, node.idx, upper, true)
        decreases |slots| - node.idx
      {
        var smallest := Smallest(node);
        if smallest == node {
          SiftedDown(slots, node.idx, upper);
          break;
        }
        DownOnce(node, smallest, upper);
        upper := false;
      }
    }

    // A complete binary tree of the nodes of elems, in heap order.
    ghost predicate Valid()
      reads this, slots`left, slots`right, slots`parent, slots`idx, slots`timeout, slots`startId, elems`idx
    {
      Linked() && Members() && Ordered(slots)
    }

    // nelts counts the nodes.
    lemma CountsElems()
      requires Linked() && Members()
      ensures |elems| == nelts
    {
      SizeOfDistinct(slots);
      assert forall i, j :: 0 <= i < j < |slots| ==> slots[i] != slots[j] by { assert Placed(slots); }
      assert elems == set i | 0 <= i < |slots| :: slots[i];
    }

    // heap_init
    constructor ()
      ensures Valid() && elems == {}
    {
      min, nelts := null, 0;
      slots, elems := [], {};
    }

    // heap_min
    method Min() returns (r: Node?)
      requires Valid()
      ensures r == null <==> elems == {}
      ensures r != null ==> r in elems && forall x :: x in elems ==> !LessThan(x, r)
    {
      r := min;
      if r != null {
        forall x | x in elems ensures !LessThan(x, r) { RootIsLeast(slots, x.idx); }
      } else {
        assert forall x :: x in elems ==> x.idx < 0;
      }
    }

    // A node outside the heap may change what it is compared by.
    method SetKey(node: Node, timeout: nat, startId: nat)
      requires Valid() && node !in elems
      modifies node`timeout, node`startId
      ensures Valid() && node.timeout == timeout && node.startId == startId
    {
      node.timeout, node.startId := timeout, startId;
    }

    method Insert(node: Node)
      requires Valid() && node !in elems && nelts + 1 < 0x1_0000_0000
      modifies this, elems`left, elems`right, elems`parent, elems`idx, node`left, node`right, node`parent, node`idx
      ensures Valid() && elems == old(elems) + {node} && nelts == old(nelts) + 1
    {
      AppendOrder(slots, node);
      Append(node);
      SiftUp(node);
    }

    // Takes the last node in level order out.
    method Pop() returns (last: Node)
      requires Valid() && 0 < nelts < 0xFFFF_FFFF
      modifies this, elems`left, elems`right
      ensures Valid() && last in old(elems) && elems == old(elems) - {last} && nelts == old(nelts) - 1
    {
      ShrinkOrder(slots);
      last := Unlink();
    }

    // Puts x where node is and moves it down, then up.
    method PutFor(node: Node, x: Node)
      requires Valid() && node in elems && x !in elems
      modifies this`min, this`slots, this`elems, elems`left, elems`right, elems`parent, elems`idx, x`left, x`right,
        x`parent, x`idx
      ensures Valid() && elems == old(elems) - {node} + {x}
    {
      ReplaceOrder(slots, node.idx, x);
      Replace(node, x);
      SiftDown(x, true);
      SiftUp(x);
    }

    method Remove(node: Node?)
      requires Valid() && nelts < 0xFFFF_FFFF && (nelts > 0 ==> node != null && node in elems)
      modifies this, elems`left, elems`right, elems`parent, elems`idx
      ensures Valid() && elems == old(elems) - {node} && nelts == (if old(nelts) == 0 then 0 else old(nelts) - 1)
    {
      if nelts == 0 { return; }
      var child := Pop();
      if child == node {
        // The source then clears min if it is child; by now it never is.
        assert child != min;
        return;
      }
      PutFor(node, child);
    }

    method Dequeue()
      requires Valid() && nelts < 0xFFFF_FFFF
      modifies this, elems`left, elems`right, elems`parent, elems`idx
      ensures Valid() && elems == old(elems) - {old(min)} && (old(elems) == {} <==> old(min) == null)
    {
      Remove(min);
    }
  }


  lemma {:induction false} SizeOfDistinct(s: seq<Node>)
    requires forall i, j :: 0 <= i < j < |s| ==> s[i] != s[j]
    ensures |set i | 0 <= i < |s| :: s[i]| == |s|
  {
    if s != [] {
      var n, a := |s| - 1, set i | 0 <= i < |s| :: s[i];
      var b := set i | 0 <= i < n :: s[..n][i];
      SizeOfDistinct(s[..n]);
      assert forall i :: 0 <= i < n ==> s[..n][i] == s[i];
      assert a == b + {s[n]} && s[n] !in b;
    }
  }

  // The bits of n below its first, lowest bit last, and how many they are.
  method Path(n: nat) returns (path: nat, k: nat)
    requires 1 <= n < 0x1_0000_0000
    ensures path == Reversed(n, k) && Shift(n, k) == 1 && path < 0x1_0000_0000
  {
    var m := n;
    path, k := 0, 0;
    while m >= 2
      invariant m == Shift(n, k) >= 1 && path == Reversed(n, k) < 0x1_0000_0000
      decreases m
    {
      PathFits(n, k + 1);
      path := 2 * path + m % 2;
      k, m := k + 1, m / 2;
    }
  }

  // n >> k
  function Shift(n: nat, k: nat): nat { if k == 0 then n else Shift(n, k - 1) / 2 }

  // The k low bits of n, lowest first.
  function Reversed(n: nat, k: nat): nat { if k == 0 then 0 else Shift(n, k - 1) % 2 + 2 * Reversed(n, k - 1) }

  function Pow2(k: nat): nat { if k == 0 then 1 else 2 * Pow2(k - 1) }

  lemma {:induction false} ShiftLe(n: nat, k: nat)
    ensures Shift(n, k) <= n
  {
    if k > 0 { ShiftLe(n, k - 1); }
  }

  // The path of a 32-bit n needs no more than 32 bits.
  lemma PathFits(n: nat, k: nat)
    requires Shift(n, k) >= 1
    ensures Reversed(n, k) < n
  {
    ReversedSmall(n, k);
    ShiftPow(n, k);
    AtLeast(Shift(n, k), Pow2(k));
  }

  lemma AtLeast(a: nat, b: nat)
    requires a >= 1
    ensures b <= a * b
  {
  }

  lemma {:induction false} ReversedSmall(n: nat, k: nat)
    ensures Reversed(n, k) < Pow2(k)
  {
    if k > 0 { ReversedSmall(n, k - 1); }
  }

  lemma {:induction false} ShiftPow(n: nat, k: nat)
    ensures Shift(n, k) * Pow2(k) <= n
  {
    if k > 0 {
      ShiftPow(n, k - 1);
      HalfTimes(Shift(n, k), Pow2(k - 1), Shift(n, k - 1), n);
    }
  }

  lemma HalfTimes(a: nat, b: nat, c: nat, n: nat)
    requires 2 * a <= c && c * b <= n
    ensures a * (2 * b) <= n
  {
    assert a * (2 * b) == (2 * a) * b <= c * b;
  }
}
