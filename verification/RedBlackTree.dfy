// The intrusive red-black tree of include/tree.h, on real nodes updated in place.
module RedBlackTree {

  datatype Dir = Left | Right

  function Flip(d: Dir): Dir { if d.Left? then Right else Left }

  class Node {
    const key: int
    var left: Node?
    var right: Node?
    var parent: Node?
    var red: bool

    // Ghost bookkeeping: the node's in-order index, the half-open in-order
    // interval [lo, hi) its subtree occupies, and the subtree's black height.
    ghost var pos: int
    ghost var lo: int
    ghost var hi: int
    ghost var bh: int

    constructor (key: int)
      ensures this.key == key
    {
      this.key := key;
    }

    function Child(d: Dir): Node?
      reads this`left, this`right
    {
      if d.Left? then left else right
    }
  }

  predicate IsRed(n: Node?)
    reads n
  {
    n != null && n.red
  }

  ghost function Bh(n: Node?): int
    reads n
  {
    if n == null then 0 else n.bh
  }

  // ---------- what each node satisfies by itself ----------

  ghost predicate Span(n: Node, repr: set<Node>)
    reads n`left, n`right, n`lo, n`hi, n`pos, repr`lo, repr`hi
  {
    && (n.left != null ==> n.left in repr) && (n.right != null ==> n.right in repr)
    && n.lo <= n.pos < n.hi
    && (n.left == null <==> n.lo == n.pos)
    && (n.right == null <==> n.pos + 1 == n.hi)
    && (n.left != null ==> n.left.lo == n.lo && n.left.hi == n.pos)
    && (n.right != null ==> n.right.lo == n.pos + 1 && n.right.hi == n.hi)
  }

  // A deletion in progress: the subtree on side d of n is one black node short.
  datatype Debt = NoDebt | Debt(n: Node, d: Dir)

  ghost function Owed(n: Node, d: Dir, w: Debt): int {
    if w == Debt(n, d) then 1 else 0
  }

  // n's black height is right, given the black heights of its children.
  ghost predicate Balanced(n: Node, w: Debt, repr: set<Node>)
    reads n, repr
  {
    && (n.left != null ==> n.left in repr) && (n.right != null ==> n.right in repr)
    && Bh(n.left) + Owed(n, Left, w) == Bh(n.right) + Owed(n, Right, w)
    && n.bh == Bh(n.left) + Owed(n, Left, w) + (if n.red then 0 else 1) && 0 <= n.bh
  }

  // No red child under a red n, except possibly e.
  ghost predicate RedOk(n: Node, e: Node?, repr: set<Node>)
    reads n, repr
  {
    && (n.left != null ==> n.left in repr) && (n.right != null ==> n.right in repr)
    && (n.red && n.left != e ==> !IsRed(n.left)) && (n.red && n.right != e ==> !IsRed(n.right))
  }

  twostate predicate SameColor(n: Node)
    reads n
  {
    n.red == old(n.red) && n.bh == old(n.bh)
  }

  twostate predicate SameColorButFor(repr: set<Node>, a: Node?, b: Node?, c: Node?)
    reads repr
  {
    forall m {:trigger SameColor(m)} | m in repr :: m == a || m == b || m == c || SameColor(m)
  }

  twostate predicate SameLinks(n: Node)
    reads n
  {
    n.left == old(n.left) && n.right == old(n.right) && n.parent == old(n.parent)
    && n.lo == old(n.lo) && n.hi == old(n.hi) && n.pos == old(n.pos)
  }

  twostate predicate SameButFor(repr: set<Node>, a: Node?, b: Node?, c: Node?, d: Node?)
    reads repr
  {
    forall m {:trigger SameLinks(m)} | m in repr :: m == a || m == b || m == c || m == d || SameLinks(m)
  }

  twostate predicate Turned(elm: Node, tmp: Node, d: Dir, c: Node?, g: Node?)
    reads elm, tmp, c, g
  {
    && elm.Child(d) == old(elm.Child(d)) && elm.Child(Flip(d)) == c && elm.parent == tmp
    && tmp.Child(d) == elm && tmp.Child(Flip(d)) == old(tmp.Child(Flip(d))) && tmp.parent == g
    && (c != null ==> c.left == old(c.left) && c.right == old(c.right) && c.parent == elm)
    && (g != null ==> g.parent == old(g.parent))
    && (g != null && old(g.left) == elm ==> g.left == tmp && g.right == old(g.right))
    && (g != null && old(g.left) != elm ==> g.left == old(g.left) && g.right == tmp)
  }

  twostate predicate TurnedSpans(elm: Node, tmp: Node, d: Dir, c: Node?, g: Node?)
    reads elm, tmp, c, g
  {
    && elm.pos == old(elm.pos) && tmp.pos == old(tmp.pos)
    && elm.lo == (if d.Left? then old(elm.lo) else tmp.pos + 1)
    && elm.hi == (if d.Left? then tmp.pos else old(elm.hi))
    && tmp.lo == old(elm.lo) && tmp.hi == old(elm.hi)
    && (c != null ==> c.lo == old(c.lo) && c.hi == old(c.hi) && c.pos == old(c.pos))
    && (g != null ==> g.lo == old(g.lo) && g.hi == old(g.hi) && g.pos == old(g.pos))
  }

  ghost predicate Sorted(nodes: seq<Node>) {
    forall i, j :: 0 <= i < j < |nodes| ==> nodes[i].key < nodes[j].key
  }

  // The nodes around one rotation of elm.
  datatype Site = Site(elm: Node, tmp: Node, d: Dir, c: Node?, g: Node?)

  // A new leaf elm on side d of parent, taking in-order index q.
  datatype Slot = Slot(elm: Node, parent: Node?, d: Dir, q: int)

  // Where interval bounds go when index q is opened up on side d of its parent.
  function Open(b: int, q: int, d: Dir): int {
    if b > q || (b == q && d.Right?) then b + 1 else b
  }

  twostate predicate Opened(n: Node, q: int, d: Dir)
    reads n
  {
    && n.pos == (if old(n.pos) >= q then old(n.pos) + 1 else old(n.pos))
    && n.lo == Open(old(n.lo), q, d) && n.hi == Open(old(n.hi), q, d)
  }

  // Unlinking elm, whose only child, if any, is child, from side d of parent.
  datatype Cut = Cut(elm: Node, child: Node?, parent: Node?, d: Dir)

  // Where interval bounds go when index p is closed up.
  function Close(b: int, p: int): int { if b > p then b - 1 else b }

  twostate predicate Closed(n: Node, p: int)
    reads n
  {
    n.pos == Close(old(n.pos), p) && n.lo == Close(old(n.lo), p) && n.hi == Close(old(n.hi), p)
  }

  twostate predicate CutFrom(n: Node, k: Cut)
    reads n
  {
    && n.left == (if n == k.parent && k.d.Left? then k.child else old(n.left))
    && n.right == (if n == k.parent && k.d.Right? then k.child else old(n.right))
    && n.parent == (if n == k.child then k.parent else old(n.parent))
    && n.red == old(n.red) && n.bh == old(n.bh)
  }

  // elm takes over the place of old, which hangs on side d of parent.
  datatype Swap = Swap(old_: Node, elm: Node, parent: Node?, d: Dir)

  // How n's links change when old_ gives its place to elm; elm itself gets the links of old_.
  twostate predicate Relinked(n: Node, x: Swap, l: Node?, r: Node?)
    reads n
  {
    && n.left == (if n == x.parent && x.d.Left? then x.elm else old(n.left))
    && n.right == (if n == x.parent && x.d.Right? then x.elm else old(n.right))
    && n.parent == (if n == l || n == r then x.elm else old(n.parent))
    && n.red == old(n.red) && n.bh == old(n.bh) && n.pos == old(n.pos) && n.lo == old(n.lo) && n.hi == old(n.hi)
  }

  class Head {
    var root: Node?
    ghost var nodes: seq<Node>  // every member, in key order
    ghost var repr: set<Node>

    // ---------- shape ----------

    ghost predicate Links(n: Node)
      reads this, n`left, n`right, n`parent, repr`left, repr`right, repr`parent
    {
      && (n.left != null ==> n.left in repr && n.left.parent == n)
      && (n.right != null ==> n.right in repr && n.right.parent == n)
      && (n.left == n.right ==> n.left == null)
      && (n.parent == null <==> n == root)
      && (n.parent != null ==> n.parent in repr && (n.parent.left == n || n.parent.right == n))
    }

    ghost predicate Placed(n: Node)
      reads this, n`pos, n`lo, n`hi
    {
      0 <= n.lo <= n.pos < n.hi <= |nodes| && nodes[n.pos] == n
    }

    ghost predicate Indexed(i: int)
      requires 0 <= i < |nodes|
      reads this, repr`pos
    {
      nodes[i] in repr && nodes[i].pos == i
    }

    ghost predicate AllPlaced()
      reads this, repr`pos, repr`lo, repr`hi
    {
      && (forall i {:trigger Indexed(i)} :: 0 <= i < |nodes| ==> Indexed(i))
      && (forall n {:trigger Placed(n)} | n in repr :: Placed(n))
    }

    ghost predicate AllLinks()
      reads this, repr`left, repr`right, repr`parent
    {
      forall n {:trigger Links(n)} | n in repr :: Links(n)
    }

    ghost predicate AllSpans()
      reads this, repr`left, repr`right, repr`lo, repr`hi, repr`pos
    {
      forall n {:trigger Span(n, repr)} | n in repr :: Span(n, repr)
    }

    ghost predicate Shape()
      reads this, repr`left, repr`right, repr`parent, repr`lo, repr`hi, repr`pos
    {
      && AllPlaced() && AllLinks() && AllSpans()
      && (root == null <==> nodes == [])
      && (root != null ==> root in repr && root.lo == 0 && root.hi == |nodes|)
    }

    // ---------- rotation ----------

    // The nodes a rotation touches are members and pairwise different.
    ghost predicate Rotatable(elm: Node, tmp: Node, d: Dir, c: Node?, g: Node?)
      reads this, elm, tmp, c, g, repr
    {
      && elm in repr && tmp in repr && (c != null ==> c in repr) && (g != null ==> g in repr)
      && Links(elm) && Links(tmp) && (c != null ==> Links(c)) && (g != null ==> Links(g))
      && elm.Child(Flip(d)) == tmp && tmp.Child(d) == c && elm.parent == g
      && elm != tmp && c != tmp && c != elm && g != elm && g != tmp && (g != null ==> g != c)
    }

    lemma CanRotate(elm: Node, d: Dir)
      requires Shape() && elm in repr && elm.Child(Flip(d)) != null
      ensures Rotatable(elm, elm.Child(Flip(d)), d, elm.Child(Flip(d)).Child(d), elm.parent)
    {
      var tmp := elm.Child(Flip(d));
      assert Links(elm) && Span(elm, repr) && Links(tmp) && Span(tmp, repr);
      if elm.parent != null { assert Links(elm.parent) && Span(elm.parent, repr); }
      var c := tmp.Child(d);
      if c != null { assert Links(c) && Span(c, repr); }
    }

    // RB_ROTATE_LEFT (d == Left) and RB_ROTATE_RIGHT (d == Right): elm moves down
    // to side d and its child on the other side takes its place.
    method RotateLinks(elm: Node, d: Dir) returns (tmp: Node)
      requires elm.Child(Flip(d)) != null && elm.parent != elm
      requires elm.Child(Flip(d)) != elm && elm.Child(Flip(d)).Child(d) != elm
        && elm.Child(Flip(d)).Child(d) != elm.Child(Flip(d))
      requires elm.parent != null ==> elm.parent !in {elm.Child(Flip(d)), elm.Child(Flip(d)).Child(d)}
      modifies this`root
      modifies {elm, elm.Child(Flip(d)), elm.Child(Flip(d)).Child(d), elm.parent}`left
      modifies {elm, elm.Child(Flip(d)), elm.Child(Flip(d)).Child(d), elm.parent}`right
      modifies {elm, elm.Child(Flip(d)), elm.Child(Flip(d)).Child(d), elm.parent}`parent
      modifies {elm, elm.Child(Flip(d))}`lo, {elm, elm.Child(Flip(d))}`hi
      ensures tmp == old(elm.Child(Flip(d)))
      ensures root == if old(elm.parent) == null then tmp else old(root)
      ensures Turned(elm, tmp, d, old(tmp.Child(d)), old(elm.parent))
      ensures TurnedSpans(elm, tmp, d, old(tmp.Child(d)), old(elm.parent))
    {
      if d.Left? {
        tmp := elm.right;
        elm.right := tmp.left;
        if tmp.left != null { tmp.left.parent := elm; }
      } else {
        tmp := elm.left;
        elm.left := tmp.right;
        if tmp.right != null { tmp.right.parent := elm; }
      }
      tmp.parent := elm.parent;
      if tmp.parent != null {
        if elm == elm.parent.left {
          elm.parent.left := tmp;
        } else {
          elm.parent.right := tmp;
        }
      } else {
        root := tmp;
      }
      if d.Left? { tmp.left := elm; } else { tmp.right := elm; }
      elm.parent := tmp;

      tmp.lo, tmp.hi := elm.lo, elm.hi;
      if d.Left? { elm.hi := tmp.pos; } else { elm.lo := tmp.pos + 1; }
    }

    twostate lemma LinksAfterTurn(s: Site)
      requires old(Rotatable(s.elm, s.tmp, s.d, s.c, s.g)) && Turned(s.elm, s.tmp, s.d, s.c, s.g)
      requires repr == old(repr) && root == (if s.g == null then s.tmp else old(root))
      requires SameButFor(repr, s.elm, s.tmp, s.c, s.g)
      requires old(AllLinks())
      ensures AllLinks()
    {
      forall n | n in repr
        ensures Links(n)
      {
        assert old(Links(n)) && (n in {s.elm, s.tmp, s.c, s.g} || SameLinks(n));
        if n.left != null { assert n.left in {s.elm, s.tmp, s.c, s.g} || SameLinks(n.left); }
        if n.right != null { assert n.right in {s.elm, s.tmp, s.c, s.g} || SameLinks(n.right); }
        if n.parent != null { assert n.parent in {s.elm, s.tmp, s.c, s.g} || SameLinks(n.parent); }
      }
    }

    twostate lemma SpansAfterTurn(s: Site)
      requires old(Rotatable(s.elm, s.tmp, s.d, s.c, s.g)) && Turned(s.elm, s.tmp, s.d, s.c, s.g)
        && TurnedSpans(s.elm, s.tmp, s.d, s.c, s.g)
      requires repr == old(repr)
      requires SameButFor(repr, s.elm, s.tmp, s.c, s.g)
      requires old(AllLinks()) && old(AllSpans())
      ensures AllSpans()
    {
      assert old(Span(s.elm, repr)) && old(Span(s.tmp, repr));
      forall n | n in repr
        ensures Span(n, repr)
      {
        assert old(Links(n)) && old(Span(n, repr)) && (n in {s.elm, s.tmp, s.c, s.g} || SameLinks(n));
        if old(n.left) != null { assert old(n.left) in {s.elm, s.tmp, s.c, s.g} || SameLinks(old(n.left)); }
        if old(n.right) != null { assert old(n.right) in {s.elm, s.tmp, s.c, s.g} || SameLinks(old(n.right)); }
      }
    }

    twostate lemma PlacedAfterTurn(s: Site)
      requires old(Rotatable(s.elm, s.tmp, s.d, s.c, s.g)) && TurnedSpans(s.elm, s.tmp, s.d, s.c, s.g)
      requires repr == old(repr) && nodes == old(nodes)
      requires SameButFor(repr, s.elm, s.tmp, s.c, s.g)
      requires old(AllPlaced()) && old(AllSpans())
      ensures AllPlaced()
    {
      assert old(Span(s.elm, repr)) && old(Placed(s.elm)) && old(Placed(s.tmp));
      assert old(Span(s.tmp, repr));
      forall n | n in repr ensures Placed(n) {
        assert old(Placed(n)) && (n in {s.elm, s.tmp, s.c, s.g} || SameLinks(n));
      }
      forall i | 0 <= i < |nodes| ensures Indexed(i) {
        assert old(Indexed(i)) && Placed(nodes[i]) && (nodes[i] in {s.elm, s.tmp, s.c, s.g} || SameLinks(nodes[i]));
      }
    }

    method Rotate(elm: Node, d: Dir) returns (tmp: Node)
      requires Shape() && elm in repr && elm.Child(Flip(d)) != null
      modifies this`root, repr`left, repr`right, repr`parent, repr`lo, repr`hi
      ensures Shape() && tmp in repr
      ensures tmp == old(elm.Child(Flip(d)))
      ensures root == if old(elm.parent) == null then tmp else old(root)
      ensures Turned(elm, tmp, d, old(tmp.Child(d)), old(elm.parent))
      ensures TurnedSpans(elm, tmp, d, old(tmp.Child(d)), old(elm.parent))
      ensures SameButFor(repr, elm, tmp, old(tmp.Child(d)), old(elm.parent))
    {
      CanRotate(elm, d);
      ghost var c, g := elm.Child(Flip(d)).Child(d), elm.parent;
      tmp := RotateLinks(elm, d);
      LinksAfterTurn(Site(elm, tmp, d, c, g));
      SpansAfterTurn(Site(elm, tmp, d, c, g));
      PlacedAfterTurn(Site(elm, tmp, d, c, g));
    }

    // ---------- colours ----------

    ghost predicate AllBalanced(w: Debt)
      reads this, repr
    {
      forall n {:trigger Balanced(n, w, repr)} | n in repr :: Balanced(n, w, repr)
    }

    ghost predicate AllRedOk(e: Node?)
      reads this, repr
    {
      forall n {:trigger RedOk(n, e, repr)} | n in repr :: RedOk(n, e, repr)
    }

    // ---------- RB_INSERT_COLOR ----------

    // elm is red and may sit under a red parent; everything else is in order.
    ghost predicate Inserting(elm: Node)
      reads this, repr
    {
      && Shape() && AllBalanced(NoDebt) && AllRedOk(elm)
      && elm in repr && elm.red && root != null && (root != elm ==> !root.red)
    }

    // The grandparent exists and is black when the parent is red.
    lemma Grandparent(elm: Node)
      requires Inserting(elm) && elm.parent != null && elm.parent.red
      ensures elm.parent in repr && elm.parent.parent in repr && !elm.parent.parent.red
      ensures elm.parent.left == elm || elm.parent.right == elm
      ensures elm.parent.parent.left == elm.parent || elm.parent.parent.right == elm.parent
      ensures elm.parent.parent.left != elm.parent.parent.right
      ensures root !in {elm, elm.parent} && (root == elm.parent.parent <==> elm.parent.parent.parent == null)
      ensures elm != elm.parent.parent && elm != elm.parent.parent.parent
      ensures elm.parent.left != elm.parent.right
        && elm.parent.parent !in {elm.parent.parent.left, elm.parent.parent.right}
      ensures forall s :: elm.parent.parent.Child(s) != null ==> elm.parent.parent.Child(s) in repr
      ensures elm.lo >= elm.parent.parent.lo && elm.hi <= elm.parent.parent.hi
        && elm.hi - elm.lo < elm.parent.parent.hi - elm.parent.parent.lo
    {
      assert Links(elm) && Links(elm.parent);
      assert Span(elm.parent, repr);
      var g := elm.parent.parent;
      assert Links(g) && Span(g, repr) && RedOk(g, elm, repr) && Span(elm, repr);
      if g.parent != null { assert Links(g.parent) && Span(g.parent, repr); }
    }

    twostate lemma RecoloredBalance(f: Site)
      requires repr == old(repr) && old(AllLinks()) && SameButFor(repr, null, null, null, null)
      requires old(AllBalanced(NoDebt))
      requires f.elm in repr && f.tmp in repr && f.g in repr && f.elm != f.tmp
      requires f.elm.parent == f.g && f.tmp.parent == f.g
      requires f.g != f.elm && f.g != f.tmp
      requires old(f.elm.red && f.tmp.red && !f.g.red) && !f.elm.red && !f.tmp.red && f.g.red
      requires f.elm.bh == old(f.elm.bh) + 1 && f.tmp.bh == old(f.tmp.bh) + 1 && f.g.bh == old(f.g.bh)
      requires SameColorButFor(repr, f.elm, f.tmp, f.g)
      ensures AllBalanced(NoDebt)
    {
      assert SameLinks(f.elm) && SameLinks(f.tmp) && old(Links(f.elm)) && old(Links(f.tmp)) && SameLinks(f.g);
      assert old(Balanced(f.elm, NoDebt, repr)) && old(Balanced(f.tmp, NoDebt, repr));
      forall n | n in repr
        ensures Balanced(n, NoDebt, repr)
      {
        assert SameLinks(n) && old(Links(n)) && old(Balanced(n, NoDebt, repr))
          && (n in {f.elm, f.tmp, f.g} || SameColor(n));
        if n.left != null { assert SameLinks(n.left) && (n.left in {f.elm, f.tmp, f.g} || SameColor(n.left)); }
        if n.right != null { assert SameLinks(n.right) && (n.right in {f.elm, f.tmp, f.g} || SameColor(n.right)); }
      }
    }

    twostate lemma RecoloredRed(f: Site)
      requires repr == old(repr) && old(AllLinks()) && SameButFor(repr, null, null, null, null)
      requires f.elm in repr && f.tmp in repr && f.g in repr && f.elm != f.tmp
      requires f.elm.parent == f.g && f.tmp.parent == f.g
      requires old(f.elm.red && f.tmp.red && !f.g.red) && !f.elm.red && !f.tmp.red && f.g.red
      requires SameColorButFor(repr, f.elm, f.tmp, f.g)
      requires f.c != null && f.c in repr && f.c.parent == f.elm && old(AllRedOk(f.c))
      ensures AllRedOk(f.g)
    {
      assert SameLinks(f.elm) && SameLinks(f.tmp) && old(Links(f.elm)) && old(Links(f.tmp)) && SameLinks(f.g);
      assert old(Links(f.c)) && SameLinks(f.c);
      forall n | n in repr
        ensures RedOk(n, f.g, repr)
      {
        assert SameLinks(n) && old(Links(n)) && old(RedOk(n, f.c, repr)) && (n in {f.elm, f.tmp, f.g} || SameColor(n));
        if n.left != null { assert SameLinks(n.left) && (n.left in {f.elm, f.tmp, f.g} || SameColor(n.left)); }
        if n.right != null { assert SameLinks(n.right) && (n.right in {f.elm, f.tmp, f.g} || SameColor(n.right)); }
      }
    }

    // Rotating a red child s.tmp above its red parent s.elm only moves the violation down.
    twostate lemma InnerBalance(s: Site)
      requires old(Rotatable(s.elm, s.tmp, s.d, s.c, s.g)) && Turned(s.elm, s.tmp, s.d, s.c, s.g)
      requires repr == old(repr) && SameButFor(repr, s.elm, s.tmp, s.c, s.g) && SameColorButFor(repr, null, null, null)
      requires old(s.elm.red && s.tmp.red)
      requires old(AllLinks()) && old(AllBalanced(NoDebt))
      ensures AllBalanced(NoDebt)
    {
      assert old(Balanced(s.elm, NoDebt, repr)) && old(Balanced(s.tmp, NoDebt, repr));
      forall n | n in repr
        ensures Balanced(n, NoDebt, repr)
      {
        assert old(Links(n)) && old(Balanced(n, NoDebt, repr)) && (n in {s.elm, s.tmp, s.c, s.g} || SameLinks(n))
          && SameColor(n);
        if n.left != null { assert SameColor(n.left); }
        if n.right != null { assert SameColor(n.right); }
      }
    }

    twostate lemma InnerRed(s: Site)
      requires old(Rotatable(s.elm, s.tmp, s.d, s.c, s.g)) && Turned(s.elm, s.tmp, s.d, s.c, s.g)
      requires repr == old(repr) && SameButFor(repr, s.elm, s.tmp, s.c, s.g) && SameColorButFor(repr, null, null, null)
      requires old(s.elm.red && s.tmp.red && !IsRed(s.g))
      requires old(AllLinks()) && old(AllRedOk(s.tmp))
      ensures AllRedOk(s.elm)
    {
      assert old(RedOk(s.elm, s.tmp, repr)) && old(RedOk(s.tmp, s.tmp, repr));
      forall n | n in repr
        ensures RedOk(n, s.elm, repr)
      {
        assert old(Links(n)) && old(RedOk(n, s.tmp, repr)) && (n in {s.elm, s.tmp, s.c, s.g} || SameLinks(n))
          && SameColor(n);
        if n.left != null { assert SameColor(n.left); }
        if n.right != null { assert SameColor(n.right); }
      }
    }

    // Rotating the red parent s.tmp above the black grandparent s.elm and exchanging
    // their colours ends the violation at e.
    twostate predicate OuterColors(s: Site)
      reads s.elm, s.tmp
    {
      && old(s.tmp.red && !s.elm.red) && !s.tmp.red && s.elm.red
      && s.tmp.bh == old(s.elm.bh) && s.elm.bh == old(s.tmp.bh)
    }

    // A debt on side s.d of s.elm, or away from the two nodes, stays where it is.
    twostate lemma OuterBalance(s: (Site, Debt))
      requires old(Rotatable(s.0.elm, s.0.tmp, s.0.d, s.0.c, s.0.g)) && Turned(s.0.elm, s.0.tmp, s.0.d, s.0.c, s.0.g)
      requires repr == old(repr) && SameButFor(repr, s.0.elm, s.0.tmp, s.0.c, s.0.g)
      requires OuterColors(s.0) && SameColorButFor(repr, s.0.elm, s.0.tmp, null)
      requires s.1.Debt? ==> s.1.n != s.0.tmp && (s.1.n == s.0.elm ==> s.1.d == s.0.d)
      requires old(AllLinks()) && old(AllBalanced(s.1))
      ensures AllBalanced(s.1)
    {
      var (elm, tmp, c, g, w) := (s.0.elm, s.0.tmp, s.0.c, s.0.g, s.1);
      assert Balanced(elm, w, repr) && Balanced(tmp, w, repr) by {
        assert old(Balanced(elm, w, repr)) && old(Balanced(tmp, w, repr)) && old(Links(elm)) && old(Links(tmp));
        if elm.left != null { assert elm.left == tmp || SameColor(elm.left); }
        if elm.right != null { assert elm.right == tmp || SameColor(elm.right); }
        if tmp.left != null { assert tmp.left == elm || SameColor(tmp.left); }
        if tmp.right != null { assert tmp.right == elm || SameColor(tmp.right); }
      }
      forall n | n in repr && n != elm && n != tmp
        ensures Balanced(n, w, repr)
      {
        assert old(Links(n)) && old(Balanced(n, w, repr)) && (n in {c, g} || SameLinks(n)) && SameColor(n);
        if n.left != null { assert n.left in {elm, tmp} || SameColor(n.left); }
        if n.right != null { assert n.right in {elm, tmp} || SameColor(n.right); }
        assert old(Bh(n.left)) == Bh(n.left) && old(Bh(n.right)) == Bh(n.right);
      }
    }

    twostate lemma OuterRed(s: (Site, Node))
      requires old(Rotatable(s.0.elm, s.0.tmp, s.0.d, s.0.c, s.0.g)) && Turned(s.0.elm, s.0.tmp, s.0.d, s.0.c, s.0.g)
      requires repr == old(repr) && SameButFor(repr, s.0.elm, s.0.tmp, s.0.c, s.0.g) && OuterColors(s.0)
        && SameColorButFor(repr, s.0.elm, s.0.tmp, null)
      requires s.1 in repr && old(s.1.parent) == s.0.tmp && old(s.0.tmp.Child(s.0.d)) != s.1 && old(s.1.red)
      requires !IsRed(old(s.0.elm.Child(s.0.d))) && old(!IsRed(s.0.elm.Child(s.0.d)))
      requires old(AllLinks()) && old(AllRedOk(s.1))
      ensures AllRedOk(null) && AllRedOk(s.1)
    {
      var (elm, tmp, c, g) := (s.0.elm, s.0.tmp, s.0.c, s.0.g);
      assert old(RedOk(elm, s.1, repr)) && old(RedOk(tmp, s.1, repr)) && old(Links(s.1)) && old(Links(elm))
        && old(Links(tmp));
      forall n | n in repr
        ensures RedOk(n, null, repr) && RedOk(n, s.1, repr)
      {
        assert old(Links(n)) && old(RedOk(n, s.1, repr)) && (n in {elm, tmp, c, g} || SameLinks(n))
          && (n in {elm, tmp} || SameColor(n));
        if n.left != null { assert n.left in {elm, tmp} || SameColor(n.left); }
        if n.right != null { assert n.right in {elm, tmp} || SameColor(n.right); }
      }
    }

    method RecolorUncle(elm: Node, parent: Node, gparent: Node, tmp: Node)
      requires Inserting(elm) && elm.parent == parent && parent.red && parent.parent == gparent
      requires tmp in repr && tmp.parent == gparent && tmp != parent && tmp.red
      modifies repr`red, repr`bh
      ensures Inserting(gparent)
      ensures gparent.hi - gparent.lo > elm.hi - elm.lo
    {
      Grandparent(elm);
      tmp.red := false;
      parent.red, gparent.red := false, true;
      parent.bh, tmp.bh := parent.bh + 1, tmp.bh + 1;
      RecoloredBalance(Site(parent, tmp, Left, elm, gparent));
      RecoloredRed(Site(parent, tmp, Left, elm, gparent));
    }

    // elm becomes the middle key's other side: after this step elm and parent have changed roles.
    method InnerRotation(elm: Node, parent: Node, d: Dir)
      requires Inserting(elm) && elm.parent == parent && parent.red && parent.Child(Flip(d)) == elm
      modifies this`root, repr`left, repr`right, repr`parent, repr`lo, repr`hi
      ensures Inserting(parent) && parent.parent == elm && elm.red && elm.parent == old(parent.parent)
      ensures elm.Child(d) == parent
      ensures var g := old(parent.parent); g != null && (forall s ::
        g.Child(s) == (if old(parent.parent.Child(s)) == parent then elm else old(parent.parent.Child(s))))
    {
      Grandparent(elm);
      CanRotate(parent, d);
      ghost var c, g := elm.Child(d), parent.parent;
      var tmp := Rotate(parent, d);
      InnerBalance(Site(parent, elm, d, c, g));
      InnerRed(Site(parent, elm, d, c, g));
    }

    // RB_SET_BLACKRED(tmp, elm) followed by the rotation that puts the red child tmp above elm.
    method RotateRecolored(elm: Node, d: Dir) returns (tmp: Node)
      requires Shape() && elm in repr && !elm.red && IsRed(elm.Child(Flip(d)))
      modifies this`root, repr`left, repr`right, repr`parent, repr`lo, repr`hi, repr`red, repr`bh
      ensures Shape() && tmp in repr
      ensures tmp == old(elm.Child(Flip(d)))
      ensures root == if old(elm.parent) == null then tmp else old(root)
      ensures Turned(elm, tmp, d, old(tmp.Child(d)), old(elm.parent))
      ensures TurnedSpans(elm, tmp, d, old(tmp.Child(d)), old(elm.parent))
      ensures SameButFor(repr, elm, tmp, old(tmp.Child(d)), old(elm.parent))
      ensures OuterColors(Site(elm, tmp, d, null, null)) && SameColorButFor(repr, elm, tmp, null)
    {
      CanRotate(elm, d);
      tmp := elm.Child(Flip(d));
      ghost var c, g := tmp.Child(d), elm.parent;
      tmp.red, elm.red := false, true;
      tmp.bh, elm.bh := elm.bh, tmp.bh;
      label coloured:
      tmp := Rotate(elm, d);
      forall m | m in repr
        ensures m in {elm, tmp, c, g} || SameLinks(m)
      {
        assert m in {elm, tmp, c, g} || SameLinks@coloured(m);
      }
    }

    method OuterRotation(elm: Node, parent: Node, gparent: Node, d: Dir)
      requires Inserting(elm) && elm.parent == parent && parent.red && parent.parent == gparent
      requires gparent.Child(d) == parent && parent.Child(d) == elm && !IsRed(gparent.Child(Flip(d)))
      modifies this`root, repr`left, repr`right, repr`parent, repr`lo, repr`hi, repr`red, repr`bh
      ensures Inserting(elm) && elm.parent == parent && !parent.red
    {
      Grandparent(elm);
      CanRotate(gparent, Flip(d));
      ghost var c, g := parent.Child(Flip(d)), gparent.parent;
      ghost var uncle, top := gparent.Child(Flip(d)), root;
      assert g != null ==> top !in {gparent, parent};
      assert elm !in {gparent, parent, c, g} && uncle !in {gparent, parent};
      var tmp := RotateRecolored(gparent, Flip(d));
      assert SameLinks(elm) && SameColor(elm);
      assert uncle != null ==> SameColor(uncle);
      assert g != null ==> root == top && SameColor(root);
      OuterBalance((Site(gparent, parent, Flip(d), c, g), NoDebt));
      OuterRed((Site(gparent, parent, Flip(d), c, g), elm));
    }

    lemma NoViolationLeft(elm: Node)
      requires AllLinks() && AllRedOk(elm) && elm in repr && !IsRed(elm.parent)
      ensures AllRedOk(null)
    {
      forall n | n in repr ensures RedOk(n, null, repr) {
        assert RedOk(n, elm, repr) && Links(n);
      }
    }

    // RB_COLOR(root) = RB_BLACK keeps the rules; a red root grows by one in black height.
    twostate lemma BlackRoot(r: Node)
      requires root == old(root) == r && r in repr && repr == old(repr) && old(AllLinks())
        && SameButFor(repr, null, null, null, null)
      requires SameColorButFor(repr, r, null, null) && !r.red && r.bh == old(if r.red then r.bh + 1 else r.bh)
      requires old(AllBalanced(NoDebt) && AllRedOk(null))
      ensures AllBalanced(NoDebt) && AllRedOk(null)
    {
      assert old(Links(r)) && SameLinks(r);
      forall n | n in repr ensures Balanced(n, NoDebt, repr) && RedOk(n, null, repr) {
        assert old(Balanced(n, NoDebt, repr)) && old(RedOk(n, null, repr)) && old(Links(n)) && SameLinks(n)
          && (n == r || SameColor(n));
        if n.left != null { assert n.left != r && SameColor(n.left); }
        if n.right != null { assert n.right != r && SameColor(n.right); }
      }
    }

    method InsertColor(e: Node)
      requires Inserting(e)
      modifies this`root, repr`left, repr`right, repr`parent, repr`lo, repr`hi, repr`red, repr`bh
      ensures Shape() && AllBalanced(NoDebt) && AllRedOk(null) && !IsRed(root)
    {
      var elm: Node := e;
      while elm.parent != null && elm.parent.red
        invariant Inserting(elm)
        decreases IsRed(elm.parent), |nodes| - (elm.hi - elm.lo)
      {
        Grandparent(elm);
        assert Placed(elm.parent.parent);
        var parent := elm.parent;
        var gparent := parent.parent;
        var d := if parent == gparent.left then Left else Right;
        var tmp := gparent.Child(Flip(d));
        if tmp != null && tmp.red {
          assert Links(gparent);
          RecolorUncle(elm, parent, gparent, tmp);
          elm := gparent;
          continue;
        }
        if parent.Child(Flip(d)) == elm {
          InnerRotation(elm, parent, d);
          parent, elm := elm, parent;
        }
        OuterRotation(elm, parent, gparent, d);
      }
      NoViolationLeft(elm);
      label done:
      root.bh := if root.red then root.bh + 1 else root.bh;
      root.red := false;
      BlackRoot@done(root);
    }

    // ---------- RB_INSERT ----------

    ghost predicate Valid()
      reads this, repr
    {
      Shape() && AllBalanced(NoDebt) && AllRedOk(null) && !IsRed(root) && Sorted(nodes)
    }

    // [a, b) is the run of members the search has not excluded; it is the subtree at tmp,
    // which hangs on side d of parent.
    ghost predicate Gap(parent: Node?, d: Dir, tmp: Node?, a: int, b: int)
      reads this, parent, tmp
    {
      && 0 <= a <= b <= |nodes| && (tmp == null <==> a == b)
      && (tmp != null ==> tmp in repr && tmp.lo == a && tmp.hi == b)
      && (parent == null ==> tmp == root && a == 0 && b == |nodes|)
      && (parent != null ==> parent in repr && parent.Child(d) == tmp)
      && (parent != null ==> a == (if d.Left? then parent.lo else parent.pos + 1))
      && (parent != null ==> b == (if d.Left? then parent.pos else parent.hi))
    }

    ghost predicate Brackets(a: int, b: int, key: int)
      reads this
      requires 0 <= a <= b <= |nodes|
    {
      (forall i :: 0 <= i < a ==> nodes[i].key < key) && (forall i :: b <= i < |nodes| ==> key < nodes[i].key)
    }

    lemma Descend(tmp: Node, d: Dir, a: int, b: int)
      requires Shape() && tmp in repr && a == tmp.lo && b == tmp.hi
      ensures Gap(tmp, d, tmp.Child(d), if d.Left? then a else tmp.pos + 1, if d.Left? then tmp.pos else b)
      ensures 0 <= a <= tmp.pos < b <= |nodes| && nodes[tmp.pos] == tmp
    {
      assert Placed(tmp) && Span(tmp, repr);
      if tmp.Child(d) != null { assert Span(tmp.Child(d), repr); }
    }

    // The search loop shared by RB_INSERT, RB_FIND and RB_NFIND.
    method Search(key: int) returns (parent: Node?, d: Dir, tmp: Node?, ghost q: int)
      requires Shape() && Sorted(nodes)
      ensures tmp != null ==> tmp in repr && tmp.key == key
      ensures tmp == null ==> Gap(parent, d, null, q, q) && Brackets(q, q, key)
    {
      tmp, parent, d := root, null, Left;
      ghost var a, b := 0, |nodes|;
      while tmp != null
        invariant Gap(parent, d, tmp, a, b) && Brackets(a, b, key)
        decreases b - a
      {
        parent := tmp;
        if key < parent.key {
          d := Left;
        } else if parent.key < key {
          d := Right;
        } else {
          q := a;
          return;
        }
        Descend(tmp, d, a, b);
        a, b := if d.Left? then a else tmp.pos + 1, if d.Left? then tmp.pos else b;
        tmp := tmp.Child(d);
      }
      q := a;
    }

    ghost predicate Attachable(s: Slot)
      reads this, s.parent
    {
      s.elm !in repr && Gap(s.parent, s.d, null, s.q, s.q)
    }

    twostate predicate Attached(s: Slot)
      reads this, repr, s.elm
    {
      var elm := s.elm;
      && repr == old(repr) + {elm} && 0 <= s.q <= |old(nodes)| && nodes == old(nodes)[..s.q] + [elm] + old(nodes)[s.q..]
      && root == (if s.parent == null then elm else old(root))
      && elm.left == null && elm.right == null && elm.parent == s.parent && elm.red && elm.bh == 0
      && elm.pos == s.q && elm.lo == s.q && elm.hi == s.q + 1
    }

    // Apart from the one link to elm, no node of the old tree moves.
    twostate predicate AttachedTo(n: Node, s: Slot)
      reads n
    {
      && n.parent == old(n.parent) && n.red == old(n.red) && n.bh == old(n.bh)
      && n.left == (if n == s.parent && s.d.Left? then s.elm else old(n.left))
      && n.right == (if n == s.parent && s.d.Right? then s.elm else old(n.right))
    }

    twostate predicate AllAttached(s: Slot)
      reads this, repr
    {
      && old(repr) <= repr
      && (forall n {:trigger AttachedTo(n, s)} | n in old(repr) :: AttachedTo(n, s))
      && (forall n {:trigger Opened(n, s.q, s.d)} | n in old(repr) :: Opened(n, s.q, s.d))
    }

    twostate lemma LinksAfterAttach(s: Slot)
      requires old(Attachable(s)) && Attached(s) && AllAttached(s)
      requires old(AllLinks()) && old(AllPlaced()) && (old(root) == null || old(root) in old(repr))
      ensures AllLinks()
    {
      forall n | n in repr
        ensures Links(n)
      {
        if n == s.elm {
          if s.parent != null { assert AttachedTo(s.parent, s) && old(Links(s.parent)); }
        } else {
          assert AttachedTo(n, s) && old(Links(n)) && old(Placed(n));
          if n.left != null && n.left != s.elm { assert AttachedTo(n.left, s); }
          if n.right != null && n.right != s.elm { assert AttachedTo(n.right, s); }
          if n.parent != null { assert AttachedTo(n.parent, s); }
        }
      }
    }

    twostate lemma SpansAfterAttach(s: Slot)
      requires old(Attachable(s)) && Attached(s) && AllAttached(s)
      requires old(AllLinks()) && old(AllSpans()) && old(AllPlaced())
      ensures AllSpans()
    {
      if s.parent != null { assert old(Span(s.parent, repr)) && old(Placed(s.parent)); }
      forall n | n in repr
        ensures Span(n, repr)
      {
        if n != s.elm {
          assert AttachedTo(n, s) && Opened(n, s.q, s.d) && old(Span(n, repr)) && old(Links(n)) && old(Placed(n));
          if n.left != null && n.left != s.elm { assert Opened(n.left, s.q, s.d) && old(Placed(n.left)); }
          if n.right != null && n.right != s.elm { assert Opened(n.right, s.q, s.d) && old(Placed(n.right)); }
        }
      }
    }

    twostate lemma PlacedAfterAttach(s: Slot)
      requires old(Attachable(s)) && Attached(s) && AllAttached(s)
      requires old(AllPlaced()) && old(AllSpans())
      ensures AllPlaced()
    {
      forall n | n in repr
        ensures Placed(n)
      {
        if n != s.elm { assert Opened(n, s.q, s.d) && old(Placed(n)) && old(Span(n, repr)); }
      }
      forall i | 0 <= i < |nodes|
        ensures Indexed(i)
      {
        if i < s.q { assert old(Indexed(i)) && Opened(nodes[i], s.q, s.d); }
        if i > s.q { assert old(Indexed(i - 1)) && Opened(nodes[i], s.q, s.d); }
      }
    }

    twostate lemma RootAfterAttach(s: Slot)
      requires old(Attachable(s)) && Attached(s) && AllAttached(s)
      requires old(Shape()) && old(!IsRed(root))
      ensures root in repr && root.lo == 0 && root.hi == |nodes| && nodes != [] && (root != s.elm ==> !root.red)
    {
      if s.parent != null {
        assert old(Placed(s.parent)) && old(Span(s.parent, repr)) && Opened(root, s.q, s.d) && AttachedTo(root, s);
      }
    }

    twostate lemma ColorsAfterAttach(s: Slot)
      requires old(Attachable(s)) && Attached(s) && AllAttached(s)
      requires old(AllLinks()) && old(AllBalanced(NoDebt)) && old(AllRedOk(null))
      ensures AllBalanced(NoDebt) && AllRedOk(s.elm)
    {
      forall n | n in repr
        ensures Balanced(n, NoDebt, repr) && RedOk(n, s.elm, repr)
      {
        if n != s.elm {
          assert AttachedTo(n, s) && old(Balanced(n, NoDebt, repr)) && old(RedOk(n, null, repr)) && old(Links(n));
          if n.left != null && n.left != s.elm { assert AttachedTo(n.left, s); }
          if n.right != null && n.right != s.elm { assert AttachedTo(n.right, s); }
        }
      }
    }

    // Opens index s.q for s.elm in the bookkeeping.
    ghost method OpenIndex(s: Slot)
      requires s.elm !in repr && 0 <= s.q <= |nodes|
      modifies this`nodes, this`repr, repr`pos, repr`lo, repr`hi, s.elm`pos, s.elm`lo, s.elm`hi, s.elm`bh
      ensures repr == old(repr) + {s.elm} && nodes == old(nodes)[..s.q] + [s.elm] + old(nodes)[s.q..]
      ensures s.elm.pos == s.q && s.elm.lo == s.q && s.elm.hi == s.q + 1 && s.elm.bh == 0
      ensures forall n | n in old(repr) :: Opened(n, s.q, s.d)
    {
      forall n | n in repr { n.pos := if n.pos >= s.q then n.pos + 1 else n.pos; }
      forall n | n in repr { n.lo := Open(n.lo, s.q, s.d); }
      forall n | n in repr { n.hi := Open(n.hi, s.q, s.d); }
      s.elm.pos, s.elm.lo, s.elm.hi, s.elm.bh := s.q, s.q, s.q + 1, 0;
      nodes, repr := nodes[..s.q] + [s.elm] + nodes[s.q..], repr + {s.elm};
    }

    // RB_SET and the link from the parent.
    method AttachLinks(elm: Node, parent: Node?, d: Dir, ghost q: int)
      requires Attachable(Slot(elm, parent, d, q))
      modifies this, repr`left, repr`right, repr`pos, repr`lo, repr`hi, elm
      ensures Attached(Slot(elm, parent, d, q)) && AllAttached(Slot(elm, parent, d, q))
    {
      elm.parent := parent;
      elm.left, elm.right := null, null;
      elm.red := true;
      if parent != null {
        if d.Left? { parent.left := elm; } else { parent.right := elm; }
      } else {
        root := elm;
      }
      OpenIndex(Slot(elm, parent, d, q));
    }

    method Attach(elm: Node, parent: Node?, d: Dir, ghost q: int)
      requires Shape() && AllBalanced(NoDebt) && AllRedOk(null) && !IsRed(root) && Attachable(Slot(elm, parent, d, q))
      modifies this, repr, elm
      ensures Attached(Slot(elm, parent, d, q)) && Inserting(elm)
    {
      ghost var s := Slot(elm, parent, d, q);
      AttachLinks(elm, parent, d, q);
      LinksAfterAttach(s);
      SpansAfterAttach(s);
      PlacedAfterAttach(s);
      ColorsAfterAttach(s);
      RootAfterAttach(s);
    }

    // ---------- RB_REMOVE: unlinking ----------

    ghost predicate Cuttable(k: Cut)
      reads this, k.elm, k.parent
    {
      && k.elm in repr && k.elm.parent == k.parent
        && (k.parent != null ==> k.parent in repr && k.parent.Child(k.d) == k.elm)
      && ((k.elm.left == null && k.child == k.elm.right) || (k.elm.right == null && k.child == k.elm.left))
    }

    twostate predicate AllCut(k: Cut)
      reads this, repr
    {
      var p := old(k.elm.pos);
      && repr == old(repr) - {k.elm} && 0 <= p < |old(nodes)| && nodes == old(nodes)[..p] + old(nodes)[p + 1..]
      && root == (if k.parent == null then k.child else old(root))
      && (forall n {:trigger CutFrom(n, k)} | n in repr :: CutFrom(n, k))
      && (forall n {:trigger Closed(n, p)} | n in repr :: Closed(n, p))
    }

    twostate lemma LinksAfterCut(k: Cut)
      requires old(Cuttable(k)) && AllCut(k)
      requires old(AllLinks())
      ensures AllLinks()
    {
      assert old(Links(k.elm));
      forall n | n in repr
        ensures Links(n)
      {
        assert CutFrom(n, k) && old(Links(n));
        if n.left != null { assert old(n.left) == k.elm || old(n.left) == n.left; assert CutFrom(n.left, k); }
        if n.right != null { assert old(n.right) == k.elm || old(n.right) == n.right; assert CutFrom(n.right, k); }
        if n.parent != null { assert CutFrom(n.parent, k); }
      }
    }

    twostate lemma SpansAfterCut(k: Cut)
      requires old(Cuttable(k)) && AllCut(k)
      requires old(AllLinks()) && old(AllSpans()) && old(AllPlaced())
      ensures AllSpans()
    {
      var p := old(k.elm.pos);
      assert old(Links(k.elm)) && old(Span(k.elm, repr)) && old(Placed(k.elm));
      forall n | n in repr
        ensures Span(n, repr)
      {
        assert CutFrom(n, k) && Closed(n, p) && old(Links(n)) && old(Span(n, repr)) && old(Placed(n));
        if n.left != null { assert Closed(n.left, p); }
        if n.right != null { assert Closed(n.right, p); }
        if old(n.left) != null { assert old(Placed(n.left)) && old(Span(n.left, repr)); }
        if old(n.right) != null { assert old(Placed(n.right)) && old(Span(n.right, repr)); }
      }
    }

    twostate lemma PlacedAfterCut(k: Cut)
      requires old(Cuttable(k)) && AllCut(k)
      requires old(AllPlaced()) && old(AllSpans())
      ensures AllPlaced()
    {
      var p := old(k.elm.pos);
      assert old(Placed(k.elm));
      forall n | n in repr
        ensures Placed(n)
      {
        assert Closed(n, p) && old(Placed(n));
      }
      forall i | 0 <= i < |nodes|
        ensures Indexed(i)
      {
        var j := if i < p then i else i + 1;
        assert old(Indexed(j)) && nodes[i] == old(nodes[j]) && nodes[i] != k.elm;
        assert Closed(nodes[i], p);
      }
    }

    twostate lemma RootAfterCut(k: Cut)
      requires old(Cuttable(k)) && AllCut(k)
      requires old(Shape())
      ensures root == null <==> nodes == []
      ensures root != null ==> root in repr && root.lo == 0 && root.hi == |nodes|
    {
      var p := old(k.elm.pos);
      assert old(Links(k.elm)) && old(Span(k.elm, repr)) && old(Placed(k.elm));
      if root != null {
        if k.parent != null { assert old(Placed(k.parent)) && old(Links(root)); }
        assert Closed(root, p) && old(Placed(root));
      } else {
        assert k.parent == null;
      }
    }

    // The debt left behind when a black node goes.
    ghost function DebtOf(k: Cut, red: bool): Debt {
      if red || k.parent == null then NoDebt else Debt(k.parent, k.d)
    }

    twostate lemma BalancedAfterCut(k: Cut)
      requires old(Cuttable(k)) && AllCut(k)
      requires old(AllLinks()) && old(AllBalanced(NoDebt))
      ensures AllBalanced(DebtOf(k, old(k.elm.red)))
    {
      var w := DebtOf(k, old(k.elm.red));
      assert old(Links(k.elm)) && old(Balanced(k.elm, NoDebt, repr));
      forall n | n in repr
        ensures Balanced(n, w, repr)
      {
        assert CutFrom(n, k) && old(Links(n)) && old(Balanced(n, NoDebt, repr));
        if n.left != null { assert CutFrom(n.left, k); }
        if n.right != null { assert CutFrom(n.right, k); }
      }
    }

    twostate lemma RedAfterCut(k: Cut)
      requires old(Cuttable(k)) && AllCut(k)
      requires old(AllLinks()) && old(AllRedOk(null))
      ensures AllRedOk(if old(k.elm.red) then null else k.child)
    {
      var e := if old(k.elm.red) then null else k.child;
      assert old(Links(k.elm)) && old(RedOk(k.elm, null, repr));
      forall n | n in repr
        ensures RedOk(n, e, repr)
      {
        assert CutFrom(n, k) && old(Links(n)) && old(RedOk(n, null, repr));
        if n.left != null { assert CutFrom(n.left, k); }
        if n.right != null { assert CutFrom(n.right, k); }
      }
    }

    // Takes elm out of the bookkeeping.
    ghost method CloseIndex(elm: Node)
      requires elm in repr && 0 <= elm.pos < |nodes|
      modifies this`nodes, this`repr, repr`pos, repr`lo, repr`hi
      ensures repr == old(repr) - {elm} && nodes == old(nodes)[..old(elm.pos)] + old(nodes)[old(elm.pos) + 1..]
      ensures forall n | n in repr :: Closed(n, old(elm.pos))
      ensures elm.pos == old(elm.pos) && elm.lo == old(elm.lo) && elm.hi == old(elm.hi)
    {
      var p := elm.pos;
      nodes, repr := nodes[..p] + nodes[p + 1..], repr - {elm};
      forall n | n in repr { n.pos := Close(n.pos, p); }
      forall n | n in repr { n.lo := Close(n.lo, p); }
      forall n | n in repr { n.hi := Close(n.hi, p); }
    }

    method CutLinks(elm: Node, ghost k: Cut) returns (child: Node?)
      requires elm == k.elm && Cuttable(k) && 0 <= elm.pos < |nodes|
      requires k.child != null ==> k.child in repr && k.child != k.parent
      requires k.parent != null ==> k.parent != elm && k.parent.left != k.parent.right
      modifies this, repr`left, repr`right, repr`parent, repr`pos, repr`lo, repr`hi
      ensures child == k.child && AllCut(k)
      ensures elm.left == old(elm.left) && elm.right == old(elm.right) && elm.parent == old(elm.parent)
    {
      child := if elm.left == null then elm.right else elm.left;
      var parent := elm.parent;
      if child != null { child.parent := parent; }
      if parent != null {
        if parent.left == elm { parent.left := child; } else { parent.right := child; }
      } else {
        root := child;
      }
      CloseIndex(elm);
    }

    // Every red rule holds except at and above e.
    ghost predicate AllRedBut(e: Node?)
      reads this, repr
    {
      forall n {:trigger RedOk(n, e, repr)} | n in repr :: n == e || RedOk(n, e, repr)
    }

    // The subtree elm on side d of parent is one black node short; nothing else is wrong
    // unless elm is red.
    ghost predicate Removing(parent: Node?, d: Dir, elm: Node?)
      reads this, repr
    {
      && Shape() && AllBalanced(if parent == null then NoDebt else Debt(parent, d)) && AllRedBut(elm)
      && (parent == null ==> root == elm)
      && (parent != null ==> parent in repr && parent.Child(d) == elm)
      && (elm != null ==> elm in repr && elm.parent == parent)
      && (root != elm ==> !IsRed(root))
    }

    method Unlink(elm: Node, ghost d: Dir) returns (child: Node?, parent: Node?)
      requires Shape() && AllBalanced(NoDebt) && AllRedOk(null) && !IsRed(root)
      requires elm in repr && (elm.left == null || elm.right == null)
      requires elm.parent != null ==> elm.parent.Child(d) == elm
      modifies this, repr`left, repr`right, repr`parent, repr`pos, repr`lo, repr`hi
      ensures parent == old(elm.parent) && child == old(if elm.left == null then elm.right else elm.left)
      ensures AllCut(Cut(elm, child, parent, d))
      ensures elm.left == old(elm.left) && elm.right == old(elm.right) && elm.parent == old(elm.parent)
      ensures elm.red ==> Shape() && AllBalanced(NoDebt) && AllRedOk(null) && !IsRed(root)
      ensures !elm.red ==> Removing(parent, d, child) && AllRedOk(child)
    {
      assert Links(elm) && Placed(elm);
      parent := elm.parent;
      if parent != null { assert Links(parent) && Span(parent, repr) && Span(elm, repr); }
      ghost var k := Cut(elm, if elm.left == null then elm.right else elm.left, elm.parent, d);
      if k.child != null { assert Links(k.child) && Span(k.child, repr) && Span(elm, repr); }
      child := CutLinks(elm, k);
      LinksAfterCut(k);
      SpansAfterCut(k);
      PlacedAfterCut(k);
      RootAfterCut(k);
      BalancedAfterCut(k);
      RedAfterCut(k);
      assert child != null ==> CutFrom(child, k);
      assert parent != null ==> CutFrom(parent, k);
      assert root != null ==> CutFrom(root, k);
    }

    // ---------- RB_REMOVE: the successor takes the removed node's place ----------

    ghost predicate Swappable(x: Swap)
      reads this, x.old_, x.parent, x.elm
    {
      && x.old_ in repr && x.elm !in repr && x.old_.parent == x.parent && 0 <= x.old_.pos < |nodes|
      && (x.parent != null ==> x.parent in repr && x.parent.Child(x.d) == x.old_ && x.parent.left != x.parent.right)
      && (x.old_.left != null ==> x.old_.left in repr && x.old_.left != x.parent)
      && (x.old_.right != null ==> x.old_.right in repr && x.old_.right != x.parent)
      && x.old_ !in {x.old_.left, x.old_.right, x.parent}
    }

    twostate predicate AllSwapped(x: Swap)
      reads this, repr, x.elm
    {
      var (l, r, p) := (old(x.old_.left), old(x.old_.right), old(x.old_.pos));
      && repr == old(repr) - {x.old_} + {x.elm} && 0 <= p < |old(nodes)| && nodes == old(nodes)[p := x.elm]
      && root == (if x.parent == null then x.elm else old(root))
      && x.elm.left == l && x.elm.right == r && x.elm.parent == x.parent
      && x.elm.red == old(x.old_.red) && x.elm.bh == old(x.old_.bh)
      && x.elm.pos == p && x.elm.lo == old(x.old_.lo) && x.elm.hi == old(x.old_.hi)
      && (forall n {:trigger Relinked(n, x, l, r)} | n in old(repr) && n != x.old_ :: Relinked(n, x, l, r))
    }

    method SwapLinks(old_: Node, elm: Node, ghost x: Swap)
      requires x.old_ == old_ && x.elm == elm && Swappable(x)
      modifies this`root, {old_.parent}`left, {old_.parent}`right, {old_.left, old_.right}`parent
      modifies elm`left, elm`right, elm`parent, elm`red
      ensures root == (if x.parent == null then elm else old(root))
      ensures elm.left == old_.left && elm.right == old_.right && elm.parent == old_.parent && elm.red == old_.red
      ensures x.parent != null ==>
        x.parent.Child(x.d) == elm && x.parent.Child(Flip(x.d)) == old(x.parent.Child(Flip(x.d)))
      ensures old_.left != null ==> old_.left.parent == elm
      ensures old_.right != null ==> old_.right.parent == elm
    {
      elm.left, elm.right, elm.parent, elm.red := old_.left, old_.right, old_.parent, old_.red;
      if old_.parent != null {
        if old_.parent.left == old_ { old_.parent.left := elm; } else { old_.parent.right := elm; }
      } else {
        root := elm;
      }
      if old_.left != null { old_.left.parent := elm; }
      if old_.right != null { old_.right.parent := elm; }
    }

    method SwapIn(old_: Node, elm: Node, ghost x: Swap)
      requires x.old_ == old_ && x.elm == elm && Swappable(x)
      modifies this, repr`left, repr`right, repr`parent, elm
      ensures AllSwapped(x)
    {
      SwapLinks(old_, elm, x);
      elm.bh, elm.pos, elm.lo, elm.hi := old_.bh, old_.pos, old_.lo, old_.hi;
      nodes, repr := nodes[old_.pos := elm], repr - {old_} + {elm};
    }

    twostate lemma LinksAfterSwap(x: Swap)
      requires old(Swappable(x)) && AllSwapped(x)
      requires old(AllLinks()) && (old(root) == null || old(root) in old(repr))
      ensures AllLinks()
    {
      var (l, r) := (old(x.old_.left), old(x.old_.right));
      assert old(Links(x.old_));
      forall n | n in repr
        ensures Links(n)
      {
        if n != x.elm { assert Relinked(n, x, l, r) && old(Links(n)); }
        if n.left != null && n.left != x.elm { assert Relinked(n.left, x, l, r); }
        if n.right != null && n.right != x.elm { assert Relinked(n.right, x, l, r); }
        if n.parent != null && n.parent != x.elm { assert Relinked(n.parent, x, l, r); }
      }
    }

    twostate lemma SpansAfterSwap(x: Swap)
      requires old(Swappable(x)) && AllSwapped(x)
      requires old(AllLinks()) && old(AllSpans())
      ensures AllSpans()
    {
      var (l, r) := (old(x.old_.left), old(x.old_.right));
      assert old(Links(x.old_)) && old(Span(x.old_, repr));
      forall n | n in repr
        ensures Span(n, repr)
      {
        if n != x.elm { assert Relinked(n, x, l, r) && old(Links(n)) && old(Span(n, repr)); }
        if n.left != null && n.left != x.elm { assert Relinked(n.left, x, l, r); }
        if n.right != null && n.right != x.elm { assert Relinked(n.right, x, l, r); }
      }
    }

    twostate lemma PlacedAfterSwap(x: Swap)
      requires old(Swappable(x)) && AllSwapped(x)
      requires old(AllPlaced())
      ensures AllPlaced()
    {
      var (l, r) := (old(x.old_.left), old(x.old_.right));
      assert old(Placed(x.old_));
      forall n | n in repr
        ensures Placed(n)
      {
        if n != x.elm { assert Relinked(n, x, l, r) && old(Placed(n)); }
      }
      forall i | 0 <= i < |nodes|
        ensures Indexed(i)
      {
        assert old(Indexed(i));
        if nodes[i] != x.elm { assert Relinked(nodes[i], x, l, r); }
      }
    }

    ghost function DebtAfter(w: Debt, x: Swap): Debt {
      if w.Debt? && w.n == x.old_ then Debt(x.elm, w.d) else w
    }

    twostate lemma BalancedAfterSwap(s: (Swap, Debt))
      requires old(Swappable(s.0)) && AllSwapped(s.0) && (s.1.Debt? ==> s.1.n != s.0.elm)
      requires old(AllLinks()) && old(AllBalanced(s.1))
      ensures AllBalanced(DebtAfter(s.1, s.0))
    {
      var (x, w, l, r) := (s.0, s.1, old(s.0.old_.left), old(s.0.old_.right));
      assert old(Links(x.old_)) && old(Balanced(x.old_, w, repr));
      forall n | n in repr
        ensures Balanced(n, DebtAfter(w, x), repr)
      {
        if n != x.elm { assert Relinked(n, x, l, r) && old(Links(n)) && old(Balanced(n, w, repr)); }
        if n.left != null && n.left != x.elm { assert Relinked(n.left, x, l, r); }
        if n.right != null && n.right != x.elm { assert Relinked(n.right, x, l, r); }
      }
    }

    twostate lemma RedAfterSwap(s: (Swap, Node?))
      requires old(Swappable(s.0)) && AllSwapped(s.0) && s.1 != s.0.elm && s.1 != s.0.old_
      requires old(AllLinks()) && old(AllRedOk(s.1))
      ensures AllRedOk(s.1)
    {
      var (x, e, l, r) := (s.0, s.1, old(s.0.old_.left), old(s.0.old_.right));
      assert old(Links(x.old_)) && old(RedOk(x.old_, e, repr));
      forall n | n in repr
        ensures RedOk(n, e, repr)
      {
        if n != x.elm { assert Relinked(n, x, l, r) && old(Links(n)) && old(RedOk(n, e, repr)); }
        if n.left != null && n.left != x.elm { assert Relinked(n.left, x, l, r); }
        if n.right != null && n.right != x.elm { assert Relinked(n.right, x, l, r); }
      }
    }

    twostate lemma RootAfterSwap(x: Swap)
      requires old(Swappable(x)) && AllSwapped(x)
      requires old(Shape())
      ensures root in repr && root.lo == 0 && root.hi == |nodes| && nodes != []
      ensures IsRed(root) == old(IsRed(root))
    {
      assert old(Links(x.old_)) && old(Placed(x.old_));
      if x.parent != null { assert old(Links(root)) && Relinked(root, x, old(x.old_.left), old(x.old_.right)); }
    }

    lemma CanSwap(x: Swap)
      requires Shape() && x.old_ in repr && x.elm !in repr && x.parent == x.old_.parent
      requires x.parent != null ==> x.parent.Child(x.d) == x.old_
      ensures Swappable(x)
    {
      var old_ := x.old_;
      assert Links(old_) && Placed(old_) && Span(old_, repr);
      if old_.parent != null { assert Links(old_.parent) && Span(old_.parent, repr); }
      if old_.left != null { assert Links(old_.left) && Span(old_.left, repr); }
      if old_.right != null { assert Links(old_.right) && Span(old_.right, repr); }
    }

    // elm, just unlinked from below old_, takes its place.
    method Replace(old_: Node, elm: Node, ghost x: Swap, ghost w: Debt, ghost e: Node?)
      requires Shape() && AllBalanced(w) && AllRedOk(e) && !IsRed(root)
      requires old_ in repr && elm !in repr && x.old_ == old_ && x.elm == elm && x.parent == old_.parent
      requires x.parent != null ==> x.parent.Child(x.d) == old_
      requires (w.Debt? ==> w.n != elm) && e != elm && e != old_
      modifies this, repr`left, repr`right, repr`parent, elm
      ensures AllSwapped(x)
      ensures Shape() && AllBalanced(DebtAfter(w, x)) && AllRedOk(e) && !IsRed(root)
    {
      CanSwap(x);
      SwapIn(old_, elm, x);
      LinksAfterSwap(x);
      SpansAfterSwap(x);
      PlacedAfterSwap(x);
      RootAfterSwap(x);
      BalancedAfterSwap((x, w));
      RedAfterSwap((x, e));
    }

    // ---------- RB_REMOVE_COLOR ----------

    lemma DropException(e: Node?)
      requires AllLinks() && AllRedBut(e) && !IsRed(e)
      ensures AllRedOk(null) && AllRedOk(e)
    {
      forall n | n in repr ensures RedOk(n, null, repr) && RedOk(n, e, repr) {
        assert Links(n) && (n == e || RedOk(n, e, repr));
      }
    }

    // What the loop guard buys: a sibling exists, and it is black or has black children.
    lemma Sibling(parent: Node, d: Dir, elm: Node?)
      requires Removing(parent, d, elm) && !IsRed(elm)
      ensures var tmp := parent.Child(Flip(d));
        && tmp != null && tmp in repr && tmp != parent && tmp != elm && tmp.parent == parent
        && tmp.bh == Bh(elm) + 1 && (tmp.red ==> !parent.red && !IsRed(tmp.left) && !IsRed(tmp.right))
        && Bh(tmp.left) == Bh(tmp.right) && tmp.bh == Bh(tmp.left) + (if tmp.red then 0 else 1)
        && (tmp.left != null ==> tmp.left in repr) && (tmp.right != null ==> tmp.right in repr)
      ensures parent.left == elm <==> d == Left
      ensures parent.bh == Bh(elm) + 1 + (if parent.red then 0 else 1)
      ensures 0 <= Bh(elm)
    {
      DropException(elm);
      var w := Debt(parent, d);
      assert Links(parent) && Balanced(parent, w, repr) && RedOk(parent, null, repr) && Span(parent, repr);
      if elm != null { assert Balanced(elm, w, repr); }
      var tmp := parent.Child(Flip(d));
      assert Links(tmp) && Balanced(tmp, w, repr) && RedOk(tmp, null, repr) && Span(tmp, repr);
    }

    // The nodes the fix-up looks at are pairwise different.
    lemma Around(parent: Node, d: Dir, elm: Node?)
      requires Removing(parent, d, elm) && parent.Child(Flip(d)) != null
      ensures var tmp := parent.Child(Flip(d));
        && (elm != null ==> elm !in {parent, tmp, tmp.left, tmp.right, parent.parent})
        && parent !in {tmp.left, tmp.right, parent.parent} && tmp !in {tmp.left, tmp.right, parent.parent}
        && (parent.parent != null ==> parent.parent in repr && parent.parent !in {tmp.left, tmp.right})
        && (parent.parent != null ==> root != null && root in repr && root !in {parent, tmp, tmp.left, tmp.right, elm})
        && (parent.parent == null ==> root == parent)
        && (tmp.left == tmp.right ==> tmp.left == null)
    {
      var tmp := parent.Child(Flip(d));
      assert Placed(parent) && Links(parent) && Span(parent, repr) && Links(tmp) && Span(tmp, repr) && Links(root);
      if elm != null { assert Links(elm) && Span(elm, repr); }
      if parent.parent != null { assert Links(parent.parent) && Span(parent.parent, repr); }
      if tmp.left != null { assert Links(tmp.left) && Span(tmp.left, repr); }
      if tmp.right != null { assert Links(tmp.right) && Span(tmp.right, repr); }
    }

    // Exchanging the colours of a black node s.elm and its red child s.tmp while rotating
    // s.tmp above it is safe when s.elm's other child is black.
    twostate lemma ExchangeRed(s: Site)
      requires old(Rotatable(s.elm, s.tmp, s.d, s.c, s.g)) && Turned(s.elm, s.tmp, s.d, s.c, s.g)
      requires repr == old(repr) && SameButFor(repr, s.elm, s.tmp, s.c, s.g)
      requires OuterColors(s) && SameColorButFor(repr, s.elm, s.tmp, null)
      requires old(!IsRed(s.elm.Child(s.d)))
      requires old(AllLinks()) && old(AllRedOk(null))
      ensures AllRedOk(null)
    {
      assert old(RedOk(s.elm, null, repr)) && old(RedOk(s.tmp, null, repr)) && old(Links(s.elm)) && old(Links(s.tmp));
      forall n | n in repr
        ensures RedOk(n, null, repr)
      {
        assert old(Links(n)) && old(RedOk(n, null, repr)) && (n in {s.elm, s.tmp, s.c, s.g} || SameLinks(n))
          && (n in {s.elm, s.tmp} || SameColor(n));
        if n.left != null { assert n.left in {s.elm, s.tmp} || SameColor(n.left); }
        if n.right != null { assert n.right in {s.elm, s.tmp} || SameColor(n.right); }
      }
    }

    // The number of members below side d of n.
    ghost function Width(n: Node, d: Dir): int
      reads n
    {
      if d.Left? then n.pos - n.lo else n.hi - n.pos - 1
    }

    // Case 1: a red sibling is rotated away.
    method RedSibling(parent: Node, ghost d: Dir, d': Dir, elm: Node?)
      requires Removing(parent, d, elm) && !IsRed(elm) && root != elm && IsRed(parent.Child(Flip(d))) && d == d'
      modifies this`root, repr`left, repr`right, repr`parent, repr`lo, repr`hi, repr`red, repr`bh
      ensures Removing(parent, d, elm) && !IsRed(elm) && root != elm
      ensures !IsRed(parent.Child(Flip(d))) && Width(parent, d) == old(Width(parent, d))
    {
      Sibling(parent, d, elm);
      DropException(elm);
      CanRotate(parent, d);
      ghost var t, top := parent.Child(Flip(d)), root;
      ghost var c, g := t.Child(d), parent.parent;
      ghost var s := Site(parent, t, d, c, g);
      Around(parent, d, elm);
      var tmp := RotateRecolored(parent, d');
      OuterBalance((s, Debt(parent, d)));
      ExchangeRed(s);
      if elm != null { assert SameLinks(elm) && SameColor(elm); }
      if g != null { assert SameColor(top); }
      if c != null { assert SameColor(c); }
      NoException(elm);
    }

    lemma NoException(e: Node?)
      requires AllRedOk(null)
      ensures AllRedBut(e)
    {
      forall n | n in repr ensures n == e || RedOk(n, e, repr) { assert RedOk(n, null, repr); }
    }

    // Case 2: a black sibling with black children turns red and the debt moves to parent.
    twostate lemma RecoloredDebt(s: (Site, Debt))
      requires repr == old(repr) && old(AllLinks()) && SameButFor(repr, null, null, null, null)
      requires s.0.elm in repr && s.0.tmp in repr && s.0.tmp == old(s.0.elm.Child(Flip(s.0.d))) && s.0.tmp != s.0.elm
      requires old(!s.0.tmp.red) && s.0.tmp.red && s.0.elm.red == old(s.0.elm.red)
      requires s.0.tmp.bh == old(s.0.tmp.bh) - 1 && s.0.elm.bh == old(s.0.elm.bh) - 1 && s.0.elm.bh >= 0
        && s.0.tmp.bh >= 0
      requires SameColorButFor(repr, s.0.elm, s.0.tmp, null)
      requires s.0.g == s.0.elm.parent
      requires s.1 == if s.0.g == null then NoDebt else Debt(s.0.g, if s.0.g.left == s.0.elm then Left else Right)
      requires old(AllBalanced(Debt(s.0.elm, s.0.d)))
      ensures AllBalanced(s.1)
    {
      var (parent, tmp, w) := (s.0.elm, s.0.tmp, Debt(s.0.elm, s.0.d));
      assert SameLinks(parent) && SameLinks(tmp) && old(Links(parent)) && old(Links(tmp));
      assert old(Balanced(parent, w, repr)) && old(Balanced(tmp, w, repr));
      assert Balanced(parent, s.1, repr) by {
        if parent.left != null { assert parent.left == tmp || SameColor(parent.left); }
        if parent.right != null { assert parent.right == tmp || SameColor(parent.right); }
      }
      forall n | n in repr && n != parent
        ensures Balanced(n, s.1, repr)
      {
        assert SameLinks(n) && old(Links(n)) && old(Balanced(n, w, repr)) && (n == tmp || SameColor(n));
        if n.left != null { assert n.left != tmp && (n.left == parent || SameColor(n.left)); }
        if n.right != null { assert n.right != tmp && (n.right == parent || SameColor(n.right)); }
      }
    }

    twostate lemma RecoloredSibling(s: Site)
      requires repr == old(repr) && old(AllLinks()) && SameButFor(repr, null, null, null, null)
      requires s.elm in repr && s.tmp in repr && s.tmp.parent == s.elm
      requires s.tmp.red && s.elm.red == old(s.elm.red) && old(!IsRed(s.tmp.left) && !IsRed(s.tmp.right))
      requires SameColorButFor(repr, s.elm, s.tmp, null)
      requires old(AllRedOk(null))
      ensures AllRedBut(s.elm)
    {
      assert SameLinks(s.tmp) && old(Links(s.tmp));
      forall n | n in repr
        ensures n == s.elm || RedOk(n, s.elm, repr)
      {
        assert SameLinks(n) && old(Links(n)) && old(RedOk(n, null, repr)) && (n in {s.elm, s.tmp} || SameColor(n));
        if n.left != null { assert n.left in {s.elm, s.tmp} || SameColor(n.left); }
        if n.right != null { assert n.right in {s.elm, s.tmp} || SameColor(n.right); }
      }
    }

    method RecolorSibling(parent: Node, ghost d: Dir, elm: Node?, tmp: Node)
      requires Removing(parent, d, elm) && AllRedOk(null) && tmp == parent.Child(Flip(d)) && !tmp.red
      requires tmp in repr && tmp.parent == parent && tmp != parent && !IsRed(tmp.left) && !IsRed(tmp.right)
        && tmp.bh >= 1 && parent.bh >= 1
      requires parent.parent != null ==> root != null && root in repr && root !in {parent, tmp, elm}
      requires parent.parent == null ==> root == parent
      requires parent.parent != null ==>
        parent.parent in repr && (parent.parent.left == parent || parent.parent.right == parent)
      modifies repr`red, repr`bh
      ensures var side := if parent.parent != null && parent.parent.left == parent then Left else Right;
        Removing(parent.parent, side, parent)
    {
      ghost var g, top := parent.parent, root;
      ghost var w := if g == null then NoDebt else Debt(g, if g.left == parent then Left else Right);
      tmp.red := true;
      tmp.bh, parent.bh := tmp.bh - 1, parent.bh - 1;
      RecoloredDebt((Site(parent, tmp, d, null, g), w));
      RecoloredSibling(Site(parent, tmp, d, null, g));
      if g != null { assert SameColor(top); }
    }

    // Case 3: the sibling's inner red child is rotated above it.
    method InnerNephew(parent: Node, ghost d: Dir, d': Dir, elm: Node?, tmp: Node)
      requires Removing(parent, d, elm) && AllRedOk(null) && tmp == parent.Child(Flip(d)) && !tmp.red && d == d'
      requires IsRed(tmp.Child(d)) && !IsRed(tmp.Child(Flip(d)))
      modifies this`root, repr`left, repr`right, repr`parent, repr`lo, repr`hi, repr`red, repr`bh
      ensures Removing(parent, d, elm) && AllRedOk(null) && root == old(root)
      ensures var t := parent.Child(Flip(d)); t != null && !t.red && IsRed(t.Child(Flip(d)))
    {
      Around(parent, d, elm);
      ghost var top := root;
      ghost var i := tmp.Child(d);
      ghost var c := i.Child(d');
      assert Links(parent) && Links(tmp) && Links(i) && Span(tmp, repr) && Span(i, repr);
      CanRotate(tmp, Flip(d'));
      ghost var s := Site(tmp, i, Flip(d'), i.Child(Flip(d')), parent);
      if elm != null { AwayFrom(elm, i, tmp); }
      if parent.parent != null { assert Links(root); AwayFrom(root, i, tmp); }
      var oleft := RotateRecolored(tmp, Flip(d'));
      OuterBalance((s, Debt(parent, d)));
      ExchangeRed(s);
      if elm != null { assert SameLinks(elm); }
      assert SameColor(top);
      NoException(elm);
    }

    lemma AwayFrom(n: Node, i: Node, tmp: Node)
      requires Shape() && n in repr && i in repr && i.parent == tmp && n.parent != i && n != i
      ensures n !in {i.left, i.right}
    {
      assert Links(i);
    }

    // Case 4: with a red outer nephew o, one rotation pays the debt.
    twostate predicate FinalColors(parent: Node, tmp: Node, o: Node)
      reads parent, tmp, o
    {
      && tmp.red == old(parent.red) && !parent.red && old(o.red) && !o.red
      && tmp.bh == old(parent.bh) && parent.bh == old(tmp.bh) && o.bh == old(o.bh) + 1
    }

    twostate predicate FinalTurn(x: (Site, Node))
      reads this, repr, x.0.elm, x.0.tmp, x.1, x.0.c, x.0.g
    {
      && Turned(x.0.elm, x.0.tmp, x.0.d, x.0.c, x.0.g) && repr == old(repr)
      && FinalColors(x.0.elm, x.0.tmp, x.1)
      && x.1 in repr && old(x.0.tmp.Child(Flip(x.0.d))) == x.1 && x.1 !in {x.0.elm, x.0.tmp} && old(!x.0.tmp.red)
    }

    twostate lemma FinalBalanceAt(x: (Site, Node))
      requires old(Rotatable(x.0.elm, x.0.tmp, x.0.d, x.0.c, x.0.g)) && FinalTurn(x)
      requires SameButFor(repr, x.0.elm, x.0.tmp, x.0.c, x.0.g) && SameColorButFor(repr, x.0.elm, x.0.tmp, x.1)
      requires old(AllLinks()) && old(AllBalanced(Debt(x.0.elm, x.0.d)))
      ensures Balanced(x.0.elm, NoDebt, repr) && Balanced(x.0.tmp, NoDebt, repr)
    {
      var (elm, tmp, o, w) := (x.0.elm, x.0.tmp, x.1, Debt(x.0.elm, x.0.d));
      assert old(Balanced(elm, w, repr)) && old(Balanced(tmp, w, repr)) && old(Balanced(o, w, repr));
      assert old(Links(elm)) && old(Links(tmp)) && old(Links(o));
      var e := elm.Child(x.0.d);
      if e != null { assert SameColor(e); }
      if x.0.c != null { assert SameColor(x.0.c); }
    }

    twostate lemma FinalBalance(x: (Site, Node))
      requires old(Rotatable(x.0.elm, x.0.tmp, x.0.d, x.0.c, x.0.g)) && FinalTurn(x)
      requires SameButFor(repr, x.0.elm, x.0.tmp, x.0.c, x.0.g) && SameColorButFor(repr, x.0.elm, x.0.tmp, x.1)
      requires old(AllLinks()) && old(AllBalanced(Debt(x.0.elm, x.0.d)))
      ensures AllBalanced(NoDebt)
    {
      var (elm, tmp, c, g, o, w) := (x.0.elm, x.0.tmp, x.0.c, x.0.g, x.1, Debt(x.0.elm, x.0.d));
      FinalBalanceAt(x);
      assert old(Links(tmp)) && old(Links(o));
      forall n | n in repr
        ensures Balanced(n, NoDebt, repr)
      {
        if n != elm && n != tmp {
          assert old(Links(n)) && old(Balanced(n, w, repr)) && (n in {c, g} || SameLinks(n))
            && (n == o || SameColor(n));
          if n.left != null { assert n.left == tmp || SameColor(n.left); }
          if n.right != null { assert n.right == tmp || SameColor(n.right); }
          assert old(Bh(n.left)) == Bh(n.left) && old(Bh(n.right)) == Bh(n.right);
        }
      }
    }

    twostate lemma FinalRed(x: (Site, Node))
      requires old(Rotatable(x.0.elm, x.0.tmp, x.0.d, x.0.c, x.0.g)) && FinalTurn(x)
      requires SameButFor(repr, x.0.elm, x.0.tmp, x.0.c, x.0.g) && SameColorButFor(repr, x.0.elm, x.0.tmp, x.1)
      requires old(AllLinks()) && old(AllRedOk(null))
      ensures AllRedOk(null)
    {
      var (elm, tmp, c, g, o) := (x.0.elm, x.0.tmp, x.0.c, x.0.g, x.1);
      assert old(RedOk(elm, null, repr)) && old(RedOk(tmp, null, repr)) && old(Links(elm)) && old(Links(tmp))
        && old(Links(o));
      forall n | n in repr
        ensures RedOk(n, null, repr)
      {
        assert old(Links(n)) && old(RedOk(n, null, repr)) && (n in {elm, tmp, c, g} || SameLinks(n))
          && (n in {elm, tmp, o} || SameColor(n));
        if n.left != null { assert n.left in {elm, tmp, o} || SameColor(n.left); }
        if n.right != null { assert n.right in {elm, tmp, o} || SameColor(n.right); }
      }
    }

    method PaintFinal(parent: Node, d: Dir, tmp: Node, ghost o: Node)
      requires tmp.Child(Flip(d)) == o && parent != tmp && o !in {parent, tmp} && o.red
      modifies {parent, tmp, o}`red, {parent, tmp, o}`bh
      ensures FinalColors(parent, tmp, o)
    {
      tmp.red := parent.red;
      parent.red := false;
      if tmp.Child(Flip(d)) != null { tmp.Child(Flip(d)).red := false; }
      tmp.bh, parent.bh, o.bh := parent.bh, tmp.bh, o.bh + 1;
    }

    method FinalLinks(parent: Node, d: Dir, tmp: Node, ghost o: Node)
      requires Shape() && parent in repr && tmp == parent.Child(Flip(d)) && tmp in repr && tmp.Child(Flip(d)) == o
        && o in repr && o.red
      requires parent != tmp && o !in {parent, tmp}
      modifies this`root, repr`left, repr`right, repr`parent, repr`lo, repr`hi, repr`red, repr`bh
      ensures Shape()
      ensures root == if old(parent.parent) == null then tmp else old(root)
      ensures Turned(parent, tmp, d, old(tmp.Child(d)), old(parent.parent))
      ensures SameButFor(repr, parent, tmp, old(tmp.Child(d)), old(parent.parent))
      ensures FinalColors(parent, tmp, o) && SameColorButFor(repr, parent, tmp, o)
    {
      ghost var c, g := tmp.Child(d), parent.parent;
      PaintFinal(parent, d, tmp, o);
      label coloured:
      var t := Rotate(parent, d);
      forall m | m in repr
        ensures m in {parent, tmp, c, g} || SameLinks(m)
      {
        assert m in {parent, tmp, c, g} || SameLinks@coloured(m);
      }
    }

    method OuterNephew(parent: Node, ghost d: Dir, d': Dir, elm: Node?, tmp: Node)
      requires Removing(parent, d, elm) && AllRedOk(null) && tmp == parent.Child(Flip(d)) && !tmp.red && d == d'
      requires IsRed(tmp.Child(Flip(d)))
      modifies this`root, repr`left, repr`right, repr`parent, repr`lo, repr`hi, repr`red, repr`bh
      ensures Shape() && AllBalanced(NoDebt) && AllRedOk(null) && root != null && !IsRed(root)
    {
      Around(parent, d, elm);
      ghost var top, o := root, tmp.Child(Flip(d));
      assert Links(parent) && Links(tmp) && Links(o) && Span(tmp, repr) && Span(o, repr);
      CanRotate(parent, d);
      ghost var s := Site(parent, tmp, d, tmp.Child(d), parent.parent);
      FinalLinks(parent, d', tmp, o);
      FinalBalance((s, o));
      FinalRed((s, o));
      assert top in {parent, tmp, o} || SameColor(top);
    }

    lemma EmptyTree()
      requires Shape()
      ensures root == null ==> repr == {}
    {
      forall n | n in repr ensures root != null { assert Placed(n); }
    }

    // RB_COLOR(elm) = RB_BLACK at the end of the loop pays the debt.
    twostate lemma PaidOff(x: (Node?, Dir, Node))
      requires old(Removing(x.0, x.1, x.2)) && old(x.2.red || x.2 == root)
      requires root == old(root) && repr == old(repr) && SameButFor(repr, null, null, null, null)
      requires SameColorButFor(repr, x.2, null, null) && !x.2.red
        && x.2.bh == old(if x.2.red then x.2.bh + 1 else x.2.bh)
      ensures AllBalanced(NoDebt) && AllRedOk(null) && !IsRed(root)
    {
      var (parent, d, elm) := x;
      var w := if parent == null then NoDebt else Debt(parent, d);
      assert old(Links(elm)) && SameLinks(elm);
      if root != null { assert root == elm || SameColor(root); }
      forall n | n in repr ensures Balanced(n, NoDebt, repr) && RedOk(n, null, repr) {
        assert old(Balanced(n, w, repr)) && old(n == elm || RedOk(n, elm, repr)) && old(Links(n)) && SameLinks(n)
          && (n == elm || SameColor(n));
        if n.left != null { assert n.left == elm || SameColor(n.left); }
        if n.right != null { assert n.right == elm || SameColor(n.right); }
      }
    }

    method RotateNephews(parent: Node, ghost d: Dir, d': Dir, elm: Node?, tmp_: Node)
      requires Removing(parent, d, elm) && AllRedOk(null) && tmp_ == parent.Child(Flip(d)) && !tmp_.red && d == d'
      requires IsRed(tmp_.left) || IsRed(tmp_.right)
      modifies this`root, repr`left, repr`right, repr`parent, repr`lo, repr`hi, repr`red, repr`bh
      ensures Shape() && AllBalanced(NoDebt) && AllRedOk(null) && root != null && !IsRed(root)
    {
      var tmp := tmp_;
      if !IsRed(tmp.Child(Flip(d'))) {
        InnerNephew(parent, d, d', elm, tmp);
        tmp := parent.Child(Flip(d'));
      }
      OuterNephew(parent, d, d', elm, tmp);
    }

    // Moving the debt up widens the gap it sits on.
    lemma Wider(parent: Node, d: Dir)
      requires Shape() && parent in repr
      ensures var g := parent.parent;
        && 0 <= Width(parent, d) < |nodes|
        && (g != null ==> g in repr && Width(parent, d) < Width(g, if g.left == parent then Left else Right) < |nodes|
                          && (g.left == parent || g.right == parent))
    {
      assert Links(parent) && Span(parent, repr) && Placed(parent);
      if parent.parent != null { assert Links(parent.parent) && Span(parent.parent, repr) && Placed(parent.parent); }
    }

    // One turn of the loop: the debt moves up, or it is paid.
    method RemoveStep(parent: Node, ghost d: Dir, elm: Node?) returns (paid: bool)
      requires Removing(parent, d, elm) && !IsRed(elm) && root != elm
      modifies this`root, repr`left, repr`right, repr`parent, repr`lo, repr`hi, repr`red, repr`bh
      ensures paid ==> Shape() && AllBalanced(NoDebt) && AllRedOk(null) && !IsRed(root)
      ensures !paid ==> var g := parent.parent;
        && Removing(g, if g != null && g.left == parent then Left else Right, parent)
        && old(Width(parent, d)) < |nodes|
        && (g != null ==> old(Width(parent, d)) < Width(g, if g.left == parent then Left else Right) < |nodes|)
    {
      Sibling(parent, d, elm);
      var side := if parent.left == elm then Left else Right;
      if parent.Child(Flip(side)).red {
        RedSibling(parent, d, side, elm);
      }
      Sibling(parent, d, elm);
      DropException(elm);
      Around(parent, d, elm);
      Wider(parent, d);
      var tmp := parent.Child(Flip(side));
      if !IsRed(tmp.left) && !IsRed(tmp.right) {
        RecolorSibling(parent, d, elm, tmp);
        return false;
      }
      RotateNephews(parent, d, side, elm, tmp);
      return true;
    }

    method RemoveColor(parent_: Node?, ghost d_: Dir, elm_: Node?)
      requires Removing(parent_, d_, elm_)
      modifies this`root, repr`left, repr`right, repr`parent, repr`lo, repr`hi, repr`red, repr`bh
      ensures Shape() && AllBalanced(NoDebt) && AllRedOk(null) && !IsRed(root)
    {
      var parent, elm := parent_, elm_;
      ghost var d := d_;
      while !IsRed(elm) && elm != root
        invariant Removing(parent, d, elm)
        decreases if parent == null then 0 else |nodes| - Width(parent, d)
      {
        var paid := RemoveStep(parent, d, elm);
        if paid { return; }
        elm, parent := parent, parent.parent;
        d := if parent != null && parent.left == elm then Left else Right;
      }
      if elm != null {
        label last:
        elm.bh := if elm.red then elm.bh + 1 else elm.bh;
        elm.red := false;
        PaidOff@last((parent, d, elm));
      } else {
        DropException(elm);
        EmptyTree();
      }
    }

    // ---------- the operations ----------

    lemma InsertSorted(before: seq<Node>, elm: Node, q: int)
      requires Sorted(before) && 0 <= q <= |before|
      requires forall i :: 0 <= i < q ==> before[i].key < elm.key
      requires forall i :: q <= i < |before| ==> elm.key < before[i].key
      ensures Sorted(before[..q] + [elm] + before[q..])
    {
    }

    // A node whose key is missing is not in the tree.
    lemma NotMember(elm: Node, q: int)
      requires Shape() && 0 <= q <= |nodes| && Brackets(q, q, elm.key)
      ensures elm !in repr
    {
      forall n | n in repr ensures n.key != elm.key { assert Placed(n); }
    }

    // RB_INSERT: links elm at its place in key order, or returns the member with an equal key.
    method Insert(elm: Node) returns (found: Node?)
      requires Valid()
      modifies this, repr, elm
      ensures Valid()
      ensures found == null <==> forall n | n in old(nodes) :: n.key != elm.key
      ensures found != null ==> found in repr && found.key == elm.key
      ensures found != null ==>
        nodes == old(nodes) && repr == old(repr) && unchanged(this) && unchanged(repr) && unchanged(elm)
      ensures found == null ==> repr == old(repr) + {elm}
      ensures found == null ==> exists q :: 0 <= q <= |old(nodes)| && nodes == old(nodes)[..q] + [elm] + old(nodes)[q..]
    {
      ghost var q;
      var parent, d;
      parent, d, found, q := Search(elm.key);
      if found != null {
        assert Placed(found);
        return;
      }
      NotMember(elm, q);
      InsertSorted(nodes, elm, q);
      Attach(elm, parent, d, q);
      assert nodes == old(nodes)[..q] + [elm] + old(nodes)[q..];
      InsertColor(elm);
    }

    method Minimum(top: Node) returns (m: Node)
      requires Shape() && top in repr
      ensures m in repr && m.left == null && m.lo == top.lo && m.pos == top.lo
    {
      m := top;
      assert Span(m, repr);
      while m.left != null
        invariant m in repr && m.lo == top.lo && Span(m, repr)
        decreases m.pos - m.lo
      {
        assert Span(m.left, repr);
        m := m.left;
      }
    }

    method RemoveOne(elm: Node)
      requires Valid() && elm in repr && (elm.left == null || elm.right == null)
      modifies this, repr
      ensures Shape() && AllBalanced(NoDebt) && AllRedOk(null) && !IsRed(root)
      ensures repr == old(repr) - {elm}
      ensures var p := old(elm.pos);
        0 <= p < |old(nodes)| && old(nodes)[p] == elm && nodes == old(nodes)[..p] + old(nodes)[p + 1..]
    {
      assert Links(elm) && Placed(elm);
      ghost var d := if elm.parent != null && elm.parent.left == elm then Left else Right;
      var color := elm.red;
      var child, parent := Unlink(elm, d);
      if !color { RemoveColor(parent, d, child); }
    }

    // old_ has two children and elm is its in-order successor.
    ghost predicate Successor(old_: Node, elm: Node)
      reads this, old_, elm
    {
      && old_ in repr && elm in repr && old_.left != null && old_.right != null
      && elm.left == null && elm.lo == old_.pos + 1 && elm.pos == old_.pos + 1
      && 0 <= old_.pos && old_.pos + 1 < |nodes| && nodes[old_.pos] == old_ && nodes[old_.pos + 1] == elm
    }

    lemma SuccessorApart(old_: Node, elm: Node)
      requires Shape() && Successor(old_, elm)
      ensures old_ != elm && elm.parent != null && elm.parent in repr && elm.right != old_ && elm.parent != old_.parent
      ensures elm.right != null ==>
        elm.right in repr && elm.right != elm && elm.right != elm.parent && elm.right != old_.parent
      ensures elm.parent.left == elm || elm.parent.right == elm
      ensures old_.parent != elm && old_.left != elm
      ensures old_.parent != null ==>
        old_.parent in repr && (old_.parent.left == old_ || old_.parent.right == old_)
        && old_.parent.left != old_.parent.right
    {
      assert Links(old_) && Placed(old_) && Span(old_, repr) && Links(elm) && Placed(elm) && Span(elm, repr);
      if root != null { assert Span(root, repr); }
      if old_.parent != null { assert Links(old_.parent) && Span(old_.parent, repr); }
      if elm.parent != null { assert Links(elm.parent) && Span(elm.parent, repr); }
      if elm.right != null { assert Links(elm.right) && Span(elm.right, repr); }
    }

    lemma CutThenSwap(before: seq<Node>, p: int)
      requires 0 <= p && p + 1 < |before|
      ensures (before[..p + 1] + before[p + 2..])[p := before[p + 1]] == before[..p] + before[p + 1..]
    {
    }

    method ReplaceBySuccessor(old_: Node, elm: Node) returns (parent: Node, child: Node?, ghost d: Dir)
      requires Valid() && Successor(old_, elm)
      modifies this, repr
      ensures Shape() && !IsRed(root)
      ensures old(elm.red) ==> AllBalanced(NoDebt) && AllRedOk(null)
      ensures !old(elm.red) ==> Removing(parent, d, child)
      ensures repr == old(repr) - {old_}
      ensures var p := old(old_.pos); nodes == old(nodes)[..p] + old(nodes)[p + 1..]
    {
      SuccessorApart(old_, elm);
      CutThenSwap(nodes, old_.pos);
      d := if elm.parent.left == elm then Left else Right;
      ghost var red := elm.red;
      ghost var side := if old_.parent != null && old_.parent.left == old_ then Left else Right;
      ghost var x := Swap(old_, elm, old_.parent, side);
      var parent_;
      child, parent_ := Unlink(elm, d);
      parent := if parent_ == old_ then elm else parent_;
      ghost var k := Cut(elm, child, parent_, d);
      assert CutFrom(old_, k) && Closed(old_, old(elm.pos));
      ghost var w, e := if red then NoDebt else Debt(parent_, d), if red then null else child;
      if old_.parent != null { assert CutFrom(old_.parent, k); }
      ghost var l, r := old_.left, old_.right;
      assert Links(old_);
      label cut:
      Replace(old_, elm, x, w, e);
      if parent_ != old_ { assert Relinked@cut(parent_, x, l, r); }
      if child != null { assert Relinked@cut(child, x, l, r); }
      if !red {
        assert AllBalanced(Debt(parent, d));
        assert AllRedBut(child);
        assert parent in repr;
        assert parent.Child(d) == child;
        assert child != null ==> child in repr && child.parent == parent;
      }
    }

    lemma RemoveSorted(before: seq<Node>, p: int)
      requires Sorted(before) && 0 <= p < |before|
      ensures Sorted(before[..p] + before[p + 1..])
    {
    }

    lemma Succ(old_: Node, elm: Node)
      requires Shape() && old_ in repr && elm in repr && old_.left != null && old_.right != null
      requires elm.left == null && elm.lo == old_.pos + 1 == elm.pos
      ensures Successor(old_, elm)
    {
      assert Placed(old_) && Placed(elm);
    }

    // RB_REMOVE: takes elm out of the tree.
    method Remove(elm: Node) returns (removed: Node)
      requires Valid() && elm in repr
      modifies this, repr
      ensures Valid()
      ensures removed == elm && repr == old(repr) - {elm}
      ensures exists p ::
        0 <= p < |old(nodes)| && old(nodes)[p] == elm && nodes == old(nodes)[..p] + old(nodes)[p + 1..]
    {
      assert Placed(elm);
      RemoveSorted(nodes, elm.pos);
      if elm.left == null || elm.right == null {
        RemoveOne(elm);
      } else {
        assert Span(elm, repr);
        var next := Minimum(elm.right);
        Succ(elm, next);
        var color := next.red;
        ghost var d;
        var parent, child;
        parent, child, d := ReplaceBySuccessor(elm, next);
        if !color { RemoveColor(parent, d, child); }
      }
      removed := elm;
    }

    // RB_FIND: the member with this key, if there is one.
    method Find(key: int) returns (found: Node?)
      requires Valid()
      ensures found == null <==> forall n | n in nodes :: n.key != key
      ensures found != null ==> found in nodes && found.key == key
    {
      ghost var q;
      var parent, d;
      parent, d, found, q := Search(key);
      if found != null { assert Placed(found); }
    }

    // RB_NFIND: the first member, in key order, whose key is at least the given one.
    method NFind(key: int) returns (res: Node?)
      requires Valid()
      ensures res == null ==> forall n | n in nodes :: n.key < key
      ensures res != null ==>
        res in nodes && key <= res.key && forall n | n in nodes :: key <= n.key ==> res.key <= n.key
    {
      var tmp := root;
      res := null;
      ghost var a, b := 0, |nodes|;
      ghost var parent: Node?, d := null, Left;
      while tmp != null
        invariant Gap(parent, d, tmp, a, b) && Brackets(a, b, key)
        invariant res == if b < |nodes| then nodes[b] else null
        decreases b - a
      {
        Descend(tmp, Left, a, b);
        Descend(tmp, Right, a, b);
        parent := tmp;
        if key < tmp.key {
          res := tmp;
          b, d := tmp.pos, Left;
          tmp := tmp.left;
        } else if tmp.key < key {
          a, d := tmp.pos + 1, Right;
          tmp := tmp.right;
        } else {
          return tmp;
        }
      }
    }

    // RB_NEXT (d == Right) and RB_PREV (d == Left): the in-order neighbour, by links alone.
    method Step(start: Node, d: Dir) returns (elm: Node?)
      requires Shape() && start in repr
      ensures 0 <= start.pos < |nodes| && nodes[start.pos] == start
      ensures d.Right? ==> elm == (if start.pos + 1 < |nodes| then nodes[start.pos + 1] else null)
      ensures d.Left? ==> elm == (if 0 < start.pos then nodes[start.pos - 1] else null)
    {
      assert Span(start, repr) && Placed(start) && Links(start);
      elm := start.Child(d);
      if elm != null {
        elm := Extreme(elm, Flip(d));
        assert Placed(elm);
        return;
      }
      elm := start;
      while elm.parent != null && elm == elm.parent.Child(d)
        invariant elm != null && elm in repr && Links(elm) && Span(elm, repr) && Placed(elm)
        invariant if d.Right? then elm.hi == start.pos + 1 else elm.lo == start.pos
        decreases |nodes| - (elm.hi - elm.lo)
      {
        assert Links(elm.parent) && Span(elm.parent, repr) && Placed(elm.parent);
        elm := elm.parent;
      }
      if elm.parent != null { assert Links(elm.parent) && Span(elm.parent, repr) && Placed(elm.parent); }
      elm := elm.parent;
    }

    // RB_MINMAX below top.
    method Extreme(top: Node, d: Dir) returns (m: Node)
      requires Shape() && top in repr
      ensures m in repr && m.pos == (if d.Left? then top.lo else top.hi - 1)
    {
      m := top;
      assert Span(m, repr);
      while m.Child(d) != null
        invariant m in repr && Span(m, repr) && (if d.Left? then m.lo == top.lo else m.hi == top.hi)
        decreases m.hi - m.lo
      {
        assert Span(m.Child(d), repr);
        m := m.Child(d);
      }
    }

    // RB_MIN (d == Left) and RB_MAX (d == Right)
    method MinMax(d: Dir) returns (m: Node?)
      requires Shape()
      ensures m == if nodes == [] then null else if d.Left? then nodes[0] else nodes[|nodes| - 1]
    {
      if root == null { return null; }
      m := Extreme(root, d);
      assert Placed(m);
    }

    // ---------- what the links mean ----------

    // The in-order walk of the links below n.
    ghost function InOrder(n: Node?): seq<Node>
      requires Shape() && (n != null ==> n in repr)
      reads this, repr
      decreases if n == null then 0 else n.hi - n.lo
    {
      if n == null then [] else
        assert Span(n, repr) && Placed(n);
        assert n.left != null ==> Span(n.left, repr);
        assert n.right != null ==> Span(n.right, repr);
        InOrder(n.left) + [n] + InOrder(n.right)
    }

    lemma {:induction false} InOrderIsRun(n: Node)
      requires Shape() && n in repr
      ensures 0 <= n.lo <= n.hi <= |nodes| && InOrder(n) == nodes[n.lo..n.hi]
      decreases n.hi - n.lo
    {
      assert Span(n, repr) && Placed(n);
      if n.left != null { assert Span(n.left, repr); InOrderIsRun(n.left); }
      if n.right != null { assert Span(n.right, repr); InOrderIsRun(n.right); }
    }

    // The sequence the contracts speak of is the in-order walk of the tree.
    lemma WalkIsNodes()
      requires Shape()
      ensures InOrder(root) == nodes
    {
      if root != null { InOrderIsRun(root); }
    }

    ghost function Height(n: Node?): nat
      requires Shape() && (n != null ==> n in repr)
      reads this, repr
      decreases if n == null then 0 else n.hi - n.lo
    {
      if n == null then 0 else
        assert Span(n, repr) && Placed(n);
        assert n.left != null ==> Span(n.left, repr);
        assert n.right != null ==> Span(n.right, repr);
        1 + if Height(n.left) < Height(n.right) then Height(n.right) else Height(n.left)
    }

    lemma {:induction false} HeightWithinBlack(n: Node?)
      requires Valid() && (n != null ==> n in repr)
      ensures 0 <= Bh(n) && Height(n) <= 2 * Bh(n) + (if IsRed(n) then 1 else 0)
      ensures n != null ==> Pow2(Bh(n)) <= n.hi - n.lo + 1
      decreases if n == null then 0 else n.hi - n.lo
    {
      if n != null {
        assert Span(n, repr) && Placed(n) && Balanced(n, NoDebt, repr) && RedOk(n, null, repr);
        if n.left != null { assert Span(n.left, repr); }
        if n.right != null { assert Span(n.right, repr); }
        HeightWithinBlack(n.left);
        HeightWithinBlack(n.right);
      }
    }

    // The height is at most 2 log2(n + 1), for every tree the operations can build.
    lemma HeightBound()
      requires Valid()
      ensures Pow2(Height(root)) <= (|nodes| + 1) * (|nodes| + 1)
    {
      HeightWithinBlack(root);
      if root != null {
        var b := Bh(root);
        PowGrows(Height(root), 2 * b);
        PowGrows(b, b);
        PowDouble(b);
        MulGrows(Pow2(b), |nodes| + 1);
      }
    }

    // RB_INIT
    constructor ()
      ensures Valid() && nodes == [] && repr == {}
    {
      root, nodes, repr := null, [], {};
    }
  }

  ghost function Pow2(n: int): int
    requires n >= 0
  {
    if n == 0 then 1 else 2 * Pow2(n - 1)
  }

  lemma PowGrows(a: int, b: int)
    requires 0 <= a <= b
    ensures 1 <= Pow2(a) <= Pow2(b)
  {
    if a < b { PowGrows(a, b - 1); } else if a > 0 { PowGrows(a - 1, b - 1); }
  }

  lemma {:induction false} PowDouble(b: int)
    requires b >= 0
    ensures Pow2(2 * b) == Pow2(b) * Pow2(b)
  {
    if b > 0 {
      PowDouble(b - 1);
      var p := Pow2(b - 1);
      assert Pow2(2 * b) == 2 * Pow2(2 * b - 1) == 2 * (2 * Pow2(2 * b - 2)) == 4 * (p * p);
      assert Pow2(b) == 2 * p;
      assert 4 * (p * p) == (2 * p) * (2 * p);
    }
  }

  lemma MulGrows(x: int, y: int)
    requires 0 <= x <= y
    ensures x * x <= y * y
  {
    assert y * y - x * x == (y - x) * (y + x);
  }
}
