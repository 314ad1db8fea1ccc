// The splay tree of tree.h: SPLAY with its two side trees, SPLAY_FIND, SPLAY_INSERT and
// SPLAY_REMOVE. The ghost sequence s lists the nodes in order; node s[i] has pos i and
// the subtree below it holds the nodes lo to hi of s.
module SplayTree {

  class Node {
    const key: int
    var left: Node?
    var right: Node?
    ghost var pos: int
    ghost var lo: int
    ghost var hi: int

    constructor (key: int)
      ensures this.key == key && left == null && right == null
    {
      this.key := key;
      left, right := null, null;
    }
  }

  ghost predicate In(s: seq<Node>, x: Node)
    reads x`pos
  {
    0 <= x.pos < |s| && s[x.pos] == x
  }

  ghost predicate SpanAt(s: seq<Node>, i: int)
    requires 0 <= i < |s|
    reads {s[i]}`lo, {s[i]}`hi, {s[i]}`pos
  {
    s[i].pos == i && 0 <= s[i].lo <= i < s[i].hi <= |s|
  }

  ghost predicate LeftAt(s: seq<Node>, i: int)
    requires 0 <= i < |s|
    reads {s[i]}`left, {s[i]}`lo, s`pos, s`lo, s`hi
  {
    var x := s[i].left;
    if x == null then s[i].lo == i else x in s && In(s, x) && x.lo == s[i].lo && x.hi == i
  }

  ghost predicate RightAt(s: seq<Node>, i: int)
    requires 0 <= i < |s|
    reads {s[i]}`right, {s[i]}`hi, s`pos, s`lo, s`hi
  {
    var x := s[i].right;
    if x == null then s[i].hi == i + 1 else x in s && In(s, x) && x.lo == i + 1 && x.hi == s[i].hi
  }

  ghost predicate Spans(s: seq<Node>)
    reads s`pos, s`lo, s`hi
  {
    forall i :: 0 <= i < |s| ==> SpanAt(s, i)
  }

  // All left links but those of the nodes in x, and all right links but those in x.
  ghost predicate LeftsBut(s: seq<Node>, x: seq<Node>)
    reads s`left, s`pos, s`lo, s`hi
  {
    forall i {:trigger LeftAt(s, i)} :: 0 <= i < |s| && s[i] !in x ==> LeftAt(s, i)
  }

  ghost predicate RightsBut(s: seq<Node>, x: seq<Node>)
    reads s`right, s`pos, s`lo, s`hi
  {
    forall i {:trigger RightAt(s, i)} :: 0 <= i < |s| && s[i] !in x ==> RightAt(s, i)
  }

  ghost predicate Sorted(s: seq<Node>) {
    forall i, j {:trigger s[i].key, s[j].key} :: 0 <= i < j < |s| ==> s[i].key < s[j].key
  }

  // The tree below root, if it is not null, has the nodes of s in order.
  ghost predicate IsTree(s: seq<Node>, root: Node?)
    reads s`left, s`right, s`pos, s`lo, s`hi
  {
    && Spans(s) && LeftsBut(s, []) && RightsBut(s, [])
    && (root == null <==> s == []) && (root != null ==> root in s && root.lo == 0 && root.hi == |s|)
  }

  ghost predicate Child(s: seq<Node>, x: Node?, lo: int, hi: int)
    reads s`pos, s`lo, s`hi
  {
    x != null ==> x in s && In(s, x) && x.lo == lo < x.hi == hi
  }

  lemma Subtrees(s: seq<Node>, x: Node)
    requires Spans(s) && LeftsBut(s, []) && RightsBut(s, []) && x in s && In(s, x)
    ensures 0 <= x.lo <= x.pos < x.hi <= |s| && (x.left == null ==> x.lo == x.pos)
      && (x.right == null ==> x.hi == x.pos + 1)
    ensures Child(s, x.left, x.lo, x.pos) && Child(s, x.right, x.pos + 1, x.hi)
  {
    assert SpanAt(s, x.pos) && LeftAt(s, x.pos) && RightAt(s, x.pos);
    assert x.left != null ==> SpanAt(s, x.left.pos);
    assert x.right != null ==> SpanAt(s, x.right.pos);
  }

  // What a walk of the links from x meets, in order.
  ghost function Walk(s: seq<Node>, x: Node?): seq<Node>
    requires Spans(s) && LeftsBut(s, []) && RightsBut(s, []) && (x != null ==> x in s && In(s, x))
    reads s`left, s`right, s`pos, s`lo, s`hi
    decreases if x == null then 0 else x.hi - x.lo
  {
    if x == null then [] else
      Subtrees(s, x);
      Walk(s, x.left) + [x] + Walk(s, x.right)
  }

  lemma {:induction false} WalkIsRun(s: seq<Node>, x: Node)
    requires Spans(s) && LeftsBut(s, []) && RightsBut(s, []) && x in s && In(s, x)
    ensures 0 <= x.lo <= x.hi <= |s| && Walk(s, x) == s[x.lo..x.hi]
    decreases x.hi - x.lo
  {
    Subtrees(s, x);
    if x.left != null { WalkIsRun(s, x.left); }
    if x.right != null { WalkIsRun(s, x.right); }
    InThree(s, x.lo, x.pos, x.hi);
  }

  lemma InThree(s: seq<Node>, lo: int, p: int, hi: int)
    requires 0 <= lo <= p < hi <= |s|
    ensures s[lo..hi] == s[lo..p] + [s[p]] + s[p + 1..hi]
    ensures lo == p ==> s[lo..hi] == [] + [s[p]] + s[p + 1..hi]
    ensures p + 1 == hi ==> s[lo..hi] == s[lo..p] + [s[p]] + []
    ensures lo == p && p + 1 == hi ==> s[lo..hi] == [] + [s[p]] + []
  {
  }

  lemma WalkIsAll(s: seq<Node>, root: Node)
    requires IsTree(s, root)
    ensures In(s, root) && Walk(s, root) == s
  {
    InSeq(s, root);
    WalkIsRun(s, root);
  }

  ghost predicate LeftLink(s: seq<Node>, ls: seq<Node>, i: int)
    requires 1 <= i < |ls|
    reads {ls[i]}`lo, {ls[i - 1]}`pos, {ls[i - 1]}`right
  {
    ls[i].lo == (if i == 1 then 0 else ls[i - 1].pos + 1) && ls[i - 1].right == ls[i]
  }

  // The subtree of ls[i] ends where one of rs begins.
  ghost predicate LeftEnds(s: seq<Node>, ls: seq<Node>, i: int, rs: seq<Node>)
    requires 1 <= i < |ls|
    reads {ls[i]}`hi
  {
    ls[i].hi == |s| || (0 <= ls[i].hi < |s| && s[ls[i].hi] in rs)
  }

  // The tree to the left of what SPLAY still looks at: ls leads down its right edge, the
  // dummy node first, and it holds the nodes before a.
  ghost predicate LeftEdge(s: seq<Node>, ls: seq<Node>, a: int, rs: seq<Node>)
    reads ls`right, ls`pos, ls`lo, ls`hi
  {
    && |ls| > 0 && ls[0] !in s && a == (if |ls| == 1 then 0 else ls[|ls| - 1].pos + 1)
    && (forall i :: 1 <= i < |ls| ==> LeftLink(s, ls, i))
    && (forall i :: 1 <= i < |ls| ==> ls[i] in s && (if i < |ls| - 1 then ls[i].pos < a - 1 else ls[i].pos < a))
    && (forall i :: 1 <= i < |ls| ==> LeftEnds(s, ls, i, rs))
  }

  ghost predicate RightLink(s: seq<Node>, rs: seq<Node>, i: int)
    requires 1 <= i < |rs|
    reads {rs[i]}`hi, {rs[i - 1]}`pos, {rs[i - 1]}`left
  {
    rs[i].hi == (if i == 1 then |s| else rs[i - 1].pos) && rs[i - 1].left == rs[i]
  }

  ghost predicate RightEnds(s: seq<Node>, rs: seq<Node>, i: int, ls: seq<Node>)
    requires 1 <= i < |rs|
    reads {rs[i]}`lo
  {
    rs[i].lo == 0 || (0 < rs[i].lo <= |s| && s[rs[i].lo - 1] in ls)
  }

  // Likewise on the right: rs leads down the left edge of the tree of the nodes from b on.
  ghost predicate RightEdge(s: seq<Node>, rs: seq<Node>, b: int, ls: seq<Node>)
    reads rs`left, rs`pos, rs`lo, rs`hi
  {
    && |rs| > 0 && rs[0] !in s && b == (if |rs| == 1 then |s| else rs[|rs| - 1].pos)
    && (forall i :: 1 <= i < |rs| ==> RightLink(s, rs, i))
    && (forall i :: 1 <= i < |rs| ==> rs[i] in s && (if i < |rs| - 1 then rs[i].pos > b else rs[i].pos >= b))
    && (forall i :: 1 <= i < |rs| ==> RightEnds(s, rs, i, ls))
  }

  // The state of SPLAY with m at the root of what is left to look at.
  ghost predicate Open(s: seq<Node>, m: Node, ls: seq<Node>, rs: seq<Node>)
    reads s`left, s`right, s`pos, s`lo, s`hi, ls`right, ls`pos, ls`lo, ls`hi, rs`left, rs`pos, rs`lo, rs`hi
  {
    && Spans(s) && LeftsBut(s, rs) && RightsBut(s, ls) && m in s && In(s, m)
    && LeftEdge(s, ls, m.lo, rs) && RightEdge(s, rs, m.hi, ls)
  }

  lemma InSeq(s: seq<Node>, x: Node)
    requires Spans(s) && x in s
    ensures In(s, x)
  {
    var j :| 0 <= j < |s| && s[j] == x;
    assert SpanAt(s, j);
  }

  lemma NotEmpty(s: seq<Node>, x: Node)
    requires Spans(s) && In(s, x)
    ensures x.lo < x.hi
  {
    assert SpanAt(s, x.pos);
  }

  lemma LeftBorder(s: seq<Node>, ls: seq<Node>, a: int, rs: seq<Node>)
    requires Spans(s) && LeftEdge(s, ls, a, rs)
    ensures a > 0 ==> a <= |s| && s[a - 1] in ls
  {
    if |ls| > 1 { InSeq(s, ls[|ls| - 1]); }
  }

  lemma RightBorder(s: seq<Node>, rs: seq<Node>, b: int, ls: seq<Node>)
    requires Spans(s) && RightEdge(s, rs, b, ls)
    ensures b < |s| ==> 0 <= b && s[b] in rs
  {
    if |rs| > 1 { InSeq(s, rs[|rs| - 1]); }
  }

  lemma NotOnLeft(s: seq<Node>, ls: seq<Node>, a: int, rs: seq<Node>, x: Node)
    requires LeftEdge(s, ls, a, rs) && x in s && x.pos >= a
    ensures x !in ls
  {
  }

  lemma NotOnRight(s: seq<Node>, rs: seq<Node>, b: int, ls: seq<Node>, x: Node)
    requires RightEdge(s, rs, b, ls) && x in s && x.pos < b
    ensures x !in rs
  {
  }

  // m has its links, and the edges its neighbours.
  ghost predicate Settled(s: seq<Node>, m: Node, ls: seq<Node>, rs: seq<Node>)
    reads s`left, s`right, s`pos, s`lo, s`hi, m
  {
    && In(s, m) && m !in ls && m !in rs && SpanAt(s, m.pos) && LeftAt(s, m.pos) && RightAt(s, m.pos)
    && (m.lo > 0 ==> s[m.lo - 1] in ls) && (m.hi < |s| ==> s[m.hi] in rs)
  }

  lemma OpenSettled(s: seq<Node>, m: Node, ls: seq<Node>, rs: seq<Node>)
    requires Open(s, m, ls, rs)
    ensures Settled(s, m, ls, rs)
  {
    InSeq(s, m);
    assert SpanAt(s, m.pos);
    NotOnLeft(s, ls, m.lo, rs, m);
    NotOnRight(s, rs, m.hi, ls, m);
    LeftBorder(s, ls, m.lo, rs);
    RightBorder(s, rs, m.hi, ls);
  }

  // Nobody but the edges has m, or a child of m, as a child; but m has its own.
  lemma LeftParents(s: seq<Node>, m: Node, ls: seq<Node>, rs: seq<Node>, i: int)
    requires Settled(s, m, ls, rs) && 0 <= i < |s| && s[i] !in rs && s[i] != m && LeftAt(s, i)
    ensures s[i].left != m && (m.left != null ==> s[i].left != m.left) && (m.right != null ==> s[i].left != m.right)
  {
  }

  lemma RightParents(s: seq<Node>, m: Node, ls: seq<Node>, rs: seq<Node>, i: int)
    requires Settled(s, m, ls, rs) && 0 <= i < |s| && s[i] !in ls && s[i] != m && RightAt(s, i)
    ensures s[i].right != m && (m.left != null ==> s[i].right != m.left) && (m.right != null ==> s[i].right != m.right)
  {
  }

  // What a rotation of m and its child c changes nowhere else.
  lemma Apart(s: seq<Node>, m: Node, c: Node, ls: seq<Node>, rs: seq<Node>)
    requires Open(s, m, ls, rs) && (c == m.left || c == m.right)
    ensures Settled(s, m, ls, rs) && In(s, c) && c != m && c !in ls && c !in rs && SpanAt(s, c.pos) && LeftAt(s, c.pos)
      && RightAt(s, c.pos)
    ensures forall i :: 0 <= i < |s| && s[i] !in rs && i != m.pos ==> s[i].left != m && s[i].left != c
    ensures forall i :: 0 <= i < |s| && s[i] !in ls && i != m.pos ==> s[i].right != m && s[i].right != c
  {
    OpenSettled(s, m, ls, rs);
    assert SpanAt(s, c.pos);
    NotOnLeft(s, ls, m.lo, rs, c);
    NotOnRight(s, rs, m.hi, ls, c);
    forall i | 0 <= i < |s| && s[i] !in rs && i != m.pos ensures s[i].left != m && s[i].left != c {
      assert SpanAt(s, i) && LeftAt(s, i);
      LeftParents(s, m, ls, rs, i);
    }
    forall i | 0 <= i < |s| && s[i] !in ls && i != m.pos ensures s[i].right != m && s[i].right != c {
      assert SpanAt(s, i) && RightAt(s, i);
      RightParents(s, m, ls, rs, i);
    }
  }

  // SPLAY_ROTATE_RIGHT
  method TurnRight(m: Node, c: Node)
    requires m != c && c == m.left
    modifies m`left, m`lo, c`right, c`hi
    ensures m.left == old(c.right) && c.right == m && c.hi == m.hi && m.lo == c.pos + 1
  {
    m.left := c.right;
    c.right := m;
    c.hi := m.hi;
    m.lo := c.pos + 1;
  }

  method RotateRight(m: Node, c: Node, ghost s: seq<Node>, ghost ls: seq<Node>, ghost rs: seq<Node>)
    requires Open(s, m, ls, rs) && c == m.left
    modifies m`left, m`lo, c`right, c`hi
    ensures Open(s, c, ls, rs) && c.lo == old(m.lo) && c.hi == old(m.hi)
  {
    Apart(s, m, c, ls, rs);
    TurnRight(m, c);
    assert SpanAt(s, m.pos) && SpanAt(s, c.pos) && LeftAt(s, m.pos) && LeftAt(s, c.pos) && RightAt(s, m.pos)
      && RightAt(s, c.pos);
    forall i | 0 <= i < |s| && i != m.pos && i != c.pos ensures SpanAt(s, i) { assert old(SpanAt(s, i)); }
    forall i | 0 <= i < |s| && s[i] !in rs && i != m.pos && i != c.pos ensures LeftAt(s, i) {
      assert old(LeftAt(s, i));
    }
    forall i | 0 <= i < |s| && s[i] !in ls && i != m.pos && i != c.pos ensures RightAt(s, i) {
      assert old(RightAt(s, i));
    }
  }

  // SPLAY_ROTATE_LEFT
  method TurnLeft(m: Node, c: Node)
    requires m != c && c == m.right
    modifies m`right, m`hi, c`left, c`lo
    ensures m.right == old(c.left) && c.left == m && c.lo == m.lo && m.hi == c.pos
  {
    m.right := c.left;
    c.left := m;
    c.lo := m.lo;
    m.hi := c.pos;
  }

  method RotateLeft(m: Node, c: Node, ghost s: seq<Node>, ghost ls: seq<Node>, ghost rs: seq<Node>)
    requires Open(s, m, ls, rs) && c == m.right
    modifies m`right, m`hi, c`left, c`lo
    ensures Open(s, c, ls, rs) && c.lo == old(m.lo) && c.hi == old(m.hi)
  {
    Apart(s, m, c, ls, rs);
    TurnLeft(m, c);
    assert SpanAt(s, m.pos) && SpanAt(s, c.pos) && LeftAt(s, m.pos) && LeftAt(s, c.pos) && RightAt(s, m.pos)
      && RightAt(s, c.pos);
    forall i | 0 <= i < |s| && i != m.pos && i != c.pos ensures SpanAt(s, i) { assert old(SpanAt(s, i)); }
    forall i | 0 <= i < |s| && s[i] !in rs && i != m.pos && i != c.pos ensures LeftAt(s, i) {
      assert old(LeftAt(s, i));
    }
    forall i | 0 <= i < |s| && s[i] !in ls && i != m.pos && i != c.pos ensures RightAt(s, i) {
      assert old(RightAt(s, i));
    }
  }

  lemma RightEdgeGrows(s: seq<Node>, m: Node, ls: seq<Node>, rs: seq<Node>, b: int)
    requires |rs| > 0 && rs[0] !in s && b == (if |rs| == 1 then |s| else rs[|rs| - 1].pos)
    requires forall i :: 1 <= i < |rs| ==> RightLink(s, rs, i)
    requires forall i :: 1 <= i < |rs| ==> rs[i] in s && rs[i].pos >= b
    requires forall i :: 1 <= i < |rs| ==> RightEnds(s, rs, i, ls)
    requires m in s && m.pos < b == m.hi && (m.lo == 0 || (0 < m.lo <= |s| && s[m.lo - 1] in ls))
      && rs[|rs| - 1].left == m
    ensures RightEdge(s, rs + [m], m.pos, ls)
  {
    var more := rs + [m];
    forall i | 1 <= i < |more| ensures RightLink(s, more, i) { assert i < |rs| ==> RightLink(s, rs, i); }
    forall i | 1 <= i < |more| ensures RightEnds(s, more, i, ls) { assert i < |rs| ==> RightEnds(s, rs, i, ls); }
  }

  lemma OpenBelow(s: seq<Node>, c: Node, m: Node, ls: seq<Node>, rs: seq<Node>)
    requires Spans(s) && LeftsBut(s, rs) && RightsBut(s, ls) && c in s && In(s, c) && c.hi == m.pos
    requires LeftEdge(s, ls, c.lo, rs) && RightEdge(s, rs + [m], m.pos, ls)
    ensures Open(s, c, ls, rs + [m])
  {
    forall i | 1 <= i < |ls| ensures LeftEnds(s, ls, i, rs + [m]) { assert LeftEnds(s, ls, i, rs); }
  }

  // SPLAY_LINKLEFT: m goes to the tree on the right, whose left edge ends at right.
  method LinkLeft(m: Node, right: Node, ghost s: seq<Node>, ghost ls: seq<Node>, ghost rs: seq<Node>)
    requires Open(s, m, ls, rs) && m.left != null && right == rs[|rs| - 1]
    modifies right`left
    ensures m.left == old(m.left) && Open(s, m.left, ls, rs + [m]) && m.left.lo == m.lo && m.left.hi == m.pos
  {
    Apart(s, m, m.left, ls, rs);
    right.left := m;
    forall i | 0 <= i < |s| && s[i] !in rs ensures LeftAt(s, i) { assert old(LeftAt(s, i)); }
    forall i | 1 <= i < |rs| ensures RightLink(s, rs, i) { assert old(RightLink(s, rs, i)); }
    RightEdgeGrows(s, m, ls, rs, m.hi);
    OpenBelow(s, m.left, m, ls, rs);
  }

  lemma LeftEdgeGrows(s: seq<Node>, m: Node, ls: seq<Node>, rs: seq<Node>, a: int)
    requires |ls| > 0 && ls[0] !in s && a == (if |ls| == 1 then 0 else ls[|ls| - 1].pos + 1)
    requires forall i :: 1 <= i < |ls| ==> LeftLink(s, ls, i)
    requires forall i :: 1 <= i < |ls| ==> ls[i] in s && ls[i].pos < a
    requires forall i :: 1 <= i < |ls| ==> LeftEnds(s, ls, i, rs)
    requires m in s && m.pos >= a == m.lo && (m.hi == |s| || (0 <= m.hi < |s| && s[m.hi] in rs))
      && ls[|ls| - 1].right == m
    ensures LeftEdge(s, ls + [m], m.pos + 1, rs)
  {
    var more := ls + [m];
    forall i | 1 <= i < |more| ensures LeftLink(s, more, i) { assert i < |ls| ==> LeftLink(s, ls, i); }
    forall i | 1 <= i < |more| ensures LeftEnds(s, more, i, rs) { assert i < |ls| ==> LeftEnds(s, ls, i, rs); }
  }

  lemma OpenAbove(s: seq<Node>, c: Node, m: Node, ls: seq<Node>, rs: seq<Node>)
    requires Spans(s) && LeftsBut(s, rs) && RightsBut(s, ls) && c in s && In(s, c) && c.lo == m.pos + 1
    requires LeftEdge(s, ls + [m], c.lo, rs) && RightEdge(s, rs, c.hi, ls)
    ensures Open(s, c, ls + [m], rs)
  {
    forall i | 1 <= i < |rs| ensures RightEnds(s, rs, i, ls + [m]) { assert RightEnds(s, rs, i, ls); }
  }

  // SPLAY_LINKRIGHT: m goes to the tree on the left, whose right edge ends at left.
  method LinkRight(m: Node, left: Node, ghost s: seq<Node>, ghost ls: seq<Node>, ghost rs: seq<Node>)
    requires Open(s, m, ls, rs) && m.right != null && left == ls[|ls| - 1]
    modifies left`right
    ensures m.right == old(m.right) && Open(s, m.right, ls + [m], rs) && m.right.lo == m.pos + 1 && m.right.hi == m.hi
  {
    Apart(s, m, m.right, ls, rs);
    left.right := m;
    forall i | 0 <= i < |s| && s[i] !in ls ensures RightAt(s, i) { assert old(RightAt(s, i)); }
    forall i | 1 <= i < |ls| ensures LeftLink(s, ls, i) { assert old(LeftLink(s, ls, i)); }
    LeftEdgeGrows(s, m, ls, rs, m.lo);
    OpenAbove(s, m.right, m, ls, rs);
  }

  // ---------- SPLAY_ASSEMBLE ----------

  // The pointers: the two edges end at the children of m, and m takes the two trees.
  method Join(m: Node, node: Node, left: Node, right: Node)
    requires node != m && left != m && right != m
    modifies left`right, right`left, m`left, m`right
    ensures left != node ==> left.right == old(m.left) && m.left == old(node.right)
    ensures left == node ==> m.left == old(m.left)
    ensures right != node ==> right.left == old(m.right) && m.right == old(node.left)
    ensures right == node ==> m.right == old(m.right)
  {
    left.right := m.left;
    right.left := m.right;
    m.left := node.right;
    m.right := node.left;
  }

  // A subtree on an edge ends at an edge, on either side.
  lemma EdgeEnds(s: seq<Node>, ls: seq<Node>, a: int, rs: seq<Node>, b: int, x: Node)
    requires Spans(s) && LeftEdge(s, ls, a, rs) && RightEdge(s, rs, b, ls) && x in s && (x in ls || x in rs)
    ensures 0 <= x.lo <= |s| && 0 <= x.hi <= |s| && (x.hi == |s| || s[x.hi] in rs) && (x.lo == 0 || s[x.lo - 1] in ls)
  {
    InSeq(s, x);
    assert SpanAt(s, x.pos);
    if x in ls {
      var j :| 0 <= j < |ls| && ls[j] == x;
      assert LeftLink(s, ls, j) && LeftEnds(s, ls, j, rs);
      if j > 1 { InSeq(s, ls[j - 1]); }
    } else {
      var j :| 0 <= j < |rs| && rs[j] == x;
      assert RightLink(s, rs, j) && RightEnds(s, rs, j, ls);
      if j > 1 { InSeq(s, rs[j - 1]); }
    }
  }

  // Children reached by links that stay are on no edge.
  lemma LeftStays(s: seq<Node>, m: Node, ls: seq<Node>, rs: seq<Node>, i: int)
    requires Open(s, m, ls, rs) && Settled(s, m, ls, rs) && 0 <= i < |s| && s[i] !in rs && s[i] != m
      && s[i].left != null
    ensures s[i].left !in ls && s[i].left !in rs && s[i].left != m
  {
    var x := s[i].left;
    assert LeftAt(s, i);
    LeftParents(s, m, ls, rs, i);
    if x in ls || x in rs { EdgeEnds(s, ls, m.lo, rs, m.hi, x); }
  }

  lemma RightStays(s: seq<Node>, m: Node, ls: seq<Node>, rs: seq<Node>, i: int)
    requires Open(s, m, ls, rs) && Settled(s, m, ls, rs) && 0 <= i < |s| && s[i] !in ls && s[i] != m
      && s[i].right != null
    ensures s[i].right !in ls && s[i].right !in rs && s[i].right != m
  {
    var x := s[i].right;
    assert RightAt(s, i);
    RightParents(s, m, ls, rs, i);
    if x in ls || x in rs { EdgeEnds(s, ls, m.lo, rs, m.hi, x); }
  }

  // The subtrees of the edges now end at m, and that of m holds everything.
  ghost method Close(m: Node, s: seq<Node>, ls: seq<Node>, rs: seq<Node>)
    requires m in s && In(s, m) && m !in ls && m !in rs && (forall i :: 1 <= i < |ls| ==> ls[i] in s)
      && (forall i :: 1 <= i < |rs| ==> rs[i] in s)
    requires |ls| > 0 && |rs| > 0 && ls[0] !in s && rs[0] !in s
    modifies s`lo, s`hi
    ensures forall x :: x in s ==> x.hi == if x == m then |s| else if x in ls then m.pos else old(x.hi)
    ensures forall x :: x in s ==> x.lo == if x == m then 0 else if x in rs then m.pos + 1 else old(x.lo)
  {
    forall i | 1 <= i < |ls| { ls[i].hi := m.pos; }
    forall i | 1 <= i < |rs| { rs[i].lo := m.pos + 1; }
    m.lo, m.hi := 0, |s|;
  }

  // The children of m, and the links that stay, lead to no edge.
  ghost predicate Kept(s: seq<Node>, m: Node, ls: seq<Node>, rs: seq<Node>)
    reads s`left, s`right, m`left, m`right
  {
    && (forall i :: 0 <= i < |s| && s[i] !in rs && s[i].left != null ==>
      s[i].left !in ls && s[i].left !in rs && s[i].left != m)
    && (forall i :: 0 <= i < |s| && s[i] !in ls && s[i].right != null ==>
      s[i].right !in ls && s[i].right !in rs && s[i].right != m)
  }

  lemma OpenKept(s: seq<Node>, m: Node, ls: seq<Node>, rs: seq<Node>)
    requires Open(s, m, ls, rs)
    ensures Kept(s, m, ls, rs) && Settled(s, m, ls, rs)
  {
    OpenSettled(s, m, ls, rs);
    if m.left != null { Apart(s, m, m.left, ls, rs); }
    if m.right != null { Apart(s, m, m.right, ls, rs); }
    forall i | 0 <= i < |s| && s[i] !in rs && s[i].left != null
      ensures s[i].left !in ls && s[i].left !in rs && s[i].left != m
    {
      if s[i] != m { LeftStays(s, m, ls, rs, i); }
    }
    forall i | 0 <= i < |s| && s[i] !in ls && s[i].right != null
      ensures s[i].right !in ls && s[i].right !in rs && s[i].right != m
    {
      if s[i] != m { RightStays(s, m, ls, rs, i); }
    }
  }

  datatype Ends = Ends(s: seq<Node>, m: Node, ls: seq<Node>, rs: seq<Node>)

  twostate predicate Closed(t: Ends)
    reads t.s`lo, t.s`hi, t.s`pos, t.m`pos
  {
    && (forall x :: x in t.s ==> x.pos == old(x.pos) && x.hi == if x == t.m then |t.s| else if x in t.ls then t.m.pos
      else old(x.hi))
    && (forall x :: x in t.s ==> x.lo == if x == t.m then 0 else if x in t.rs then t.m.pos + 1 else old(x.lo))
  }

  // The right edge, all its subtrees starting after m, and x below its end.
  lemma RightEdgeDone(s: seq<Node>, p: int, rs: seq<Node>, x: Node?)
    requires Spans(s) && (forall j :: 1 <= j < |rs| ==> RightLink(s, rs, j))
      && (forall j :: 1 <= j < |rs| ==> rs[j] in s && rs[j].lo == p + 1)
    requires |rs| > 0 && rs[0] !in s && (|rs| > 1 ==> rs[|rs| - 1].left == x)
    requires |rs| > 1 ==> if x == null then rs[|rs| - 1].pos == p + 1
      else x in s && x.lo == p + 1 && x.hi == rs[|rs| - 1].pos
    ensures forall i :: 0 <= i < |s| && s[i] in rs ==> LeftAt(s, i)
  {
    forall i | 0 <= i < |s| && s[i] in rs ensures LeftAt(s, i) {
      var j :| 0 <= j < |rs| && rs[j] == s[i];
      assert SpanAt(s, i);
      if j + 1 < |rs| {
        assert RightLink(s, rs, j + 1);
        InSeq(s, rs[j + 1]);
      } else if x != null {
        InSeq(s, x);
      }
    }
  }

  lemma LeftEdgeDone(s: seq<Node>, p: int, ls: seq<Node>, x: Node?)
    requires Spans(s) && (forall j :: 1 <= j < |ls| ==> LeftLink(s, ls, j))
      && (forall j :: 1 <= j < |ls| ==> ls[j] in s && ls[j].hi == p)
    requires |ls| > 0 && ls[0] !in s && (|ls| > 1 ==> ls[|ls| - 1].right == x)
    requires |ls| > 1 ==> if x == null then ls[|ls| - 1].pos + 1 == p
      else x in s && x.lo == ls[|ls| - 1].pos + 1 && x.hi == p
    ensures forall i :: 0 <= i < |s| && s[i] in ls ==> RightAt(s, i)
  {
    forall i | 0 <= i < |s| && s[i] in ls ensures RightAt(s, i) {
      var j :| 0 <= j < |ls| && ls[j] == s[i];
      assert SpanAt(s, i);
      if j + 1 < |ls| {
        assert LeftLink(s, ls, j + 1);
        InSeq(s, ls[j + 1]);
      } else if x != null {
        InSeq(s, x);
      }
    }
  }

  lemma LeftApart(s: seq<Node>, ls: seq<Node>, a: int, rs: seq<Node>)
    requires LeftEdge(s, ls, a, rs)
    ensures forall x :: x in s && x in ls ==> x.pos < a
    ensures forall j :: 0 <= j < |ls| - 1 ==> ls[j] != ls[|ls| - 1]
  {
    forall j | 0 <= j < |ls| - 1 ensures ls[j] != ls[|ls| - 1] {
      if j > 0 { assert ls[j].pos < a - 1; }
    }
  }

  lemma RightApart(s: seq<Node>, rs: seq<Node>, b: int, ls: seq<Node>)
    requires RightEdge(s, rs, b, ls)
    ensures forall x :: x in s && x in rs ==> x.pos >= b
    ensures forall j :: 0 <= j < |rs| - 1 ==> rs[j] != rs[|rs| - 1]
  {
    forall j | 0 <= j < |rs| - 1 ensures rs[j] != rs[|rs| - 1] {
      if j > 0 { assert rs[j].pos > b; }
    }
  }

  // Where the edges are, apart from m and each other.
  lemma EdgesApart(s: seq<Node>, m: Node, ls: seq<Node>, rs: seq<Node>)
    requires LeftEdge(s, ls, m.lo, rs) && RightEdge(s, rs, m.hi, ls) && m.lo <= m.pos < m.hi
    ensures forall x :: x in s && x in ls ==> x.pos < m.lo && x !in rs
    ensures forall x :: x in s && x in rs ==> x.pos >= m.hi && x !in ls
    ensures forall j :: 0 <= j < |ls| - 1 ==> ls[j] != ls[|ls| - 1]
    ensures forall j :: 0 <= j < |rs| - 1 ==> rs[j] != rs[|rs| - 1]
  {
    LeftApart(s, ls, m.lo, rs);
    RightApart(s, rs, m.hi, ls);
  }

  // What SPLAY_ASSEMBLE relies on: the edges of the two trees,
  ghost predicate ReadyLeft(s: seq<Node>, m: Node, ls: seq<Node>, rs: seq<Node>)
    reads m`lo, ls`right, ls`pos, ls`lo
  {
    && |ls| > 0 && ls[0] !in s && m !in ls
    && (forall j :: 1 <= j < |ls| ==> ls[j] in s && ls[j] !in rs && ls[j].pos < m.lo)
    && (forall j :: 1 <= j < |ls| ==> LeftLink(s, ls, j)) && (forall j :: 0 <= j < |ls| - 1 ==> ls[j] != ls[|ls| - 1])
    && m.lo == (if |ls| == 1 then 0 else ls[|ls| - 1].pos + 1) && (|ls| > 1 ==> ls[0].right == ls[1] && ls[1].lo == 0)
  }

  ghost predicate ReadyRight(s: seq<Node>, m: Node, ls: seq<Node>, rs: seq<Node>)
    reads m`hi, rs`left, rs`pos, rs`hi
  {
    && |rs| > 0 && rs[0] !in s && m !in rs
    && (forall j :: 1 <= j < |rs| ==> rs[j] in s && rs[j] !in ls && rs[j].pos >= m.hi)
    && (forall j :: 1 <= j < |rs| ==> RightLink(s, rs, j)) && (forall j :: 0 <= j < |rs| - 1 ==> rs[j] != rs[|rs| - 1])
    && m.hi == (if |rs| == 1 then |s| else rs[|rs| - 1].pos) && (|rs| > 1 ==> rs[0].left == rs[1] && rs[1].hi == |s|)
  }

  // the two subtrees of m,
  ghost predicate Below(s: seq<Node>, m: Node, x: Node?, lo: int, hi: int, ls: seq<Node>, rs: seq<Node>)
    reads s`pos, s`lo, s`hi
  {
    if x == null then lo == hi
    else x in s && In(s, x) && x.lo == lo && x.hi == hi && x !in ls && x !in rs && x != m
  }

  // and the links that stay.
  ghost predicate Ready(s: seq<Node>, m: Node, ls: seq<Node>, rs: seq<Node>)
    reads s`left, s`right, s`pos, s`lo, s`hi, m, ls`right, ls`pos, ls`lo, rs`left, rs`pos, rs`hi
  {
    && Spans(s) && LeftsBut(s, rs) && RightsBut(s, ls) && Kept(s, m, ls, rs) && m in s && In(s, m)
      && m.lo <= m.pos < m.hi
    && ReadyLeft(s, m, ls, rs) && ReadyRight(s, m, ls, rs)
    && Below(s, m, m.left, m.lo, m.pos, ls, rs) && Below(s, m, m.right, m.pos + 1, m.hi, ls, rs)
  }

  lemma Children(s: seq<Node>, m: Node, ls: seq<Node>, rs: seq<Node>)
    requires Open(s, m, ls, rs)
    ensures Below(s, m, m.left, m.lo, m.pos, ls, rs) && Below(s, m, m.right, m.pos + 1, m.hi, ls, rs)
  {
    OpenSettled(s, m, ls, rs);
    if m.left != null { Apart(s, m, m.left, ls, rs); }
    if m.right != null { Apart(s, m, m.right, ls, rs); }
  }

  lemma OpenReady(s: seq<Node>, m: Node, ls: seq<Node>, rs: seq<Node>)
    requires Open(s, m, ls, rs)
    ensures Ready(s, m, ls, rs) && Settled(s, m, ls, rs)
  {
    OpenKept(s, m, ls, rs);
    EdgesApart(s, m, ls, rs);
    Children(s, m, ls, rs);
    if |ls| > 1 { assert LeftLink(s, ls, 1); }
    if |rs| > 1 { assert RightLink(s, rs, 1); }
  }

  predicate Fits(t: Ends, node: Node, left: Node, right: Node) {
    |t.ls| > 0 && |t.rs| > 0 && node == t.ls[0] == t.rs[0] && left == t.ls[|t.ls| - 1] && right == t.rs[|t.rs| - 1]
  }

  // SPLAY_ASSEMBLE has been done.
  twostate predicate TiedRight(t: Ends)
    requires |t.rs| > 0
    reads t.s`left, t.m`left, t.m`right, t.rs`left
  {
    && (forall x :: x in t.s && x != t.m && x != t.rs[|t.rs| - 1] ==> x.left == old(x.left))
    && (if |t.rs| == 1 then t.m.right == old(t.m.right)
        else
          t.rs[|t.rs| - 1].left == old(t.m.right) && t.m.right == old(t.rs[0].left)
          && t.rs[0].left == old(t.rs[0].left))
  }

  twostate predicate TiedLeft(t: Ends)
    requires |t.ls| > 0
    reads t.s`right, t.m`left, t.m`right, t.ls`right
  {
    && (forall x :: x in t.s && x != t.m && x != t.ls[|t.ls| - 1] ==> x.right == old(x.right))
    && (if |t.ls| == 1 then t.m.left == old(t.m.left)
        else
          t.ls[|t.ls| - 1].right == old(t.m.left) && t.m.left == old(t.ls[0].right)
          && t.ls[0].right == old(t.ls[0].right))
  }

  method Tie(m: Node, node: Node, left: Node, right: Node, ghost t: Ends)
    requires Fits(t, node, left, right) && t.m == m && Ready(t.s, m, t.ls, t.rs)
    modifies left`right, right`left, m`left, m`right, t.s`lo, t.s`hi
    ensures Closed(t) && TiedRight(t) && TiedLeft(t)
  {
    assert |t.ls| > 1 ==> t.ls[0] != left;
    assert |t.rs| > 1 ==> t.rs[0] != right;
    Join(m, node, left, right);
    Close(m, t.s, t.ls, t.rs);
  }

  twostate lemma SpansKept(t: Ends)
    requires old(Ready(t.s, t.m, t.ls, t.rs)) && Closed(t)
    ensures Spans(t.s)
  {
    forall i | 0 <= i < |t.s| ensures SpanAt(t.s, i) {
      var x := t.s[i];
      assert old(SpanAt(t.s, i));
      if x in t.ls { var j :| 0 <= j < |t.ls| && t.ls[j] == x; }
      if x in t.rs { var j :| 0 <= j < |t.rs| && t.rs[j] == x; }
    }
  }

  twostate lemma LeftsKept(t: Ends)
    requires old(Ready(t.s, t.m, t.ls, t.rs)) && Closed(t) && TiedRight(t)
    ensures LeftsBut(t.s, t.rs + [t.m])
  {
    forall i | 0 <= i < |t.s| && t.s[i] !in t.rs + [t.m] ensures LeftAt(t.s, i) {
      assert t.s[i] !in t.rs && t.s[i] != t.m && t.s[i] in t.s;
      assert t.s[i] != t.rs[|t.rs| - 1];
      assert old(LeftAt(t.s, i));
    }
  }

  twostate lemma RightsKept(t: Ends)
    requires old(Ready(t.s, t.m, t.ls, t.rs)) && Closed(t) && TiedLeft(t)
    ensures RightsBut(t.s, t.ls + [t.m])
  {
    forall i | 0 <= i < |t.s| && t.s[i] !in t.ls + [t.m] ensures RightAt(t.s, i) {
      assert t.s[i] !in t.ls && t.s[i] != t.m && t.s[i] in t.s;
      assert t.s[i] != t.ls[|t.ls| - 1];
      assert old(RightAt(t.s, i));
    }
  }

  twostate lemma RightLinksKept(t: Ends)
    requires old(ReadyRight(t.s, t.m, t.ls, t.rs)) && Closed(t) && TiedRight(t)
    ensures forall j :: 1 <= j < |t.rs| ==> RightLink(t.s, t.rs, j) && t.rs[j].lo == t.m.pos + 1
  {
    forall j | 1 <= j < |t.rs| ensures RightLink(t.s, t.rs, j) && t.rs[j].lo == t.m.pos + 1 {
      assert t.rs[j] in t.s && t.rs[j] in t.rs && t.rs[j - 1] in t.rs;
      assert j > 1 ==> t.rs[j - 1] in t.s;
      assert old(RightLink(t.s, t.rs, j));
    }
  }

  twostate lemma LeftLinksKept(t: Ends)
    requires old(ReadyLeft(t.s, t.m, t.ls, t.rs)) && Closed(t) && TiedLeft(t)
    ensures forall j :: 1 <= j < |t.ls| ==> LeftLink(t.s, t.ls, j) && t.ls[j].hi == t.m.pos
  {
    forall j | 1 <= j < |t.ls| ensures LeftLink(t.s, t.ls, j) && t.ls[j].hi == t.m.pos {
      assert t.ls[j] in t.s && t.ls[j] in t.ls && t.ls[j - 1] in t.ls;
      assert j > 1 ==> t.ls[j - 1] in t.s;
      assert old(LeftLink(t.s, t.ls, j));
    }
  }

  twostate lemma RightDone(t: Ends)
    requires old(ReadyRight(t.s, t.m, t.ls, t.rs)) && Closed(t) && TiedRight(t) && Spans(t.s) && t.m in t.s
    requires old(Below(t.s, t.m, t.m.right, t.m.pos + 1, t.m.hi, t.ls, t.rs))
    ensures forall i :: 0 <= i < |t.s| && t.s[i] in t.rs ==> LeftAt(t.s, i)
  {
    RightLinksKept(t);
    RightEdgeDone(t.s, t.m.pos, t.rs, old(t.m.right));
  }

  twostate lemma LeftDone(t: Ends)
    requires old(ReadyLeft(t.s, t.m, t.ls, t.rs)) && Closed(t) && TiedLeft(t) && Spans(t.s) && t.m in t.s
    requires old(Below(t.s, t.m, t.m.left, t.m.lo, t.m.pos, t.ls, t.rs))
    ensures forall i :: 0 <= i < |t.s| && t.s[i] in t.ls ==> RightAt(t.s, i)
  {
    LeftLinksKept(t);
    LeftEdgeDone(t.s, t.m.pos, t.ls, old(t.m.left));
  }

  // m is above both trees.
  twostate lemma RootRight(t: Ends)
    requires old(ReadyRight(t.s, t.m, t.ls, t.rs)) && Closed(t) && TiedRight(t) && Spans(t.s) && t.m in t.s
      && In(t.s, t.m)
    requires old(Below(t.s, t.m, t.m.right, t.m.pos + 1, t.m.hi, t.ls, t.rs))
    ensures RightAt(t.s, t.m.pos)
  {
    if |t.rs| > 1 { InSeq(t.s, t.rs[1]); assert t.rs[1] in t.rs; }
  }

  twostate lemma RootLeft(t: Ends)
    requires old(ReadyLeft(t.s, t.m, t.ls, t.rs)) && Closed(t) && TiedLeft(t) && Spans(t.s) && t.m in t.s
      && In(t.s, t.m)
    requires old(Below(t.s, t.m, t.m.left, t.m.lo, t.m.pos, t.ls, t.rs))
    ensures LeftAt(t.s, t.m.pos)
  {
    if |t.ls| > 1 { InSeq(t.s, t.ls[1]); assert t.ls[1] in t.ls; }
  }

  twostate lemma AllLefts(t: Ends)
    requires old(Ready(t.s, t.m, t.ls, t.rs)) && Closed(t) && TiedLeft(t) && TiedRight(t) && Spans(t.s) && In(t.s, t.m)
    ensures LeftsBut(t.s, [])
  {
    LeftsKept(t);
    RightDone(t);
    RootLeft(t);
    forall i | 0 <= i < |t.s| ensures LeftAt(t.s, i) {
      if t.s[i] != t.m && t.s[i] !in t.rs {
        assert t.s[i] !in t.rs + [t.m];
        assert LeftAt(t.s, i);
      } else if t.s[i] == t.m {
        assert SpanAt(t.s, i) && i == t.m.pos;
      }
    }
  }

  twostate lemma AllRights(t: Ends)
    requires old(Ready(t.s, t.m, t.ls, t.rs)) && Closed(t) && TiedLeft(t) && TiedRight(t) && Spans(t.s) && In(t.s, t.m)
    ensures RightsBut(t.s, [])
  {
    RightsKept(t);
    LeftDone(t);
    RootRight(t);
    forall i | 0 <= i < |t.s| ensures RightAt(t.s, i) {
      if t.s[i] != t.m && t.s[i] !in t.ls {
        assert t.s[i] !in t.ls + [t.m];
        assert RightAt(t.s, i);
      } else if t.s[i] == t.m {
        assert SpanAt(t.s, i) && i == t.m.pos;
      }
    }
  }

  twostate lemma AllDone(t: Ends)
    requires old(Ready(t.s, t.m, t.ls, t.rs)) && Closed(t) && TiedLeft(t) && TiedRight(t)
    ensures IsTree(t.s, t.m)
  {
    SpansKept(t);
    AllLefts(t);
    AllRights(t);
  }

  method TieAll(m: Node, node: Node, left: Node, right: Node, ghost t: Ends)
    requires Fits(t, node, left, right) && t.m == m && Ready(t.s, m, t.ls, t.rs)
    modifies left`right, right`left, m`left, m`right, t.s`lo, t.s`hi
    ensures IsTree(t.s, m)
  {
    Tie(m, node, left, right, t);
    AllDone(t);
  }

  // SPLAY_ASSEMBLE
  method Assemble(m: Node, node: Node, left: Node, right: Node, ghost t: Ends)
    requires Fits(t, node, left, right) && t.m == m && Open(t.s, m, t.ls, t.rs)
    modifies left`right, right`left, m`left, m`right, t.s`lo, t.s`hi
    ensures IsTree(t.s, m)
  {
    OpenReady(t.s, m, t.ls, t.rs);
    TieAll(m, node, left, right, t);
  }

  // The nodes SPLAY has left behind are on the right side of key.
  ghost predicate Bounds(s: seq<Node>, m: Node, key: int)
    reads m`lo, m`hi
  {
    && (forall i :: 0 <= i < m.lo && i < |s| ==> s[i].key < key)
    && (forall i :: 0 <= i < |s| && m.hi <= i ==> s[i].key > key)
  }

  // The edges end at left and right, and start at node.
  ghost predicate Grips(ls: seq<Node>, rs: seq<Node>, node: Node, left: Node, right: Node, s: seq<Node>) {
    && |ls| > 0 && |rs| > 0 && ls[0] == node && rs[0] == node && left == ls[|ls| - 1] && right == rs[|rs| - 1]
    && (left == node || left in s) && (right == node || right in s)
  }

  // No key of s lies between that of m and key: m has key if any node does, and is a
  // neighbour of where key belongs if none does.
  ghost predicate Nearest(s: seq<Node>, m: Node, key: int) {
    forall x :: x in s ==> !(m.key < x.key <= key) && !(key <= x.key < m.key)
  }

  // The search ends where there is no child to go to.
  lemma NoneBetween(key: int, s: seq<Node>, m: Node, ls: seq<Node>, rs: seq<Node>)
    requires Sorted(s) && Open(s, m, ls, rs) && Bounds(s, m, key)
    ensures m.lo <= m.pos < m.hi && In(s, m)
    ensures (key < m.key && m.left == null) || (key > m.key && m.right == null) ==> Nearest(s, m, key)
  {
    OpenSettled(s, m, ls, rs);
  }

  // The zig of SPLAY's loop, for a key before that of m.
  method ZigLeft(key: int, m: Node, ghost s: seq<Node>, ghost ls: seq<Node>, ghost rs: seq<Node>)
      returns (root: Node, stop: bool)
    requires Sorted(s) && Open(s, m, ls, rs) && Bounds(s, m, key) && key < m.key
    modifies s`left, s`right, s`lo, s`hi
    ensures Open(s, root, ls, rs) && root.lo == old(m.lo) && root.hi == old(m.hi) && key < root.key && root.lo < root.hi
    ensures if stop then Nearest(s, root, key) else root.left != null
  {
    OpenSettled(s, m, ls, rs);
    var tmp := m.left;
    if tmp != null && key < tmp.key {
      RotateRight(m, tmp, s, ls, rs);
      stop := tmp.left == null;
      NoneBetween(key, s, tmp, ls, rs);
      return tmp, stop;
    }
    NoneBetween(key, s, m, ls, rs);
    return m, tmp == null;
  }

  method CutLeft(key: int, m: Node, right: Node, ghost node: Node, ghost left: Node, ghost s: seq<Node>,
      ghost ls: seq<Node>, ghost rs: seq<Node>)
      returns (root: Node, right': Node, ghost rs': seq<Node>)
    requires Sorted(s) && Open(s, m, ls, rs) && Grips(ls, rs, node, left, right, s) && Bounds(s, m, key) && key < m.key
      && m.left != null
    modifies right`left
    ensures Open(s, root, ls, rs') && Bounds(s, root, key) && root.lo == m.lo && root.hi == m.pos < m.hi
    ensures Grips(ls, rs', node, left, right', s) && root.lo < root.hi
  {
    NoneBetween(key, s, m, ls, rs);
    LinkLeft(m, right, s, ls, rs);
    root, right', rs' := m.left, m, rs + [m];
    NotEmpty(s, root);
  }

  method ZigRight(key: int, m: Node, ghost s: seq<Node>, ghost ls: seq<Node>, ghost rs: seq<Node>)
      returns (root: Node, stop: bool)
    requires Sorted(s) && Open(s, m, ls, rs) && Bounds(s, m, key) && key > m.key
    modifies s`left, s`right, s`lo, s`hi
    ensures Open(s, root, ls, rs) && root.lo == old(m.lo) && root.hi == old(m.hi) && key > root.key && root.lo < root.hi
    ensures if stop then Nearest(s, root, key) else root.right != null
  {
    OpenSettled(s, m, ls, rs);
    var tmp := m.right;
    if tmp != null && key > tmp.key {
      RotateLeft(m, tmp, s, ls, rs);
      stop := tmp.right == null;
      NoneBetween(key, s, tmp, ls, rs);
      return tmp, stop;
    }
    NoneBetween(key, s, m, ls, rs);
    return m, tmp == null;
  }

  method CutRight(key: int, m: Node, left: Node, ghost node: Node, ghost right: Node, ghost s: seq<Node>,
      ghost ls: seq<Node>, ghost rs: seq<Node>)
      returns (root: Node, left': Node, ghost ls': seq<Node>)
    requires Sorted(s) && Open(s, m, ls, rs) && Grips(ls, rs, node, left, right, s) && Bounds(s, m, key) && key > m.key
      && m.right != null
    modifies left`right
    ensures Open(s, root, ls', rs) && Bounds(s, root, key) && root.lo == m.pos + 1 > m.lo && root.hi == m.hi
    ensures Grips(ls', rs, node, left', right, s) && root.lo < root.hi
  {
    NoneBetween(key, s, m, ls, rs);
    LinkRight(m, left, s, ls, rs);
    root, left', ls' := m.right, m, ls + [m];
    NotEmpty(s, root);
  }

  lemma TreeOpen(s: seq<Node>, root: Node, node: Node)
    requires IsTree(s, root) && node !in s
    ensures Open(s, root, [node], [node])
  {
    InSeq(s, root);
  }

  // One turn of SPLAY's loop for a key before that of m.
  method GoLeft(key: int, m: Node, right: Node, ghost node: Node, ghost left: Node, ghost s: seq<Node>,
      ghost ls: seq<Node>, ghost rs: seq<Node>)
      returns (root: Node, stop: bool, right': Node, ghost rs': seq<Node>)
    requires Sorted(s) && Open(s, m, ls, rs) && Grips(ls, rs, node, left, right, s) && Bounds(s, m, key) && key < m.key
    modifies s`left, s`right, s`lo, s`hi, right`left
    ensures Open(s, root, ls, rs') && Grips(ls, rs', node, left, right', s) && root.lo < root.hi
    ensures if stop then Nearest(s, root, key) else Bounds(s, root, key) && root.hi - root.lo < old(m.hi - m.lo)
  {
    right', rs' := right, rs;
    root, stop := ZigLeft(key, m, s, ls, rs);
    if !stop { root, right', rs' := CutLeft(key, root, right, node, left, s, ls, rs); }
  }

  method GoRight(key: int, m: Node, left: Node, ghost node: Node, ghost right: Node, ghost s: seq<Node>,
      ghost ls: seq<Node>, ghost rs: seq<Node>)
      returns (root: Node, stop: bool, left': Node, ghost ls': seq<Node>)
    requires Sorted(s) && Open(s, m, ls, rs) && Grips(ls, rs, node, left, right, s) && Bounds(s, m, key) && key > m.key
    modifies s`left, s`right, s`lo, s`hi, left`right
    ensures Open(s, root, ls', rs) && Grips(ls', rs, node, left', right, s) && root.lo < root.hi
    ensures if stop then Nearest(s, root, key) else Bounds(s, root, key) && root.hi - root.lo < old(m.hi - m.lo)
  {
    left', ls' := left, ls;
    root, stop := ZigRight(key, m, s, ls, rs);
    if !stop { root, left', ls' := CutRight(key, root, left, node, right, s, ls, rs); }
  }

  // SPLAY's loop.
  method Descend(key: int, top: Node, node: Node, ghost s: seq<Node>)
      returns (root: Node, left: Node, right: Node, ghost ls: seq<Node>, ghost rs: seq<Node>)
    requires Open(s, top, [node], [node]) && top.lo == 0 < top.hi == |s| && Sorted(s)
    modifies s`left, s`right, s`lo, s`hi, node`left, node`right
    ensures Grips(ls, rs, node, left, right, s) && Open(s, root, ls, rs) && Nearest(s, root, key)
  {
    root, left, right, ls, rs := top, node, node, [node], [node];
    while key != root.key
      invariant Grips(ls, rs, node, left, right, s) && Open(s, root, ls, rs) && Bounds(s, root, key)
        && root.lo < root.hi
      decreases root.hi - root.lo
    {
      var stop;
      if key < root.key {
        root, stop, right, rs := GoLeft(key, root, right, node, left, s, ls, rs);
      } else {
        root, stop, left, ls := GoRight(key, root, left, node, right, s, ls, rs);
      }
      if stop { break; }
    }
  }

  // The nodes a to b of s are a tree of their own below root.
  ghost predicate Piece(s: seq<Node>, a: int, b: int, root: Node?)
    requires 0 <= a <= b <= |s|
    reads s`left, s`right, s`pos, s`lo, s`hi
  {
    && (forall i :: a <= i < b ==> SpanAt(s, i) && a <= s[i].lo && s[i].hi <= b)
    && (forall i {:trigger LeftAt(s, i)} :: a <= i < b ==>
      LeftAt(s, i) && (s[i].left != null ==> a <= s[i].left.pos < b))
    && (forall i {:trigger RightAt(s, i)} :: a <= i < b ==>
      RightAt(s, i) && (s[i].right != null ==> a <= s[i].right.pos < b))
    && (root == null <==> a == b) && (root != null ==>
      root in s && In(s, root) && a <= root.pos < b && root.lo == a && root.hi == b)
  }

  // The subtree of node i lies in that of x, and on one side of x.
  lemma {:induction false} Inside(s: seq<Node>, root: Node, x: Node, i: int)
    requires IsTree(s, root) && In(s, x) && SpanAt(s, x.pos) && x.lo <= i < x.hi
    ensures x.lo <= s[i].lo && s[i].hi <= x.hi && (i < x.pos ==> s[i].hi <= x.pos) && (i > x.pos ==> s[i].lo > x.pos)
    decreases x.hi - x.lo
  {
    assert LeftAt(s, x.pos) && RightAt(s, x.pos) && SpanAt(s, i);
    if i < x.pos {
      assert SpanAt(s, x.left.pos);
      Inside(s, root, x.left, i);
    } else if i > x.pos {
      assert SpanAt(s, x.right.pos);
      Inside(s, root, x.right, i);
    }
  }

  // Without its root a tree is two.
  lemma SplitNode(s: seq<Node>, root: Node, i: int)
    requires IsTree(s, root) && In(s, root) && 0 <= i < |s|
    ensures SpanAt(s, i) && (i < root.pos ==> s[i].hi <= root.pos) && (i > root.pos ==> s[i].lo > root.pos)
    ensures LeftAt(s, i) && (s[i].left != null ==> s[i].lo <= s[i].left.pos < i)
    ensures RightAt(s, i) && (s[i].right != null ==> i < s[i].right.pos < s[i].hi)
  {
    assert SpanAt(s, root.pos) && SpanAt(s, i) && LeftAt(s, i) && RightAt(s, i);
    Inside(s, root, root, i);
    if s[i].left != null { assert SpanAt(s, s[i].left.pos); }
    if s[i].right != null { assert SpanAt(s, s[i].right.pos); }
  }

  lemma SplitLow(s: seq<Node>, root: Node)
    requires IsTree(s, root)
    ensures In(s, root) && Piece(s, 0, root.pos, root.left)
  {
    InSeq(s, root);
    SplitNode(s, root, root.pos);
    forall i | 0 <= i < root.pos ensures SpanAt(s, i) && 0 <= s[i].lo && s[i].hi <= root.pos { SplitNode(s, root, i); }
    forall i | 0 <= i < root.pos ensures LeftAt(s, i) && (s[i].left != null ==> 0 <= s[i].left.pos < root.pos) {
      SplitNode(s, root, i);
    }
    forall i | 0 <= i < root.pos ensures RightAt(s, i) && (s[i].right != null ==> 0 <= s[i].right.pos < root.pos) {
      SplitNode(s, root, i);
    }
  }

  lemma SplitHigh(s: seq<Node>, root: Node)
    requires IsTree(s, root)
    ensures In(s, root) && Piece(s, root.pos + 1, |s|, root.right)
  {
    InSeq(s, root);
    SplitNode(s, root, root.pos);
    forall i | root.pos + 1 <= i < |s| ensures SpanAt(s, i) && root.pos + 1 <= s[i].lo && s[i].hi <= |s| {
      SplitNode(s, root, i);
    }
    forall i | root.pos + 1 <= i < |s|
      ensures LeftAt(s, i) && (s[i].left != null ==> root.pos + 1 <= s[i].left.pos < |s|)
    {
      SplitNode(s, root, i);
    }
    forall i | root.pos + 1 <= i < |s|
      ensures RightAt(s, i) && (s[i].right != null ==> root.pos + 1 <= s[i].right.pos < |s|)
    {
      SplitNode(s, root, i);
    }
  }

  lemma SplitAtRoot(s: seq<Node>, root: Node)
    requires IsTree(s, root)
    ensures In(s, root) && Piece(s, 0, root.pos, root.left) && Piece(s, root.pos + 1, |s|, root.right)
  {
    SplitLow(s, root);
    SplitHigh(s, root);
  }

  // A root above two trees.
  ghost predicate Joined(s: seq<Node>, a: int, b: int, root: Node)
    reads s`left, s`right, s`pos, s`lo, s`hi, root
  {
    && 0 <= a <= root.pos < b <= |s| && In(s, root) && root.lo == a && root.hi == b
    && Piece(s, a, root.pos, root.left) && Piece(s, root.pos + 1, b, root.right)
  }

  lemma JoinSpan(s: seq<Node>, a: int, b: int, root: Node, i: int)
    requires Joined(s, a, b, root) && a <= i < b
    ensures SpanAt(s, i) && a <= s[i].lo && s[i].hi <= b
  {
  }

  lemma JoinLeft(s: seq<Node>, a: int, b: int, root: Node, i: int)
    requires Joined(s, a, b, root) && a <= i < b
    ensures LeftAt(s, i) && (s[i].left != null ==> a <= s[i].left.pos < b)
  {
    if i != root.pos { assert LeftAt(s, i); }
  }

  lemma JoinRight(s: seq<Node>, a: int, b: int, root: Node, i: int)
    requires Joined(s, a, b, root) && a <= i < b
    ensures RightAt(s, i) && (s[i].right != null ==> a <= s[i].right.pos < b)
  {
    if i != root.pos { assert RightAt(s, i); }
  }

  // With that root they are one.
  lemma JoinAtRoot(s: seq<Node>, a: int, b: int, root: Node)
    requires Joined(s, a, b, root)
    ensures Piece(s, a, b, root)
  {
    forall i | a <= i < b ensures SpanAt(s, i) && a <= s[i].lo && s[i].hi <= b { JoinSpan(s, a, b, root, i); }
    forall i | a <= i < b ensures LeftAt(s, i) && (s[i].left != null ==> a <= s[i].left.pos < b) {
      JoinLeft(s, a, b, root, i);
    }
    forall i | a <= i < b ensures RightAt(s, i) && (s[i].right != null ==> a <= s[i].right.pos < b) {
      JoinRight(s, a, b, root, i);
    }
  }

  lemma TreeAtRoot(s: seq<Node>, root: Node)
    requires In(s, root) && Piece(s, 0, root.pos, root.left) && Piece(s, root.pos + 1, |s|, root.right) && root.lo == 0
      && root.hi == |s|
    ensures IsTree(s, root)
  {
    JoinAtRoot(s, 0, |s|, root);
    PieceTree(s, root);
  }

  lemma PieceThere(s: seq<Node>, a: int, b: int, root: Node?)
    requires a == 0 && b == |s| && Piece(s, a, b, root)
    ensures IsTree(s, root)
  {
    PieceTree(s, root);
  }

  lemma PieceTree(s: seq<Node>, root: Node?)
    requires Piece(s, 0, |s|, root)
    ensures IsTree(s, root)
  {
  }

  ghost predicate Numbered(s: seq<Node>)
    reads s`pos
  {
    forall i :: 0 <= i < |s| ==> s[i].pos == i
  }

  // The nodes from p on move d places on.
  ghost method Renumber(s: seq<Node>, p: nat, d: int)
    requires Numbered(s)
    modifies s`pos, s`lo, s`hi
    ensures forall i :: 0 <= i < p && i < |s| ==> s[i].pos == i && s[i].lo == old(s[i].lo) && s[i].hi == old(s[i].hi)
    ensures forall i :: p <= i < |s| ==> s[i].pos == i + d && s[i].lo == old(s[i].lo) + d && s[i].hi == old(s[i].hi) + d
  {
    forall i | p <= i < |s| { s[i].lo := s[i].lo + d; }
    forall i | p <= i < |s| { s[i].hi := s[i].hi + d; }
    forall i | p <= i < |s| { s[i].pos := i + d; }
  }

  // The nodes a to b of s, the tree below root, are to be d places on in s'.
  datatype Move = Move(s: seq<Node>, a: int, b: int, root: Node?, d: int, s': seq<Node>)

  ghost predicate Fit(t: Move) {
    0 <= t.a <= t.b <= |t.s| && 0 <= t.a + t.d && t.b + t.d <= |t.s'|
      && forall i :: t.a <= i < t.b ==> t.s'[i + t.d] == t.s[i]
  }

  // They have moved there, as they are.
  twostate predicate Moved(s: seq<Node>, a: int, b: int, d: int)
    requires 0 <= a <= b <= |s|
    reads s`left, s`right, s`pos, s`lo, s`hi
  {
    && (forall i :: a <= i < b ==>
      s[i].pos == old(s[i].pos) + d && s[i].lo == old(s[i].lo) + d && s[i].hi == old(s[i].hi) + d)
    && (forall i :: a <= i < b ==> s[i].left == old(s[i].left) && s[i].right == old(s[i].right))
  }

  // One node n, at i before; x is a child of it, or the root.
  datatype Spot = Spot(t: Move, i: int, x: Node)

  twostate lemma NodeMoves(p: Spot)
    requires Fit(p.t) && Moved(p.t.s, p.t.a, p.t.b, p.t.d) && old(In(p.t.s, p.x)) && p.t.a <= old(p.x.pos) < p.t.b
    ensures p.x in p.t.s' && In(p.t.s', p.x) && p.x.lo == old(p.x.lo) + p.t.d && p.x.hi == old(p.x.hi) + p.t.d
      && p.x.pos == old(p.x.pos) + p.t.d
  {
    var k := old(p.x.pos);
    assert p.t.s'[k + p.t.d] == p.t.s[k];
  }

  twostate lemma SpansMove(t: Move)
    requires Fit(t) && Moved(t.s, t.a, t.b, t.d) && old(Piece(t.s, t.a, t.b, t.root))
    ensures forall i :: t.a + t.d <= i < t.b + t.d ==>
      SpanAt(t.s', i) && t.a + t.d <= t.s'[i].lo && t.s'[i].hi <= t.b + t.d
  {
    forall i | t.a + t.d <= i < t.b + t.d
      ensures SpanAt(t.s', i) && t.a + t.d <= t.s'[i].lo && t.s'[i].hi <= t.b + t.d
    {
      assert t.s'[i] == t.s[i - t.d];
      assert old(SpanAt(t.s, i - t.d));
    }
  }

  twostate lemma LeftMoves(p: Spot)
    requires Fit(p.t) && Moved(p.t.s, p.t.a, p.t.b, p.t.d) && p.t.a <= p.i < p.t.b && old(SpanAt(p.t.s, p.i))
      && old(LeftAt(p.t.s, p.i)) && old(p.t.s[p.i].left != null ==> p.t.a <= p.t.s[p.i].left.pos < p.t.b)
    ensures 0 <= p.i + p.t.d < |p.t.s'| && LeftAt(p.t.s', p.i + p.t.d)
    ensures p.t.s[p.i].left != null ==> p.t.a + p.t.d <= p.t.s[p.i].left.pos < p.t.b + p.t.d
  {
    var n := p.t.s[p.i];
    assert p.t.s'[p.i + p.t.d] == n;
    if n.left != null { NodeMoves(Spot(p.t, p.i, n.left)); }
  }

  twostate lemma RightMoves(p: Spot)
    requires Fit(p.t) && Moved(p.t.s, p.t.a, p.t.b, p.t.d) && p.t.a <= p.i < p.t.b && old(SpanAt(p.t.s, p.i))
      && old(RightAt(p.t.s, p.i)) && old(p.t.s[p.i].right != null ==> p.t.a <= p.t.s[p.i].right.pos < p.t.b)
    ensures 0 <= p.i + p.t.d < |p.t.s'| && RightAt(p.t.s', p.i + p.t.d)
    ensures p.t.s[p.i].right != null ==> p.t.a + p.t.d <= p.t.s[p.i].right.pos < p.t.b + p.t.d
  {
    var n := p.t.s[p.i];
    assert p.t.s'[p.i + p.t.d] == n;
    if n.right != null { NodeMoves(Spot(p.t, p.i, n.right)); }
  }

  twostate lemma LeftsMove(t: Move)
    requires Fit(t) && Moved(t.s, t.a, t.b, t.d) && old(Piece(t.s, t.a, t.b, t.root))
    ensures forall i {:trigger LeftAt(t.s', i)} :: t.a + t.d <= i < t.b + t.d ==>
      LeftAt(t.s', i) && (t.s'[i].left != null ==> t.a + t.d <= t.s'[i].left.pos < t.b + t.d)
  {
    forall i | t.a + t.d <= i < t.b + t.d
      ensures LeftAt(t.s', i) && (t.s'[i].left != null ==> t.a + t.d <= t.s'[i].left.pos < t.b + t.d)
    {
      var k := i - t.d;
      assert t.s'[i] == t.s[k] && old(SpanAt(t.s, k)) && old(LeftAt(t.s, k));
      LeftMoves(Spot(t, k, t.s[k]));
    }
  }

  twostate lemma RightsMove(t: Move)
    requires Fit(t) && Moved(t.s, t.a, t.b, t.d) && old(Piece(t.s, t.a, t.b, t.root))
    ensures forall i {:trigger RightAt(t.s', i)} :: t.a + t.d <= i < t.b + t.d ==>
      RightAt(t.s', i) && (t.s'[i].right != null ==> t.a + t.d <= t.s'[i].right.pos < t.b + t.d)
  {
    forall i | t.a + t.d <= i < t.b + t.d
      ensures RightAt(t.s', i) && (t.s'[i].right != null ==> t.a + t.d <= t.s'[i].right.pos < t.b + t.d)
    {
      var k := i - t.d;
      assert t.s'[i] == t.s[k] && old(SpanAt(t.s, k)) && old(RightAt(t.s, k));
      RightMoves(Spot(t, k, t.s[k]));
    }
  }

  twostate lemma PieceMoves(t: Move)
    requires Fit(t) && Moved(t.s, t.a, t.b, t.d) && old(Piece(t.s, t.a, t.b, t.root))
    ensures Piece(t.s', t.a + t.d, t.b + t.d, t.root)
  {
    SpansMove(t);
    LeftsMove(t);
    RightsMove(t);
    if t.root != null { NodeMoves(Spot(t, 0, t.root)); }
  }

  // SPLAY
  method Splay(key: int, top: Node, ghost s: seq<Node>) returns (root: Node)
    requires IsTree(s, top) && Sorted(s)
    modifies s`left, s`right, s`lo, s`hi
    ensures IsTree(s, root) && Nearest(s, root, key)
  {
    var node := new Node(0);
    var left, right;
    ghost var ls, rs;
    TreeOpen(s, top, node);
    root, left, right, ls, rs := Descend(key, top, node, s);
    Assemble(root, node, left, right, Ends(s, root, ls, rs));
  }

  // The leftmost node right of the root.
  method After(elm: Node, ghost s: seq<Node>) returns (r: Node?)
    requires IsTree(s, elm)
    ensures In(s, elm) && r == if elm.pos + 1 < |s| then s[elm.pos + 1] else null
  {
    InSeq(s, elm);
    assert SpanAt(s, elm.pos) && RightAt(s, elm.pos);
    r := elm.right;
    if r != null {
      NotEmpty(s, r);
      while r.left != null
        invariant r != null && In(s, r) && r.lo == elm.pos + 1 && r.lo < r.hi
        decreases r.hi - r.lo
      {
        assert SpanAt(s, r.pos) && LeftAt(s, r.pos);
        NotEmpty(s, r.left);
        r := r.left;
      }
      assert LeftAt(s, r.pos);
    }
  }

  ghost function With(s: seq<Node>, p: int, elm: Node): (s': seq<Node>)
    requires 0 <= p <= |s|
    ensures |s'| == |s| + 1 && s'[p] == elm && forall i :: 0 <= i < |s| ==> s'[if i < p then i else i + 1] == s[i]
  {
    s[..p] + [elm] + s[p..]
  }

  // A root at p, with its subtrees left and right; elm is to be put at q, beside it,
  // which makes the sequence s'.
  datatype Put = Put(s: seq<Node>, p: int, root: Node, left: Node?, right: Node?, elm: Node, q: int, s': seq<Node>)

  ghost predicate Parted(t: Put)
    reads t.s`left, t.s`right, t.s`pos, t.s`lo, t.s`hi
  {
    && 0 <= t.p < |t.s| && t.s[t.p] == t.root && t.elm !in t.s
    && t.p <= t.q <= t.p + 1 && Piece(t.s, 0, t.p, t.left) && Piece(t.s, t.p + 1, |t.s|, t.right)
  }

  // elm takes the number p of the root, which takes the next one, as do the nodes after it.
  ghost method NumberBefore(elm: Node, root: Node, s: seq<Node>, p: int)
    requires In(s, root) && Numbered(s) && elm !in s && p == root.pos
    modifies elm`pos, elm`lo, elm`hi, s`pos, s`lo, s`hi
    ensures elm.pos == p && elm.lo == 0 && elm.hi == |s| + 1
    ensures root.pos == root.lo == p + 1 && root.hi == |s| + 1
    ensures Moved(s, 0, p, 0) && Moved(s, p + 1, |s|, 1)
  {
    Renumber(s, p, 1);
    elm.pos, elm.lo, elm.hi := p, 0, |s| + 1;
    root.lo, root.hi := p + 1, |s| + 1;
  }

  // SPLAY_INSERT puts a new node elm before the root, above it.
  method LinkBefore(elm: Node, root: Node, ghost s: seq<Node>)
    requires In(s, root) && Numbered(s) && elm !in s
    modifies elm`left, elm`right, elm`pos, elm`lo, elm`hi, root`left, s`pos, s`lo, s`hi
    ensures elm.left == old(root.left) && elm.right == root && elm.pos == old(root.pos) && elm.lo == 0
      && elm.hi == |s| + 1
    ensures root.left == null && root.right == old(root.right) && root.pos == root.lo == old(root.pos) + 1
      && root.hi == |s| + 1
    ensures Moved(s, 0, old(root.pos), 0) && Moved(s, old(root.pos) + 1, |s|, 1)
  {
    elm.left := root.left;
    elm.right := root;
    root.left := null;
    NumberBefore(elm, root, s, root.pos);
  }

  method LinkAfter(elm: Node, root: Node, ghost s: seq<Node>)
    requires In(s, root) && Numbered(s) && elm !in s
    modifies elm`left, elm`right, elm`pos, elm`lo, elm`hi, root`right, s`pos, s`lo, s`hi
    ensures elm.right == old(root.right) && elm.left == root && elm.pos == old(root.pos) + 1 && elm.lo == 0
      && elm.hi == |s| + 1
    ensures root.right == null && root.left == old(root.left) && root.pos == old(root.pos) && root.lo == 0
      && root.hi == root.pos + 1
    ensures Moved(s, 0, old(root.pos), 0) && Moved(s, old(root.pos) + 1, |s|, 1)
  {
    ghost var p := root.pos;
    elm.right := root.right;
    elm.left := root;
    root.right := null;
    Renumber(s, p + 1, 1);
    elm.pos, elm.lo, elm.hi := p + 1, 0, |s| + 1;
    root.lo, root.hi := 0, p + 1;
  }

  ghost predicate Placed(t: Put) {
    && 0 <= t.p < |t.s| && t.p <= t.q <= t.p + 1 && t.s[t.p] == t.root && |t.s'| == |t.s| + 1
    && Fit(Move(t.s, 0, t.p, t.left, 0, t.s')) && Fit(Move(t.s, t.p + 1, |t.s|, t.right, 1, t.s'))
    && t.s'[t.q] == t.elm && t.s'[if t.q == t.p then t.p + 1 else t.p] == t.root
  }

  lemma Places(t: Put)
    requires 0 <= t.p < |t.s| && t.p <= t.q <= t.p + 1 && t.s[t.p] == t.root && t.s' == With(t.s, t.q, t.elm)
    ensures Placed(t)
  {
  }

  // elm is above the root, and that above one subtree only.
  ghost predicate Over(t: Put)
    reads t.elm, t.root
  {
    t.elm.pos == t.q && t.elm.lo == 0 && t.elm.hi == |t.s| + 1
    && if t.q == t.p then
      && t.elm.left == t.left && t.elm.right == t.root && t.root.left == null && t.root.right == t.right
      && t.root.pos == t.root.lo == t.p + 1 && t.root.hi == |t.s| + 1
    else
      && t.elm.right == t.right && t.elm.left == t.root && t.root.right == null && t.root.left == t.left
      && t.root.pos == t.p && t.root.lo == 0 && t.root.hi == t.p + 1
  }

  lemma UnderBefore(t: Put)
    requires Placed(t) && Over(t) && t.q == t.p && Piece(t.s', t.p + 2, |t.s'|, t.right)
    ensures Piece(t.s', t.p + 1, |t.s'|, t.root)
  {
    JoinAtRoot(t.s', t.p + 1, |t.s'|, t.root);
  }

  lemma OverBefore(t: Put)
    requires Placed(t) && Over(t) && t.q == t.p && Piece(t.s', 0, t.p, t.left) && Piece(t.s', t.p + 2, |t.s'|, t.right)
    ensures IsTree(t.s', t.elm)
  {
    UnderBefore(t);
    TreeAtRoot(t.s', t.elm);
  }

  lemma UnderAfter(t: Put)
    requires Placed(t) && Over(t) && t.q == t.p + 1 && Piece(t.s', 0, t.p, t.left)
    ensures Piece(t.s', 0, t.q, t.root)
  {
    JoinAtRoot(t.s', 0, t.q, t.root);
  }

  lemma OverAfter(t: Put)
    requires Placed(t) && Over(t) && t.q == t.p + 1 && Piece(t.s', 0, t.p, t.left)
      && Piece(t.s', t.p + 2, |t.s'|, t.right)
    ensures IsTree(t.s', t.elm)
  {
    UnderAfter(t);
    TreeAtRoot(t.s', t.elm);
  }

  twostate lemma LowMoves(t: Put)
    requires Placed(t) && Moved(t.s, 0, t.p, 0) && old(Piece(t.s, 0, t.p, t.left))
    ensures Piece(t.s', 0, t.p, t.left)
  {
    PieceMoves(Move(t.s, 0, t.p, t.left, 0, t.s'));
  }

  twostate lemma HighMoves(t: Put)
    requires Placed(t) && Moved(t.s, t.p + 1, |t.s|, 1) && old(Piece(t.s, t.p + 1, |t.s|, t.right))
    ensures Piece(t.s', t.p + 2, |t.s'|, t.right)
  {
    PieceMoves(Move(t.s, t.p + 1, |t.s|, t.right, 1, t.s'));
  }

  twostate lemma OverDone(t: Put)
    requires Placed(t) && Over(t) && Moved(t.s, 0, t.p, 0) && Moved(t.s, t.p + 1, |t.s|, 1)
    requires old(Piece(t.s, 0, t.p, t.left)) && old(Piece(t.s, t.p + 1, |t.s|, t.right))
    ensures IsTree(t.s', t.elm)
  {
    LowMoves(t);
    HighMoves(t);
    if t.q == t.p { OverBefore(t); } else { OverAfter(t); }
  }

  method PutBefore(elm: Node, root: Node, ghost t: Put)
    requires Parted(t) && t.elm == elm && t.root == root && root.left == t.left && root.right == t.right
      && Numbered(t.s) && t.q == t.p && Placed(t)
    modifies elm`left, elm`right, elm`pos, elm`lo, elm`hi, root`left, t.s`pos, t.s`lo, t.s`hi
    ensures IsTree(t.s', elm)
  {
    LinkBefore(elm, root, t.s);
    OverDone(t);
  }

  method PutAfter(elm: Node, root: Node, ghost t: Put)
    requires Parted(t) && t.elm == elm && t.root == root && root.left == t.left && root.right == t.right
      && Numbered(t.s) && t.q == t.p + 1 && Placed(t)
    modifies elm`left, elm`right, elm`pos, elm`lo, elm`hi, root`right, t.s`pos, t.s`lo, t.s`hi
    ensures IsTree(t.s', elm)
  {
    LinkAfter(elm, root, t.s);
    OverDone(t);
  }

  lemma HeadTree(s: seq<Node>, root: Node)
    requires IsTree(s, root)
    ensures In(s, root) && IsTree(s[..root.pos], root.left)
  {
    SplitAtRoot(s, root);
    var low := s[..root.pos];
    forall i | 0 <= i < |low| ensures SpanAt(low, i) && LeftAt(low, i) && RightAt(low, i) {
      assert SpanAt(s, i) && LeftAt(s, i) && RightAt(s, i) && low[i] == s[i];
      if low[i].left != null { assert low[low[i].left.pos] == low[i].left; }
      if low[i].right != null { assert low[low[i].right.pos] == low[i].right; }
    }
    if root.left != null { assert low[root.left.pos] == root.left; }
  }

  lemma SidesOf(s: seq<Node>, root: Node, key: int, q: int)
    requires Sorted(s) && Numbered(s) && In(s, root) && root.key != key && Nearest(s, root, key)
    requires q == if key < root.key then root.pos else root.pos + 1
    ensures forall i :: 0 <= i < q ==> s[i].key < key
    ensures forall i :: q <= i < |s| ==> s[i].key > key
  {
  }

  lemma StillSorted(s: seq<Node>, elm: Node, q: int)
    requires Sorted(s) && 0 <= q <= |s|
    requires forall i :: 0 <= i < q ==> s[i].key < elm.key
    requires forall i :: q <= i < |s| ==> s[i].key > elm.key
    ensures Sorted(With(s, q, elm))
  {
  }

  lemma Splits(s: seq<Node>, t: Put)
    requires IsTree(s, t.root) && t.s == s && t.elm !in s && t.p == t.root.pos && t.left == t.root.left
      && t.right == t.root.right && t.p <= t.q <= t.p + 1
    ensures Parted(t) && Numbered(s)
  {
    SplitAtRoot(s, t.root);
    forall i | 0 <= i < |s| ensures s[i].pos == i { assert SpanAt(s, i); }
  }

  method PutBeside(elm: Node, root: Node, ghost t: Put)
    requires IsTree(t.s, root) && t.elm == elm && t.root == root && t.p == root.pos && t.left == root.left
      && t.right == root.right
    requires elm !in t.s && root.key != elm.key && t.q == (if elm.key < root.key then t.p else t.p + 1) && Placed(t)
    modifies elm`left, elm`right, elm`pos, elm`lo, elm`hi, t.s`left, t.s`right, t.s`pos, t.s`lo, t.s`hi
    ensures IsTree(t.s', elm)
  {
    Splits(t.s, t);
    if elm.key < root.key {
      PutBefore(elm, root, t);
    } else {
      PutAfter(elm, root, t);
    }
  }

  // SPLAY_INSERT, once its SPLAY has not found the key of elm.
  method PutIn(elm: Node, root: Node, ghost s: seq<Node>) returns (ghost q: int)
    requires IsTree(s, root) && Sorted(s) && elm !in s && root.key != elm.key && Nearest(s, root, elm.key)
    modifies elm`left, elm`right, elm`pos, elm`lo, elm`hi, s`left, s`right, s`pos, s`lo, s`hi
    ensures 0 <= q <= |s| && Sorted(With(s, q, elm)) && IsTree(With(s, q, elm), elm)
  {
    InSeq(s, root);
    q := if elm.key < root.key then root.pos else root.pos + 1;
    forall i | 0 <= i < |s| ensures s[i].pos == i { assert SpanAt(s, i); }
    SidesOf(s, root, elm.key, q);
    StillSorted(s, elm, q);
    ghost var t := Put(s, root.pos, root, root.left, root.right, elm, q, With(s, q, elm));
    Places(t);
    PutBeside(elm, root, t);
  }

  // What SPLAY_INSERT returns for elm: a node that has its key, or null when it is now in s'.
  ghost predicate Inserted(s: seq<Node>, s': seq<Node>, elm: Node, r: Node?) {
    if r != null then s' == s && r in s && r.key == elm.key
    else (forall x :: x in s ==> x.key != elm.key) && exists q :: 0 <= q <= |s| && s' == With(s, q, elm)
  }

  method InsertBelow(elm: Node, top: Node, ghost s: seq<Node>) returns (root: Node, r: Node?, ghost s': seq<Node>)
    requires IsTree(s, top) && Sorted(s)
    modifies elm`left, elm`right, elm`pos, elm`lo, elm`hi, s`left, s`right, s`pos, s`lo, s`hi
    ensures IsTree(s', root) && Sorted(s') && Inserted(s, s', elm, r)
  {
    root := Splay(elm.key, top, s);
    if root.key == elm.key { return root, root, s; }
    ghost var q := PutIn(elm, root, s);
    return elm, null, With(s, q, elm);
  }

  method PutAlone(elm: Node)
    modifies elm`left, elm`right, elm`pos, elm`lo, elm`hi
    ensures IsTree([elm], elm)
  {
    elm.left, elm.right := null, null;
    elm.pos, elm.lo, elm.hi := 0, 0, 1;
  }

  method InsertAt(elm: Node, top: Node?, ghost s: seq<Node>) returns (root: Node, r: Node?, ghost s': seq<Node>)
    requires IsTree(s, top) && Sorted(s)
    modifies elm`left, elm`right, elm`pos, elm`lo, elm`hi, s`left, s`right, s`pos, s`lo, s`hi
    ensures IsTree(s', root) && Sorted(s') && Inserted(s, s', elm, r)
  {
    if top == null {
      PutAlone(elm);
      assert With(s, 0, elm) == [elm];
      return elm, null, [elm];
    }
    root, r, s' := InsertBelow(elm, top, s);
  }

  ghost function Less(s: seq<Node>, p: int): (s': seq<Node>)
    requires 0 <= p < |s|
    ensures |s'| == |s| - 1 && forall i :: 0 <= i < |s'| ==> s'[i] == s[if i < p then i else i + 1]
  {
    s[..p] + s[p + 1..]
  }

  lemma Numbers(s: seq<Node>, root: Node?)
    requires IsTree(s, root)
    ensures Numbered(s)
  {
    forall i | 0 <= i < |s| ensures s[i].pos == i { assert SpanAt(s, i); }
  }

  ghost method Back(s: seq<Node>)
    requires |s| > 0 && Numbered(s)
    modifies s`pos, s`lo, s`hi
    ensures Moved(s, 1, |s|, -1)
  {
    Renumber(s, 1, -1);
  }

  // The nodes of s but the first, as one tree, are to be all of s'.
  ghost predicate DropsFirst(t: Move) {
    Fit(t) && t.a == 1 && t.b == |t.s| && t.d == -1 && |t.s'| == |t.s| - 1
  }

  twostate lemma FirstDone(t: Move)
    requires DropsFirst(t) && Moved(t.s, t.a, t.b, t.d) && old(Piece(t.s, t.a, t.b, t.root))
    ensures IsTree(t.s', t.root)
  {
    PieceMoves(t);
    PieceThere(t.s', t.a + t.d, t.b + t.d, t.root);
  }

  ghost method ShiftBack(t: Move)
    requires DropsFirst(t) && Numbered(t.s) && Piece(t.s, t.a, t.b, t.root)
    modifies t.s`pos, t.s`lo, t.s`hi
    ensures IsTree(t.s', t.root)
  {
    Back(t.s);
    FirstDone(t);
  }

  lemma LessFits(t: Move)
    requires |t.s| > 0 && t.a == 1 && t.b == |t.s| && t.d == -1 && t.s' == Less(t.s, 0)
    ensures DropsFirst(t)
  {
  }

  lemma NoLeft(s: seq<Node>, root: Node)
    requires IsTree(s, root) && root.left == null
    ensures |s| > 0 && s[0] == root && Numbered(s) && Piece(s, 1, |s|, root.right)
  {
    InSeq(s, root);
    assert LeftAt(s, root.pos);
    SplitHigh(s, root);
    Numbers(s, root);
  }

  // SPLAY_REMOVE of a root that has no left child,
  method RemoveFirst(root: Node, ghost s: seq<Node>)
    requires IsTree(s, root) && root.left == null
    modifies s`pos, s`lo, s`hi
    ensures s[0] == root && IsTree(Less(s, 0), root.right)
  {
    NoLeft(s, root);
    ghost var t := Move(s, 1, |s|, root.right, -1, Less(s, 0));
    LessFits(t);
    ShiftBack(t);
  }

  lemma LastUp(key: int, s: seq<Node>, p: int, root: Node)
    requires 0 < p < |s| && IsTree(s[..p], root) && Sorted(s) && s[p].key == key && Nearest(s[..p], root, key)
    ensures s[p - 1] == root && root.pos == p - 1 && root.right == null && root.hi == p && root.lo == 0
  {
    var low := s[..p];
    InSeq(low, root);
    assert low[p - 1] in low && low[p - 1].key < key;
    assert RightAt(low, p - 1) && SpanAt(low, p - 1);
    if root.right != null { NotEmpty(low, root.right); }
  }

  // and of one that has: the last of the nodes before it comes up, with no right child,
  method SplayLast(key: int, top: Node, ghost s: seq<Node>, ghost p: int) returns (root: Node)
    requires 0 < p < |s| && IsTree(s[..p], top) && Sorted(s) && s[p].key == key && Numbered(s)
    modifies s[..p]`left, s[..p]`right, s[..p]`lo, s[..p]`hi
    ensures IsTree(s[..p], root) && s[p - 1] == root && root.right == null && root.pos == p - 1 && root.lo == 0
    ensures Moved(s, p + 1, |s|, 0)
  {
    root := Splay(key, top, s[..p]);
    LastUp(key, s, p, root);
  }

  // and takes the nodes after it as its right subtree.
  method LinkTail(root: Node, tmp: Node?, ghost s: seq<Node>, ghost p: int)
    requires 0 < p < |s| && Numbered(s) && s[p - 1] == root && root.lo == 0
    modifies root`right, s`pos, s`lo, s`hi
    ensures root.right == tmp && root.left == old(root.left) && root.pos == p - 1 && root.lo == 0 && root.hi == |s| - 1
    ensures Moved(s, 0, p - 1, 0) && Moved(s, p + 1, |s|, -1)
  {
    root.right := tmp;
    Renumber(s, p + 1, -1);
    root.hi := |s| - 1;
  }

  // Without the node at p the one before it has left and right as its subtrees.
  datatype Cut = Cut(s: seq<Node>, p: int, root: Node, left: Node?, right: Node?, s': seq<Node>)

  ghost predicate Joins(t: Cut) {
    && 0 < t.p < |t.s| && t.s[t.p - 1] == t.root && |t.s'| == |t.s| - 1 && t.s'[t.p - 1] == t.root
    && Fit(Move(t.s, 0, t.p - 1, t.left, 0, t.s')) && Fit(Move(t.s, t.p + 1, |t.s|, t.right, -1, t.s'))
  }

  twostate lemma CutLow(t: Cut)
    requires Joins(t) && Moved(t.s, 0, t.p - 1, 0) && old(Piece(t.s, 0, t.p - 1, t.left))
    ensures Piece(t.s', 0, t.p - 1, t.left)
  {
    PieceMoves(Move(t.s, 0, t.p - 1, t.left, 0, t.s'));
  }

  twostate lemma CutHigh(t: Cut)
    requires Joins(t) && Moved(t.s, t.p + 1, |t.s|, -1) && old(Piece(t.s, t.p + 1, |t.s|, t.right))
    ensures Piece(t.s', t.p, |t.s'|, t.right)
  {
    PieceMoves(Move(t.s, t.p + 1, |t.s|, t.right, -1, t.s'));
  }

  twostate lemma CutDone(t: Cut)
    requires Joins(t) && Moved(t.s, 0, t.p - 1, 0) && old(Piece(t.s, 0, t.p - 1, t.left))
    requires Moved(t.s, t.p + 1, |t.s|, -1) && old(Piece(t.s, t.p + 1, |t.s|, t.right))
    requires t.root.left == t.left && t.root.right == t.right && t.root.pos == t.p - 1 && t.root.lo == 0
      && t.root.hi == |t.s'|
    ensures IsTree(t.s', t.root)
  {
    CutLow(t);
    CutHigh(t);
    TreeAtRoot(t.s', t.root);
  }

  method Rejoin(root: Node, tmp: Node?, ghost t: Cut)
    requires Joins(t) && root == t.root && root.left == t.left && tmp == t.right && Numbered(t.s) && root.lo == 0
    requires Piece(t.s, 0, t.p - 1, t.left) && Piece(t.s, t.p + 1, |t.s|, t.right)
    modifies root`right, t.s`pos, t.s`lo, t.s`hi
    ensures IsTree(t.s', root)
  {
    LinkTail(root, tmp, t.s, t.p);
    CutDone(t);
  }

  lemma CutJoins(t: Cut)
    requires 0 < t.p < |t.s| && t.s[t.p - 1] == t.root && t.s' == Less(t.s, t.p)
    ensures Joins(t)
  {
  }

  lemma HeadPiece(s: seq<Node>, p: int, root: Node)
    requires 0 < p <= |s| && IsTree(s[..p], root) && root.pos == p - 1
    ensures Piece(s, 0, p - 1, root.left)
  {
    var low := s[..p];
    SplitAtRoot(low, root);
    forall i | 0 <= i < p - 1
      ensures SpanAt(s, i) && s[i].hi <= p - 1 && LeftAt(s, i) && RightAt(s, i)
    {
      assert low[i] == s[i] && SpanAt(low, i) && LeftAt(low, i) && RightAt(low, i);
    }
    forall i | 0 <= i < p - 1
      ensures s[i].left != null ==> 0 <= s[i].left.pos < p - 1
      ensures s[i].right != null ==> 0 <= s[i].right.pos < p - 1
    {
      assert low[i] == s[i] && LeftAt(low, i) && RightAt(low, i);
    }
  }

  method SplayHead(key: int, top: Node, ghost s: seq<Node>, ghost p: int) returns (root: Node)
    requires 0 < p < |s| && IsTree(s[..p], top) && Sorted(s) && s[p].key == key && Numbered(s)
    modifies s[..p]`left, s[..p]`right, s[..p]`lo, s[..p]`hi
    ensures s[p - 1] == root && root.lo == 0 && Piece(s, 0, p - 1, root.left) && Moved(s, p + 1, |s|, 0)
  {
    root := SplayLast(key, top, s, p);
    HeadPiece(s, p, root);
  }

  method SplayBoth(key: int, top: Node, ghost s: seq<Node>, ghost p: int, ghost tmp: Node?) returns (root: Node)
    requires 0 < p < |s| && IsTree(s[..p], top) && Sorted(s) && s[p].key == key && Numbered(s)
      && Piece(s, p + 1, |s|, tmp)
    modifies s[..p]`left, s[..p]`right, s[..p]`lo, s[..p]`hi
    ensures s[p - 1] == root && root.lo == 0 && Piece(s, 0, p - 1, root.left) && Piece(s, p + 1, |s|, tmp)
  {
    root := SplayHead(key, top, s, p);
    PieceMoves(Move(s, p + 1, |s|, tmp, 0, s));
  }

  method SplayJoin(key: int, top: Node, tmp: Node?, ghost s: seq<Node>, ghost p: int) returns (root: Node)
    requires 0 < p < |s| && IsTree(s[..p], top) && Sorted(s) && s[p].key == key && Numbered(s)
      && Piece(s, p + 1, |s|, tmp)
    modifies s`left, s`right, s`pos, s`lo, s`hi
    ensures IsTree(Less(s, p), root)
  {
    root := SplayBoth(key, top, s, p, tmp);
    ghost var t := Cut(s, p, root, root.left, tmp, Less(s, p));
    CutJoins(t);
    Rejoin(root, tmp, t);
  }

  method RemoveLater(key: int, root: Node, ghost s: seq<Node>) returns (top: Node)
    requires IsTree(s, root) && Sorted(s) && root.key == key && root.left != null
    modifies s`left, s`right, s`pos, s`lo, s`hi
    ensures 0 <= old(root.pos) < |s| && s[old(root.pos)] == root && IsTree(Less(s, old(root.pos)), top)
  {
    HeadTree(s, root);
    SplitAtRoot(s, root);
    Numbers(s, root);
    top := SplayJoin(key, root.left, root.right, s, root.pos);
  }

  // What SPLAY_REMOVE leaves of s: no node with that key, when there was one.
  ghost predicate Removed(s: seq<Node>, s': seq<Node>, key: int, found: bool) {
    if found then exists p :: 0 <= p < |s| && s[p].key == key && s' == Less(s, p)
    else s' == s && forall x :: x in s ==> x.key != key
  }

  method RemoveRoot(key: int, top: Node, ghost s: seq<Node>) returns (root: Node?, ghost s': seq<Node>)
    requires IsTree(s, top) && Sorted(s) && top.key == key
    modifies s`left, s`right, s`pos, s`lo, s`hi
    ensures IsTree(s', root) && Sorted(s') && Removed(s, s', key, true)
  {
    InSeq(s, top);
    s' := Less(s, top.pos);
    if top.left == null {
      RemoveFirst(top, s);
      root := top.right;
    } else {
      root := RemoveLater(key, top, s);
    }
  }

  method RemoveFrom(key: int, top: Node?, ghost s: seq<Node>) returns (root: Node?, found: bool, ghost s': seq<Node>)
    requires IsTree(s, top) && Sorted(s)
    modifies s`left, s`right, s`pos, s`lo, s`hi
    ensures IsTree(s', root) && Sorted(s') && Removed(s, s', key, found)
  {
    root, found, s' := top, false, s;
    if top == null { return; }
    root := Splay(key, top, s);
    if root.key == key {
      root, s' := RemoveRoot(key, root, s);
      found := true;
    }
  }

  class Head {
    var root: Node?
    ghost var s: seq<Node>

    constructor ()
      ensures Valid() && s == []
    {
      root, s := null, [];
    }

    ghost predicate Valid()
      reads this, s`left, s`right, s`pos, s`lo, s`hi
    {
      Sorted(s) && IsTree(s, root)
    }

    // SPLAY_FIND
    method Find(key: int) returns (r: Node?)
      requires Valid()
      modifies this`root, s`left, s`right, s`lo, s`hi
      ensures Valid()
      ensures if r == null then forall x :: x in s ==> x.key != key else r in s && r.key == key
    {
      if root == null { return null; }
      root := Splay(key, root, s);
      return if root.key == key then root else null;
    }

    // SPLAY_NEXT, for a node of the tree
    method Next(elm: Node) returns (r: Node?)
      requires Valid() && elm in s
      modifies this`root, s`left, s`right, s`lo, s`hi
      ensures Valid() && In(s, elm) && r == if elm.pos + 1 < |s| then s[elm.pos + 1] else null
    {
      root := Splay(elm.key, root, s);
      r := After(elm, s);
    }

    method Hold(top: Node?, ghost s': seq<Node>)
      requires Sorted(s') && IsTree(s', top)
      modifies this
      ensures Valid() && s == s'
    {
      root, s := top, s';
    }

    // SPLAY_INSERT
    method Insert(elm: Node) returns (r: Node?)
      requires Valid()
      modifies this, elm`left, elm`right, elm`pos, elm`lo, elm`hi, s`left, s`right, s`pos, s`lo, s`hi
      ensures Valid()
      ensures Inserted(old(s), s, elm, r)
    {
      var top: Node;
      ghost var s';
      top, r, s' := InsertAt(elm, root, s);
      Hold(top, s');
    }

    // SPLAY_REMOVE, for elm with that key; it returns elm itself.
    method Remove(elm: Node) returns (r: Node?)
      requires Valid()
      modifies this, s`left, s`right, s`pos, s`lo, s`hi
      ensures Valid()
      ensures (r == null || r == elm) && Removed(old(s), s, elm.key, r != null)
    {
      var top, found;
      ghost var s';
      top, found, s' := RemoveFrom(elm.key, root, s);
      Hold(top, s');
      return if found then elm else null;
    }
  }
}
