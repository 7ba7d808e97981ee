/** Red-black trees of library/src/main/jni/xhook/tree.h as linked nodes, and the
    ghost view the proofs use: a finite tree with one subtree in focus. */
module RbHeap {
  import opened Strcmp

  datatype Color = Red | Black

  /** One mapped library: struct xh_core_map_info without the tree link. */
  class MapInfo {
    const pathname: string
    var baseAddr: nat

    constructor (pathname: string, baseAddr: nat)
      ensures this.pathname == pathname && this.baseAddr == baseAddr
    {
      this.pathname, this.baseAddr := pathname, baseAddr;
    }
  }

  /** The RB_ENTRY link of an element. */
  class Node {
    const elem: MapInfo
    var left: Node?
    var right: Node?
    var parent: Node?
    var color: Color

    constructor (elem: MapInfo)
      ensures this.elem == elem
    {
      this.elem := elem;
      left, right, parent, color := null, null, null, Red;
    }
  }

  /** RB_HEAD; `tree` is the ghost shape of the linked nodes. */
  class Head {
    var root: Node?
    ghost var tree: Tree

    constructor ()
      ensures root == null && tree == Leaf
    {
      root, tree := null, Leaf;
    }
  }

  datatype Tree = Leaf | Bin(c: Color, l: Tree, n: Node, r: Tree)

  /** A tree with a hole: the path from the hole up to the root. */
  datatype Ctx = Top | InL(c: Color, n: Node, r: Tree, up: Ctx) | InR(c: Color, l: Tree, n: Node, up: Ctx)

  ghost function Key(n: Node): string {
    n.elem.pathname
  }

  ghost function Root(t: Tree): Node? {
    if t.Leaf? then null else t.n
  }

  ghost function Par(x: Ctx): Node? {
    if x.Top? then null else x.n
  }

  ghost function InOrder(t: Tree): seq<Node> {
    match t
    case Leaf => []
    case Bin(_, l, n, r) => InOrder(l) + [n] + InOrder(r)
  }

  /** What precedes and what follows the hole. */
  ghost function Before(x: Ctx): seq<Node> {
    match x
    case Top => []
    case InL(_, _, _, up) => Before(up)
    case InR(_, l, n, up) => Before(up) + InOrder(l) + [n]
  }

  ghost function After(x: Ctx): seq<Node> {
    match x
    case Top => []
    case InL(_, n, r, up) => [n] + InOrder(r) + After(up)
    case InR(_, _, _, up) => After(up)
  }

  ghost function Seq(x: Ctx, t: Tree): seq<Node> {
    Before(x) + InOrder(t) + After(x)
  }

  ghost function Plug(x: Ctx, t: Tree): Tree {
    match x
    case Top => t
    case InL(c, n, r, up) => Plug(up, Bin(c, t, n, r))
    case InR(c, l, n, up) => Plug(up, Bin(c, l, n, t))
  }

  ghost function Elems(s: seq<Node>): set<Node> {
    set n | n in s
  }

  ghost predicate NoDup(s: seq<Node>) {
    forall i, j :: 0 <= i < j < |s| ==> s[i] != s[j]
  }

  /** The nodes of `t` are linked as `t` says, below parent `p`. */
  ghost predicate Rep(t: Tree, p: Node?)
    reads Elems(InOrder(t))
  {
    match t
    case Leaf => true
    case Bin(c, l, n, r) =>
      && n.color == c && n.left == Root(l) && n.right == Root(r) && n.parent == p
      && Rep(l, n) && Rep(r, n)
  }

  /** The nodes of `x` are linked as `x` says, with `hole` in the hole and `top` as the root. */
  ghost predicate RepCtx(x: Ctx, hole: Node?, top: Node?)
    reads Elems(Before(x)), Elems(After(x))
  {
    match x
    case Top => hole == top
    case InL(c, n, r, up) =>
      && n.color == c && n.left == hole && n.right == Root(r) && n.parent == Par(up)
      && Rep(r, n) && RepCtx(up, n, top)
    case InR(c, l, n, up) =>
      && n.color == c && n.left == Root(l) && n.right == hole && n.parent == Par(up)
      && Rep(l, n) && RepCtx(up, n, top)
  }

  /** The heap holds the tree Plug(x, t) below h, looked at from subtree t. */
  ghost predicate At(h: Head, x: Ctx, t: Tree)
    reads h`root, Elems(Seq(x, t))
  {
    RepCtx(x, Root(t), h.root) && Rep(t, Par(x)) && NoDup(Seq(x, t))
  }

  // ---- moving the focus ----

  lemma SeqBin(x: Ctx, t: Tree)
    requires t.Bin?
    ensures Seq(x, t) == Before(x) + InOrder(t.l) + [t.n] + (InOrder(t.r) + After(x))
  {}

  lemma SeqInL(c: Color, t: Tree, n: Node, r: Tree, up: Ctx)
    ensures Seq(InL(c, n, r, up), t) == Seq(up, Bin(c, t, n, r))
  {}

  lemma SeqInR(c: Color, l: Tree, n: Node, t: Tree, up: Ctx)
    ensures Seq(InR(c, l, n, up), t) == Seq(up, Bin(c, l, n, t))
  {
    calc {
      Seq(InR(c, l, n, up), t);
      Before(up) + InOrder(l) + [n] + InOrder(t) + After(up);
      Before(up) + (InOrder(l) + [n] + InOrder(t)) + After(up);
    }
  }

  lemma AtInL(h: Head, c: Color, t: Tree, n: Node, r: Tree, up: Ctx)
    ensures Seq(InL(c, n, r, up), t) == Seq(up, Bin(c, t, n, r))
    ensures At(h, InL(c, n, r, up), t) <==> At(h, up, Bin(c, t, n, r))
  {
    SeqInL(c, t, n, r, up);
  }

  lemma AtInR(h: Head, c: Color, l: Tree, n: Node, t: Tree, up: Ctx)
    ensures Seq(InR(c, l, n, up), t) == Seq(up, Bin(c, l, n, t))
    ensures At(h, InR(c, l, n, up), t) <==> At(h, up, Bin(c, l, n, t))
  {
    SeqInR(c, l, n, t, up);
  }

  ghost function Depth(x: Ctx): nat {
    if x.Top? then 0 else 1 + Depth(x.up)
  }

  /** The subtree rooted at the parent of the hole. */
  ghost function Wrap(x: Ctx, t: Tree): (r: Tree)
    requires !x.Top?
    ensures r.Bin? && r.n == x.n
  {
    if x.InL? then Bin(x.c, t, x.n, x.r) else Bin(x.c, x.l, x.n, t)
  }

  lemma AtWrap(h: Head, x: Ctx, t: Tree)
    requires !x.Top?
    ensures Seq(x, t) == Seq(x.up, Wrap(x, t)) && (At(h, x, t) <==> At(h, x.up, Wrap(x, t)))
  {
    if x.InL? { AtInL(h, x.c, t, x.n, x.r, x.up); } else { AtInR(h, x.c, x.l, x.n, t, x.up); }
  }

  lemma {:induction false} PlugBin(x: Ctx, t: Tree)
    requires t.Bin? || !x.Top?
    ensures Plug(x, t).Bin?
    decreases x
  {
    if !x.Top? { PlugBin(x.up, Wrap(x, t)); }
  }

  lemma {:induction false} PlugSeq(x: Ctx, t: Tree)
    ensures InOrder(Plug(x, t)) == Seq(x, t)
    decreases x
  {
    match x
    case Top => assert Seq(x, t) == InOrder(t);
    case InL(c, n, r, up) => SeqInL(c, t, n, r, up); PlugSeq(up, Bin(c, t, n, r));
    case InR(c, l, n, up) => SeqInR(c, l, n, t, up); PlugSeq(up, Bin(c, l, n, t));
  }

  lemma {:induction false} AtPlug(h: Head, x: Ctx, t: Tree)
    requires At(h, x, t)
    ensures At(h, Top, Plug(x, t)) && InOrder(Plug(x, t)) == Seq(x, t)
    decreases x
  {
    PlugSeq(x, t);
    match x
    case Top =>
    case InL(c, n, r, up) => AtInL(h, c, t, n, r, up); AtPlug(h, up, Bin(c, t, n, r));
    case InR(c, l, n, up) => AtInR(h, c, l, n, t, up); AtPlug(h, up, Bin(c, l, n, t));
  }

  lemma InOrderTop(t: Tree)
    ensures Seq(Top, t) == InOrder(t)
  {}

  // ---- what the focus says about single fields ----

  lemma AtFields(h: Head, x: Ctx, t: Tree)
    requires At(h, x, t)
    ensures t.Bin? ==> t.n.color == t.c && t.n.left == Root(t.l) && t.n.right == Root(t.r) && t.n.parent == Par(x)
    ensures t.Bin? && t.l.Bin? ==> t.l.n.color == t.l.c && t.l.n.left == Root(t.l.l) && t.l.n.right == Root(t.l.r)
    ensures t.Bin? && t.r.Bin? ==> t.r.n.color == t.r.c && t.r.n.left == Root(t.r.l) && t.r.n.right == Root(t.r.r)
    ensures x.Top? ==> h.root == Root(t)
    ensures x.InL? ==> x.n.color == x.c && x.n.left == Root(t) && x.n.right == Root(x.r) && x.n.parent == Par(x.up)
    ensures x.InR? ==> x.n.color == x.c && x.n.left == Root(x.l) && x.n.right == Root(t) && x.n.parent == Par(x.up)
    ensures x.InR? && t.Bin? ==> x.n.left != t.n
    ensures x.InL? && t.Bin? ==> x.n.right != t.n
  {
    if t.Bin? {
      assert Rep(t.l, t.n) && Rep(t.r, t.n);
      var j := |Before(x)| + |InOrder(t.l)|;
      assert Seq(x, t)[j] == t.n;
      if x.InR? && x.l.Bin? {
        assert Seq(x, t)[|Before(x.up)| + |InOrder(x.l.l)|] == x.l.n;
      } else if x.InL? && x.r.Bin? {
        assert Seq(x, t)[|Before(x)| + |InOrder(t)| + 1 + |InOrder(x.r.l)|] == x.r.n;
      }
    }
  }

  lemma NoDupParts(s: seq<Node>, t: seq<Node>)
    requires NoDup(s + t)
    ensures NoDup(s) && NoDup(t) && Elems(s) !! Elems(t)
  {
    assert s == (s + t)[..|s|] && t == (s + t)[|s|..];
    forall i, j | 0 <= i < |s| && 0 <= j < |t| ensures s[i] != t[j] {
      assert s[i] == (s + t)[i] && t[j] == (s + t)[|s| + j];
    }
  }

  /** The node sets of a focus are pairwise disjoint. */
  ghost predicate Apart(x: Ctx, a: Tree, e: Node, b: Tree) {
    var P, Q, A, B := Elems(Before(x)), Elems(After(x)), Elems(InOrder(a)), Elems(InOrder(b));
    A !! B && A !! P && B !! P && A !! Q && B !! Q && e !in A && e !in B && e !in P && e !in Q
  }

  lemma ApartBin(x: Ctx, c: Color, a: Tree, e: Node, b: Tree)
    requires NoDup(Seq(x, Bin(c, a, e, b)))
    ensures Apart(x, a, e, b)
  {
    var p, A, B, q := Before(x), InOrder(a), InOrder(b), After(x);
    assert Seq(x, Bin(c, a, e, b)) == p + (A + ([e] + (B + q)));
    NoDupParts(p, A + ([e] + (B + q)));
    NoDupParts(A, [e] + (B + q));
    NoDupParts([e], B + q);
    NoDupParts(B, q);
    assert e in Elems([e]) && e in Elems([e] + (B + q));
  }

  lemma OwnMembers(x: Ctx, t: Tree)
    ensures t.Bin? ==> t.n in Elems(InOrder(t))
    ensures x.Top? || x.n in Elems(Before(x)) || x.n in Elems(After(x))
  {}

  // ---- the tree.h macros on a focused subtree ----

  /** RB_COLOR(n) = c' for the node in focus. */
  method Paint(h: Head, n: Node, c': Color, ghost x: Ctx, ghost t: Tree)
    requires At(h, x, t) && t.Bin? && t.n == n
    modifies n
    ensures At(h, x, t.(c := c')) && Seq(x, t.(c := c')) == Seq(x, t)
  {
    ApartBin(x, t.c, t.l, n, t.r);
    assert allocated(Elems(Seq(x, t)));
    n.color := c';
  }

  /** The same for the left child of the node in focus. */
  method PaintLeft(h: Head, n: Node, c': Color, ghost x: Ctx, ghost t: Tree)
    requires At(h, x, t) && t.Bin? && t.l.Bin? && t.l.n == n
    modifies n
    ensures At(h, x, t.(l := t.l.(c := c'))) && Seq(x, t.(l := t.l.(c := c'))) == Seq(x, t)
  {
    hide At, Seq;
    AtInL(h, t.c, t.l, t.n, t.r, x);
    Paint(h, n, c', InL(t.c, t.n, t.r, x), t.l);
    AtInL(h, t.c, t.l.(c := c'), t.n, t.r, x);
  }

  method PaintRight(h: Head, n: Node, c': Color, ghost x: Ctx, ghost t: Tree)
    requires At(h, x, t) && t.Bin? && t.r.Bin? && t.r.n == n
    modifies n
    ensures At(h, x, t.(r := t.r.(c := c'))) && Seq(x, t.(r := t.r.(c := c'))) == Seq(x, t)
  {
    hide At, Seq;
    AtInR(h, t.c, t.l, t.n, t.r, x);
    Paint(h, n, c', InR(t.c, t.l, t.n, x), t.r);
    AtInR(h, t.c, t.l, t.n, t.r.(c := c'), x);
  }

  /** The innermost frame of x shares no node with the rest of x, and does not hold elm. */
  ghost predicate FrameApart(x: Ctx, elm: Node) {
    match x
    case Top => true
    case InL(_, n, r, up) => Apart(up, Leaf, n, r)
    case InR(_, l, n, up) => Apart(up, l, n, Leaf) && Root(l) != elm
  }

  lemma FrameApartOf(x: Ctx, t: Tree)
    requires t.Bin? && NoDup(Seq(x, t))
    ensures FrameApart(x, t.n)
  {
    match x
    case Top =>
    case InL(c, n, r, up) => SeqInL(c, t, n, r, up); ApartBin(up, c, t, n, r);
    case InR(c, l, n, up) =>
      SeqInR(c, l, n, t, up); ApartBin(up, c, l, n, t);
      assert l.Bin? ==> l.n in Elems(InOrder(l));
      assert t.n in Elems(InOrder(t));
  }

  /** Hooks `child` below elm's parent in place of elm, or makes it the root. */
  method ReplaceChild(h: Head, p: Node?, elm: Node, child: Node?, ghost x: Ctx)
    requires p == Par(x) && RepCtx(x, elm, h.root) && FrameApart(x, elm)
    modifies h`root, p
    ensures RepCtx(x, child, h.root)
    ensures p != null ==> p.parent == old(p.parent) && p.color == old(p.color)
  {
    assert allocated(Elems(Before(x))) && allocated(Elems(After(x)));
    if p != null {
      if p.left == elm { p.left := child; } else { p.right := child; }
    } else {
      h.root := child;
    }
  }

  /** The parent assignment guarded by a null test: RB_PARENT(child) = q. */
  method Reparent(child: Node?, q: Node?, ghost t: Tree, ghost p: Node?)
    requires child == Root(t) && Rep(t, p)
    requires t.Bin? ==> Apart(Top, t.l, t.n, t.r)
    modifies child
    ensures Rep(t, q)
    ensures child != null ==> child.left == old(child.left) && child.right == old(child.right) && child.color == old(child.color)
  {
    if child != null {
      assert allocated(Elems(InOrder(t)));
      child.parent := q;
    }
  }

  /** Two adjacent nodes e < y, three subtrees and a surrounding context, pairwise disjoint. */
  ghost predicate Apart5(x: Ctx, a: Tree, e: Node, b: Tree, y: Node, c: Tree) {
    var P, Q, A, B, C := Elems(Before(x)), Elems(After(x)), Elems(InOrder(a)), Elems(InOrder(b)), Elems(InOrder(c));
    && A !! B && A !! C && B !! C && A !! P && B !! P && C !! P && A !! Q && B !! Q && C !! Q && e != y
    && e !in A && e !in B && e !in C && e !in P && e !in Q && y !in A && y !in B && y !in C && y !in P && y !in Q
    && (x.Top? || x.n in P || x.n in Q) && (b.Leaf? || b.n in B)
    && FrameApart(x, e) && FrameApart(x, y)
    && (a.Bin? ==> Apart(Top, a.l, a.n, a.r)) && (b.Bin? ==> Apart(Top, b.l, b.n, b.r)) && (c.Bin? ==> Apart(Top, c.l, c.n, c.r))
  }

  lemma ApartSub(t: Tree)
    requires NoDup(InOrder(t))
    ensures t.Bin? ==> Apart(Top, t.l, t.n, t.r) && NoDup(InOrder(t.l)) && NoDup(InOrder(t.r))
  {
    if t.Bin? {
      assert Seq(Top, t) == InOrder(t);
      ApartBin(Top, t.c, t.l, t.n, t.r);
      NoDupParts(InOrder(t.l) + [t.n], InOrder(t.r));
      NoDupParts(InOrder(t.l), [t.n]);
    }
  }

  lemma ApartSubs(x: Ctx, t: Tree)
    requires t.Bin? && NoDup(Seq(x, t))
    ensures t.l.Bin? ==> Apart(Top, t.l.l, t.l.n, t.l.r) && NoDup(InOrder(t.l))
    ensures t.r.Bin? ==> Apart(Top, t.r.l, t.r.n, t.r.r) && NoDup(InOrder(t.r))
  {
    NoDupParts(Before(x) + InOrder(t), After(x));
    NoDupParts(Before(x), InOrder(t));
    ApartSub(t);
    ApartSub(t.l);
    ApartSub(t.r);
  }

  /** The shape after a left rotation at the root of t. */
  ghost function RotL(t: Tree): (r: Tree)
    requires t.Bin? && t.r.Bin?
  {
    Bin(t.r.c, Bin(t.c, t.l, t.n, t.r.l), t.r.n, t.r.r)
  }

  ghost function RotR(t: Tree): (r: Tree)
    requires t.Bin? && t.l.Bin?
  {
    Bin(t.l.c, t.l.l, t.l.n, Bin(t.c, t.l.r, t.n, t.r))
  }

  lemma InOrderBin(t: Tree)
    requires t.Bin?
    ensures InOrder(t) == InOrder(t.l) + [t.n] + InOrder(t.r)
  {}

  lemma RotAssoc(p: seq<Node>, m: Node, q: seq<Node>, n: Node, r: seq<Node>)
    ensures (p + [m] + q) + [n] + r == p + [m] + (q + [n] + r)
  {}

  lemma RotLSeq(x: Ctx, t: Tree)
    requires t.Bin? && t.r.Bin?
    ensures Seq(x, RotL(t)) == Seq(x, t)
  {
    hide InOrder;
    InOrderBin(t); InOrderBin(t.r); InOrderBin(RotL(t)); InOrderBin(RotL(t).l);
    RotAssoc(InOrder(t.l), t.n, InOrder(t.r.l), t.r.n, InOrder(t.r.r));
  }

  lemma RotRSeq(x: Ctx, t: Tree)
    requires t.Bin? && t.l.Bin?
    ensures Seq(x, RotR(t)) == Seq(x, t)
  {
    RotLSeq(x, RotR(t));
    assert RotL(RotR(t)) == t;
  }

  lemma Apart5Of(x: Ctx, t: Tree)
    requires t.Bin? && t.r.Bin? && NoDup(Seq(x, t))
    ensures Apart5(x, t.l, t.n, t.r.l, t.r.n, t.r.r)
  {
    var u := RotL(t);
    RotLSeq(x, t);
    ApartBin(x, t.c, t.l, t.n, t.r);
    ApartBin(x, u.c, u.l, u.n, u.r);
    FrameApartOf(x, t);
    FrameApartOf(x, u);
    ApartSubs(x, t);
    ApartSub(t.r); ApartSub(t.r.l); ApartSub(t.r.r);
    assert Elems(InOrder(t.r.l)) <= Elems(InOrder(t.r)) && t.r.n in Elems(InOrder(t.r)) && Elems(InOrder(t.r.r)) <= Elems(InOrder(t.r));
    assert Elems(InOrder(t.r.l)) <= Elems(InOrder(u.l)) && Elems(InOrder(t.l)) <= Elems(InOrder(u.l));
  }

  lemma AtSplit(h: Head, x: Ctx, t: Tree)
    requires At(h, x, t) && t.Bin?
    ensures RepCtx(x, t.n, h.root) && NoDup(Seq(x, t))
    ensures t.n.color == t.c && t.n.left == Root(t.l) && t.n.right == Root(t.r) && t.n.parent == Par(x)
    ensures Rep(t.l, t.n) && Rep(t.r, t.n)
  {}

  lemma RepSplit(t: Tree, p: Node)
    requires Rep(t, p) && t.Bin?
    ensures t.n.color == t.c && t.n.left == Root(t.l) && t.n.right == Root(t.r) && t.n.parent == p
    ensures Rep(t.l, t.n) && Rep(t.r, t.n)
  {}

  lemma MakeBin(t: Tree, p: Node?)
    requires t.Bin? && t.n.color == t.c && t.n.left == Root(t.l) && t.n.right == Root(t.r) && t.n.parent == p
    requires Rep(t.l, t.n) && Rep(t.r, t.n)
    ensures Rep(t, p)
  {}

  lemma Members(x: Ctx, t: Tree)
    requires t.Bin?
    ensures t.n in Elems(Seq(x, t)) && (x.Top? || x.n in Elems(Seq(x, t)))
    ensures t.l.Bin? ==> t.l.n in Elems(Seq(x, t)) && (t.l.r.Bin? ==> t.l.r.n in Elems(Seq(x, t)))
    ensures t.r.Bin? ==> t.r.n in Elems(Seq(x, t)) && (t.r.l.Bin? ==> t.r.l.n in Elems(Seq(x, t)))
  {
    assert t.l.Bin? ==> InOrder(t.l) == InOrder(t.l.l) + [t.l.n] + InOrder(t.l.r);
    assert t.r.Bin? ==> InOrder(t.r) == InOrder(t.r.l) + [t.r.n] + InOrder(t.r.r);
  }

  lemma AtJoin(h: Head, x: Ctx, t: Tree)
    requires RepCtx(x, Root(t), h.root) && Rep(t, Par(x)) && NoDup(Seq(x, t))
    ensures At(h, x, t)
  {}

  /** RB_ROTATE_LEFT(head, e, tmp): e's right child rises above e. */
  method RotateLeft(h: Head, e: Node, ghost x: Ctx, ghost t: Tree)
    requires At(h, x, t) && t.Bin? && t.n == e && t.r.Bin?
    modifies h`root, Elems(Seq(x, t))
    ensures At(h, x, RotL(t)) && Seq(x, RotL(t)) == Seq(x, t)
  {
    hide At, Rep, RepCtx, NoDup, FrameApart, Seq, InOrder, Before, After, Elems;
    AtSplit(h, x, t);
    RepSplit(t.r, e);
    RotLSeq(x, t);
    Apart5Of(x, t);
    Members(x, t);
    assert allocated(Elems(InOrder(t.l))) && allocated(Elems(InOrder(t.r.l))) && allocated(Elems(InOrder(t.r.r)));
    assert allocated(Elems(Before(x))) && allocated(Elems(After(x)));
    var tmp := e.right;
    e.right := tmp.left;
    Reparent(tmp.left, e, t.r.l, tmp);
    tmp.parent := e.parent;
    ReplaceChild(h, tmp.parent, e, tmp, x);
    tmp.left := e;
    e.parent := tmp;
    ghost var u := RotL(t);
    MakeBin(u.l, tmp);
    MakeBin(u, Par(x));
    AtJoin(h, x, u);
  }

  /** RB_ROTATE_RIGHT(head, e, tmp): e's left child rises above e. */
  method RotateRight(h: Head, e: Node, ghost x: Ctx, ghost t: Tree)
    requires At(h, x, t) && t.Bin? && t.n == e && t.l.Bin?
    modifies h`root, Elems(Seq(x, t))
    ensures At(h, x, RotR(t)) && Seq(x, RotR(t)) == Seq(x, t)
  {
    hide At, Rep, RepCtx, NoDup, FrameApart, Seq, InOrder, Before, After, Elems;
    ghost var u := RotR(t);
    AtSplit(h, x, t);
    RepSplit(t.l, e);
    RotRSeq(x, t);
    Apart5Of(x, u);
    Members(x, t);
    assert allocated(Elems(InOrder(t.l.l))) && allocated(Elems(InOrder(t.l.r))) && allocated(Elems(InOrder(t.r)));
    assert allocated(Elems(Before(x))) && allocated(Elems(After(x)));
    var tmp := e.left;
    e.left := tmp.right;
    Reparent(tmp.right, e, t.l.r, tmp);
    tmp.parent := e.parent;
    ReplaceChild(h, tmp.parent, e, tmp, x);
    tmp.right := e;
    e.parent := tmp;
    MakeBin(u.r, tmp);
    MakeBin(u, Par(x));
    AtJoin(h, x, u);
  }
}
