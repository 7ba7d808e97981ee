/** Top-down splay trees of tree.h. A splay tree uses the left and right fields of a link. */
module Splay {
  import opened Strcmp
  import opened RbHeap
  import opened RbBalance
  import opened RbRemove
  import opened RbScan

  datatype Tree = Empty | Fork(l: Tree, n: Node, r: Tree)

  /** The tree built so far on one side: each linked node with the subtree it keeps; the last
      one linked is the innermost. */
  datatype Spine = Nil | Snoc(up: Spine, s: Tree, n: Node)

  /** SPLAY_HEAD. */
  class Head {
    var root: Node?
    ghost var tree: Tree

    constructor ()
      ensures root == null && tree == Empty
    {
      root, tree := null, Empty;
    }
  }

  ghost function Root(t: Tree): Node? {
    if t.Empty? then null else t.n
  }

  ghost function InOrder(t: Tree): seq<Node> {
    if t.Empty? then [] else InOrder(t.l) + [t.n] + InOrder(t.r)
  }

  ghost function Lefts(sp: Spine): seq<Node> {
    if sp.Nil? then [] else Lefts(sp.up) + InOrder(sp.s) + [sp.n]
  }

  ghost function Rights(sp: Spine): seq<Node> {
    if sp.Nil? then [] else [sp.n] + InOrder(sp.s) + Rights(sp.up)
  }

  ghost function Whole(lsp: Spine, t: Tree, rsp: Spine): seq<Node> {
    Lefts(lsp) + InOrder(t) + Rights(rsp)
  }

  ghost predicate Rep(t: Tree)
    reads Elems(InOrder(t))
  {
    t.Fork? ==> t.n.left == Root(t.l) && t.n.right == Root(t.r) && Rep(t.l) && Rep(t.r)
  }

  ghost function Last(sp: Spine, hdr: Node): Node {
    if sp.Nil? then hdr else sp.n
  }

  /** The left tree hangs from hdr.right; the right link of its last node is still open. */
  ghost predicate RepLeft(sp: Spine, hdr: Node)
    reads hdr`right, Elems(Lefts(sp))
  {
    assert sp.Snoc? && sp.up.Snoc? ==> sp.up.n in Elems(Lefts(sp));
    sp.Snoc? ==> sp.n.left == Root(sp.s) && Rep(sp.s) && Last(sp.up, hdr).right == sp.n && RepLeft(sp.up, hdr)
  }

  ghost predicate RepRight(sp: Spine, hdr: Node)
    reads hdr`left, Elems(Rights(sp))
  {
    assert sp.Snoc? && sp.up.Snoc? ==> sp.up.n in Elems(Rights(sp));
    sp.Snoc? ==> sp.n.right == Root(sp.s) && Rep(sp.s) && Last(sp.up, hdr).left == sp.n && RepRight(sp.up, hdr)
  }

  /** The loop of SPLAY: three trees and the header node __node. */
  ghost predicate Mid(h: Head, hdr: Node, left: Node, right: Node, lsp: Spine, t: Tree, rsp: Spine)
    reads h`root, hdr, Elems(Lefts(lsp)), Elems(InOrder(t)), Elems(Rights(rsp))
  {
    && h.root == Root(t) && Rep(t) && RepLeft(lsp, hdr) && RepRight(rsp, hdr)
    && left == Last(lsp, hdr) && right == Last(rsp, hdr)
    && NoDup(Whole(lsp, t, rsp)) && hdr !in Whole(lsp, t, rsp)
  }

  ghost function RotR(t: Tree): Tree
    requires t.Fork? && t.l.Fork?
  {
    Fork(t.l.l, t.l.n, Fork(t.l.r, t.n, t.r))
  }

  ghost function RotL(t: Tree): Tree
    requires t.Fork? && t.r.Fork?
  {
    Fork(Fork(t.l, t.n, t.r.l), t.r.n, t.r.r)
  }

  lemma InOrderFork(t: Tree)
    requires t.Fork?
    ensures InOrder(t) == InOrder(t.l) + [t.n] + InOrder(t.r)
  {}

  lemma RotRSeq(t: Tree)
    requires t.Fork? && t.l.Fork?
    ensures InOrder(RotR(t)) == InOrder(t)
  {
    hide InOrder;
    InOrderFork(t); InOrderFork(t.l); InOrderFork(RotR(t)); InOrderFork(RotR(t).r);
    RotAssoc(InOrder(t.l.l), t.l.n, InOrder(t.l.r), t.n, InOrder(t.r));
  }

  lemma RotLSeq(t: Tree)
    requires t.Fork? && t.r.Fork?
    ensures InOrder(RotL(t)) == InOrder(t)
  {
    RotRSeq(RotL(t));
    assert RotR(RotL(t)) == t;
  }

  // ---- disjointness, from the sequence having no repetition ----

  ghost predicate Apart(A: seq<Node>, n: Node, B: seq<Node>) {
    Elems(A) !! Elems(B) && n !in Elems(A) && n !in Elems(B)
  }

  lemma ApartOf(A: seq<Node>, n: Node, B: seq<Node>)
    requires NoDup(A + [n] + B)
    ensures Apart(A, n, B) && NoDup(A) && NoDup(B)
  {
    NoDupParts(A + [n], B);
    NoDupParts(A, [n]);
    assert n in Elems([n]) && n in Elems(A + [n]);
    assert forall k :: k in Elems(A) ==> k in Elems(A + [n]);
  }

  /** The three parts share no node. */
  lemma PartsApart(lsp: Spine, t: Tree, rsp: Spine)
    requires NoDup(Whole(lsp, t, rsp))
    ensures var L, T, R := Elems(Lefts(lsp)), Elems(InOrder(t)), Elems(Rights(rsp));
            L !! T && L !! R && T !! R
    ensures NoDup(InOrder(t)) && NoDup(Lefts(lsp)) && NoDup(Rights(rsp))
    ensures lsp.Snoc? ==> lsp.n in Elems(Lefts(lsp))
    ensures rsp.Snoc? ==> rsp.n in Elems(Rights(rsp))
    ensures t.Fork? ==> t.n in Elems(InOrder(t)) && Apart(InOrder(t.l), t.n, InOrder(t.r))
    ensures t.Fork? ==> Elems(InOrder(t.l)) <= Elems(InOrder(t)) && Elems(InOrder(t.r)) <= Elems(InOrder(t))
    ensures t.Fork? ==> (t.l.Fork? ==> t.l.n in Elems(InOrder(t.l))) && (t.r.Fork? ==> t.r.n in Elems(InOrder(t.r)))
  {
    var A, B, C := Lefts(lsp), InOrder(t), Rights(rsp);
    NoDupParts(A + B, C);
    NoDupParts(A, B);
    assert forall k :: k in Elems(A) || k in Elems(B) ==> k in Elems(A + B);
    if t.Fork? { ApartOf(InOrder(t.l), t.n, InOrder(t.r)); }
  }

  lemma MidParts(h: Head, hdr: Node, left: Node, right: Node, lsp: Spine, t: Tree, rsp: Spine)
    requires Mid(h, hdr, left, right, lsp, t, rsp)
    ensures h.root == Root(t) && Rep(t) && RepLeft(lsp, hdr) && RepRight(rsp, hdr)
    ensures left == Last(lsp, hdr) && right == Last(rsp, hdr) && NoDup(Whole(lsp, t, rsp)) && hdr !in Whole(lsp, t, rsp)
    ensures hdr !in Elems(Lefts(lsp)) && hdr !in Elems(InOrder(t)) && hdr !in Elems(Rights(rsp))
  {}

  lemma MidJoin(h: Head, hdr: Node, left: Node, right: Node, lsp: Spine, t: Tree, rsp: Spine)
    requires h.root == Root(t) && Rep(t) && RepLeft(lsp, hdr) && RepRight(rsp, hdr)
    requires left == Last(lsp, hdr) && right == Last(rsp, hdr) && NoDup(Whole(lsp, t, rsp)) && hdr !in Whole(lsp, t, rsp)
    ensures Mid(h, hdr, left, right, lsp, t, rsp)
  {}

  lemma RepParts(t: Tree)
    requires Rep(t) && t.Fork?
    ensures t.n.left == Root(t.l) && t.n.right == Root(t.r) && Rep(t.l) && Rep(t.r)
  {}

  lemma MakeRep(t: Tree)
    requires t.Fork? && t.n.left == Root(t.l) && t.n.right == Root(t.r) && Rep(t.l) && Rep(t.r)
    ensures Rep(t)
  {}

  /** The pieces of a rotation at t. */
  lemma RotateApart(t: Tree)
    requires t.Fork? && t.l.Fork? && NoDup(InOrder(t))
    ensures var A, B, C := Elems(InOrder(t.l.l)), Elems(InOrder(t.l.r)), Elems(InOrder(t.r));
            t.n != t.l.n && t.n !in A && t.n !in B && t.n !in C && t.l.n !in A && t.l.n !in B && t.l.n !in C
    ensures t.n in Elems(InOrder(t)) && t.l.n in Elems(InOrder(t))
  {
    RotRSeq(t);
    ApartOf(InOrder(t.l), t.n, InOrder(t.r));
    ApartOf(InOrder(t.l.l), t.l.n, InOrder(RotR(t).r));
    assert t.l.n in InOrder(t.l);
    assert forall k :: k in InOrder(t.l.l) || k in InOrder(t.l.r) ==> k in InOrder(t.l);
    assert forall k :: k in InOrder(t.l.r) || k in InOrder(t.r) || k == t.n ==> k in InOrder(RotR(t).r);
  }

  // ---- the macros ----

  /** SPLAY_ROTATE_RIGHT(head, tmp) with tmp the root's left child. */
  method RotateRight(h: Head, tmp: Node, ghost hdr: Node, ghost left: Node, ghost right: Node, ghost lsp: Spine, ghost t: Tree, ghost rsp: Spine)
    requires Mid(h, hdr, left, right, lsp, t, rsp) && t.Fork? && t.l.Fork? && tmp == t.l.n
    modifies h`root, t.n, tmp
    ensures Mid(h, hdr, left, right, lsp, RotR(t), rsp) && Whole(lsp, RotR(t), rsp) == Whole(lsp, t, rsp)
  {
    hide Mid, NoDup, Rep, RepLeft, RepRight, InOrder, Lefts, Rights, Elems;
    MidParts(h, hdr, left, right, lsp, t, rsp);
    PartsApart(lsp, t, rsp);
    RotRSeq(t);
    RotateApart(t);
    RepParts(t);
    RepParts(t.l);
    assert allocated(Elems(Lefts(lsp))) && allocated(Elems(Rights(rsp)));
    assert allocated(Elems(InOrder(t.l.l))) && allocated(Elems(InOrder(t.l.r))) && allocated(Elems(InOrder(t.r)));
    h.root.left := tmp.right;
    tmp.right := h.root;
    h.root := tmp;
    MakeRep(RotR(t).r);
    MakeRep(RotR(t));
    MidJoin(h, hdr, left, right, lsp, RotR(t), rsp);
  }

  /** SPLAY_ROTATE_LEFT(head, tmp) with tmp the root's right child. */
  method RotateLeft(h: Head, tmp: Node, ghost hdr: Node, ghost left: Node, ghost right: Node, ghost lsp: Spine, ghost t: Tree, ghost rsp: Spine)
    requires Mid(h, hdr, left, right, lsp, t, rsp) && t.Fork? && t.r.Fork? && tmp == t.r.n
    modifies h`root, t.n, tmp
    ensures Mid(h, hdr, left, right, lsp, RotL(t), rsp) && Whole(lsp, RotL(t), rsp) == Whole(lsp, t, rsp)
  {
    hide Mid, NoDup, Rep, RepLeft, RepRight, InOrder, Lefts, Rights, Elems;
    MidParts(h, hdr, left, right, lsp, t, rsp);
    PartsApart(lsp, t, rsp);
    RotLSeq(t);
    RotateApart(RotL(t));
    RepParts(t);
    RepParts(t.r);
    assert allocated(Elems(Lefts(lsp))) && allocated(Elems(Rights(rsp)));
    assert allocated(Elems(InOrder(t.l))) && allocated(Elems(InOrder(t.r.l))) && allocated(Elems(InOrder(t.r.r)));
    h.root.right := tmp.left;
    tmp.left := h.root;
    h.root := tmp;
    MakeRep(RotL(t).l);
    MakeRep(RotL(t));
    MidJoin(h, hdr, left, right, lsp, RotL(t), rsp);
  }

  /** The innermost node of a spine is apart from the rest of it. */
  lemma LeftsSnoc(sp: Spine)
    requires sp.Snoc?
    ensures Lefts(sp) == Lefts(sp.up) + InOrder(sp.s) + [sp.n]
  {}

  lemma RightsSnoc(sp: Spine)
    requires sp.Snoc?
    ensures Rights(sp) == [sp.n] + (InOrder(sp.s) + Rights(sp.up))
  {
    assert Rights(sp) == [sp.n] + InOrder(sp.s) + Rights(sp.up);
  }

  lemma ThreeApart(a: seq<Node>, n: Node, b: seq<Node>)
    requires NoDup(a + b + [n]) || NoDup([n] + (a + b))
    ensures Apart(a, n, b)
  {
    hide NoDup;
    if NoDup(a + b + [n]) { NoDupParts(a + b, [n]); } else { NoDupParts([n], a + b); }
    NoDupParts(a, b);
    assert n in Elems([n]);
    assert forall k :: k in a || k in b ==> k in Elems(a + b);
  }

  lemma LeftsApart(sp: Spine, hdr: Node)
    requires sp.Snoc? && NoDup(Lefts(sp))
    ensures Apart(Lefts(sp.up), sp.n, InOrder(sp.s)) && (Last(sp.up, hdr) == hdr || Last(sp.up, hdr) in Elems(Lefts(sp.up)))
  {
    hide NoDup, InOrder;
    LeftsSnoc(sp);
    ThreeApart(Lefts(sp.up), sp.n, InOrder(sp.s));
  }

  lemma RightsApart(sp: Spine, hdr: Node)
    requires sp.Snoc? && NoDup(Rights(sp))
    ensures Apart(InOrder(sp.s), sp.n, Rights(sp.up)) && (Last(sp.up, hdr) == hdr || Last(sp.up, hdr) in Elems(Rights(sp.up)))
  {
    hide NoDup, InOrder;
    RightsSnoc(sp);
    ThreeApart(InOrder(sp.s), sp.n, Rights(sp.up));
  }

  /** Sets the open left link of the right tree. */
  method SetRightEnd(right: Node, v: Node?, ghost hdr: Node, ghost rsp: Spine)
    requires RepRight(rsp, hdr) && right == Last(rsp, hdr) && NoDup(Rights(rsp)) && hdr !in Elems(Rights(rsp))
    modifies right`left
    ensures RepRight(rsp, hdr) && right.left == v
  {
    hide NoDup;
    if rsp.Snoc? { RightsApart(rsp, hdr); }
    assert rsp.Snoc? ==> Elems(InOrder(rsp.s)) <= Elems(Rights(rsp)) && Elems(Rights(rsp.up)) <= Elems(Rights(rsp)) && rsp.n in Elems(Rights(rsp));
    assert rsp.Snoc? ==> allocated(Elems(InOrder(rsp.s))) && allocated(Elems(Rights(rsp.up)));
    right.left := v;
  }

  /** Sets the open right link of the left tree. */
  method SetLeftEnd(left: Node, v: Node?, ghost hdr: Node, ghost lsp: Spine)
    requires RepLeft(lsp, hdr) && left == Last(lsp, hdr) && NoDup(Lefts(lsp)) && hdr !in Elems(Lefts(lsp))
    modifies left`right
    ensures RepLeft(lsp, hdr) && left.right == v
  {
    hide NoDup;
    if lsp.Snoc? { LeftsApart(lsp, hdr); }
    assert lsp.Snoc? ==> Elems(InOrder(lsp.s)) <= Elems(Lefts(lsp)) && Elems(Lefts(lsp.up)) <= Elems(Lefts(lsp)) && lsp.n in Elems(Lefts(lsp));
    assert lsp.Snoc? ==> allocated(Elems(InOrder(lsp.s))) && allocated(Elems(Lefts(lsp.up)));
    left.right := v;
  }

  /** SPLAY_LINKLEFT(head, right): the root joins the right tree. */
  method LinkLeft(h: Head, ghost hdr: Node, ghost left: Node, right0: Node, ghost lsp: Spine, ghost t: Tree, ghost rsp: Spine)
    returns (right: Node)
    requires Mid(h, hdr, left, right0, lsp, t, rsp) && t.Fork? && t.l.Fork?
    modifies h`root, right0`left
    ensures Mid(h, hdr, left, right, lsp, t.l, Snoc(rsp, t.r, t.n)) && Whole(lsp, t.l, Snoc(rsp, t.r, t.n)) == Whole(lsp, t, rsp)
    ensures right == t.n
  {
    hide Mid, NoDup, Rep, InOrder, Lefts, Rights, Elems;
    MidParts(h, hdr, left, right0, lsp, t, rsp);
    PartsApart(lsp, t, rsp);
    RepParts(t);
    LinkLeftSeq(lsp, t, rsp);
    assert allocated(Elems(Lefts(lsp))) && allocated(Elems(Rights(rsp))) && allocated(Elems(InOrder(t.l))) && allocated(Elems(InOrder(t.r)));
    SetRightEnd(right0, h.root, hdr, rsp);
    right := h.root;
    h.root := h.root.left;
    MakeRights(hdr, rsp, t.r, t.n);
    MidJoin(h, hdr, left, right, lsp, t.l, Snoc(rsp, t.r, t.n));
  }

  lemma MakeRights(hdr: Node, up: Spine, s: Tree, n: Node)
    requires RepRight(up, hdr) && n.right == Root(s) && Rep(s) && Last(up, hdr).left == n
    ensures RepRight(Snoc(up, s, n), hdr)
  {}

  lemma MakeLefts(hdr: Node, up: Spine, s: Tree, n: Node)
    requires RepLeft(up, hdr) && n.left == Root(s) && Rep(s) && Last(up, hdr).right == n
    ensures RepLeft(Snoc(up, s, n), hdr)
  {}

  lemma LinkLeftSeq(lsp: Spine, t: Tree, rsp: Spine)
    requires t.Fork?
    ensures Whole(lsp, t.l, Snoc(rsp, t.r, t.n)) == Whole(lsp, t, rsp)
  {
    hide InOrder, Lefts, Rights;
    InOrderFork(t);
    RightsSnoc(Snoc(rsp, t.r, t.n));
    LinkAssoc(Lefts(lsp), InOrder(t.l), t.n, InOrder(t.r), Rights(rsp));
  }

  lemma LinkAssoc(a: seq<Node>, b: seq<Node>, n: Node, c: seq<Node>, d: seq<Node>)
    ensures a + b + ([n] + (c + d)) == a + (b + [n] + c) + d == a + b + [n] + c + d
    ensures (a + b) + ([n] + (c + d)) == (a + b) + [n] + (c + d)
  {}

  /** SPLAY_LINKRIGHT(head, left): the root joins the left tree. */
  method LinkRight(h: Head, ghost hdr: Node, left0: Node, ghost right: Node, ghost lsp: Spine, ghost t: Tree, ghost rsp: Spine)
    returns (left: Node)
    requires Mid(h, hdr, left0, right, lsp, t, rsp) && t.Fork? && t.r.Fork?
    modifies h`root, left0`right
    ensures Mid(h, hdr, left, right, Snoc(lsp, t.l, t.n), t.r, rsp) && Whole(Snoc(lsp, t.l, t.n), t.r, rsp) == Whole(lsp, t, rsp)
    ensures left == t.n
  {
    hide Mid, NoDup, Rep, InOrder, Lefts, Rights, Elems;
    MidParts(h, hdr, left0, right, lsp, t, rsp);
    PartsApart(lsp, t, rsp);
    RepParts(t);
    LinkRightSeq(lsp, t, rsp);
    assert allocated(Elems(Lefts(lsp))) && allocated(Elems(Rights(rsp))) && allocated(Elems(InOrder(t.l))) && allocated(Elems(InOrder(t.r)));
    SetLeftEnd(left0, h.root, hdr, lsp);
    left := h.root;
    h.root := h.root.right;
    MakeLefts(hdr, lsp, t.l, t.n);
    MidJoin(h, hdr, left, right, Snoc(lsp, t.l, t.n), t.r, rsp);
  }

  lemma LinkRightSeq(lsp: Spine, t: Tree, rsp: Spine)
    requires t.Fork?
    ensures Whole(Snoc(lsp, t.l, t.n), t.r, rsp) == Whole(lsp, t, rsp)
  {
    hide InOrder, Lefts, Rights;
    InOrderFork(t);
    LeftsSnoc(Snoc(lsp, t.l, t.n));
    LinkAssoc(Lefts(lsp), InOrder(t.l), t.n, InOrder(t.r), Rights(rsp));
  }

  // ---- assembling ----

  /** The left tree with `a` in its open link. */
  ghost function LeftTree(sp: Spine, a: Tree): Tree {
    if sp.Nil? then a else LeftTree(sp.up, Fork(sp.s, sp.n, a))
  }

  ghost function RightTree(sp: Spine, a: Tree): Tree {
    if sp.Nil? then a else RightTree(sp.up, Fork(a, sp.n, sp.s))
  }

  lemma {:induction false} LeftTreeSeq(sp: Spine, a: Tree)
    ensures InOrder(LeftTree(sp, a)) == Lefts(sp) + InOrder(a)
    decreases sp
  {
    if sp.Snoc? {
      LeftTreeSeq(sp.up, Fork(sp.s, sp.n, a));
      LeftsAssoc(Lefts(sp.up), InOrder(sp.s), sp.n, InOrder(a));
    }
  }

  lemma {:induction false} RightTreeSeq(sp: Spine, a: Tree)
    ensures InOrder(RightTree(sp, a)) == InOrder(a) + Rights(sp)
    decreases sp
  {
    if sp.Snoc? {
      RightTreeSeq(sp.up, Fork(a, sp.n, sp.s));
      RightsAssoc(InOrder(a), sp.n, InOrder(sp.s), Rights(sp.up));
    }
  }

  lemma LeftsAssoc(p: seq<Node>, q: seq<Node>, n: Node, r: seq<Node>)
    ensures p + (q + [n] + r) == (p + q + [n]) + r
  {}

  lemma RightsAssoc(p: seq<Node>, n: Node, q: seq<Node>, r: seq<Node>)
    ensures (p + [n] + q) + r == p + ([n] + q + r)
  {}

  lemma {:induction false} CloseLeft(sp: Spine, a: Tree, hdr: Node)
    requires RepLeft(sp, hdr) && Rep(a) && Last(sp, hdr).right == Root(a)
    ensures Rep(LeftTree(sp, a)) && hdr.right == Root(LeftTree(sp, a))
    decreases sp
  {
    hide InOrder, Lefts;
    if sp.Snoc? {
      MakeRep(Fork(sp.s, sp.n, a));
      CloseLeft(sp.up, Fork(sp.s, sp.n, a), hdr);
    }
  }

  lemma {:induction false} CloseRight(sp: Spine, a: Tree, hdr: Node)
    requires RepRight(sp, hdr) && Rep(a) && Last(sp, hdr).left == Root(a)
    ensures Rep(RightTree(sp, a)) && hdr.left == Root(RightTree(sp, a))
    decreases sp
  {
    hide InOrder, Rights;
    if sp.Snoc? {
      MakeRep(Fork(a, sp.n, sp.s));
      CloseRight(sp.up, Fork(a, sp.n, sp.s), hdr);
    }
  }

  ghost function Assembled(lsp: Spine, t: Tree, rsp: Spine): (r: Tree)
    requires t.Fork?
  {
    Fork(LeftTree(lsp, t.l), t.n, RightTree(rsp, t.r))
  }

  /** SPLAY_ASSEMBLE(head, &__node, left, right). */
  method Assemble(h: Head, hdr: Node, left: Node, right: Node, ghost lsp: Spine, ghost t: Tree, ghost rsp: Spine)
    requires Mid(h, hdr, left, right, lsp, t, rsp) && t.Fork?
    modifies h`root, hdr, left, right, t.n
    ensures h.root == t.n && Rep(Assembled(lsp, t, rsp)) && InOrder(Assembled(lsp, t, rsp)) == Whole(lsp, t, rsp)
    ensures InOrder(LeftTree(lsp, t.l)) == Lefts(lsp) + InOrder(t.l) && InOrder(RightTree(rsp, t.r)) == InOrder(t.r) + Rights(rsp)
  {
    hide Mid, NoDup, Rep, InOrder, Lefts, Rights, Elems, RepLeft, RepRight, LeftTree, RightTree;
    MidParts(h, hdr, left, right, lsp, t, rsp);
    PartsApart(lsp, t, rsp);
    RepParts(t);
    assert allocated(Elems(Lefts(lsp))) && allocated(Elems(Rights(rsp))) && allocated(Elems(InOrder(t.l))) && allocated(Elems(InOrder(t.r)));
    SetLeftEnd(left, h.root.left, hdr, lsp);
    SetRightEnd(right, h.root.right, hdr, rsp);
    CloseLeft(lsp, t.l, hdr);
    CloseRight(rsp, t.r, hdr);
    LeftTreeSeq(lsp, t.l);
    RightTreeSeq(rsp, t.r);
    ghost var r := Assembled(lsp, t, rsp);
    AssembledSeq(lsp, t, rsp);
    ApartOf(InOrder(r.l), r.n, InOrder(r.r));
    assert allocated(Elems(InOrder(r.l))) && allocated(Elems(InOrder(r.r)));
    h.root.left := hdr.right;
    h.root.right := hdr.left;
    MakeRep(r);
  }

  lemma AssembledSeq(lsp: Spine, t: Tree, rsp: Spine)
    requires t.Fork?
    requires InOrder(LeftTree(lsp, t.l)) == Lefts(lsp) + InOrder(t.l) && InOrder(RightTree(rsp, t.r)) == InOrder(t.r) + Rights(rsp)
    ensures var r := Assembled(lsp, t, rsp);
            InOrder(r) == Whole(lsp, t, rsp) && InOrder(r.l) + [r.n] + InOrder(r.r) == Whole(lsp, t, rsp)
  {
    hide LeftTree, RightTree, InOrder, Lefts, Rights;
    InOrderFork(t);
    InOrderFork(Assembled(lsp, t, rsp));
    FiveAssoc(Lefts(lsp), InOrder(t.l), t.n, InOrder(t.r), Rights(rsp));
  }

  lemma FiveAssoc(a: seq<Node>, b: seq<Node>, n: Node, c: seq<Node>, d: seq<Node>)
    ensures (a + b) + [n] + (c + d) == a + (b + [n] + c) + d
  {}

  // ---- splaying ----

  /** A splay tree: linked, and ordered by key. */
  ghost predicate ValidSplay(h: Head)
    reads h, Elems(InOrder(h.tree))
  {
    h.root == Root(h.tree) && Rep(h.tree) && Sorted(InOrder(h.tree))
  }

  /** Everything left of the root is below k and everything right of it is above: the root has
      key k, or k is missing and the root is one of its two neighbours. */
  ghost predicate SplayedTo(t: Tree, k: string) {
    && t.Fork?
    && (forall n :: n in InOrder(t.l) ==> Lt(Key(n), k))
    && (forall n :: n in InOrder(t.r) ==> Lt(k, Key(n)))
  }

  ghost predicate Around(lsp: Spine, rsp: Spine, k: string) {
    && (forall n :: n in Lefts(lsp) ==> Lt(Key(n), k))
    && (forall n :: n in Rights(rsp) ==> Lt(k, Key(n)))
  }

  lemma RootSplit(lsp: Spine, t: Tree, rsp: Spine)
    requires t.Fork?
    ensures var a, b := Lefts(lsp) + InOrder(t.l), InOrder(t.r) + Rights(rsp);
      Whole(lsp, t, rsp) == a + ([t.n] + b) == a + [t.n] + b
  {
    hide InOrder, Lefts, Rights;
    InOrderFork(t);
    LinkAssoc(Lefts(lsp), InOrder(t.l), t.n, InOrder(t.r), Rights(rsp));
  }

  /** k lies below the root: all that LINKLEFT moves is above k. */
  lemma BelowRoot(lsp: Spine, t: Tree, rsp: Spine, k: string)
    requires t.Fork? && Sorted(Whole(lsp, t, rsp)) && Lt(k, Key(t.n))
    ensures forall n :: n in InOrder(t.r) ==> Lt(k, Key(n))
  {
    hide Sorted, Lt, InOrder, Lefts, Rights, Whole;
    var a, b := Lefts(lsp) + InOrder(t.l), InOrder(t.r) + Rights(rsp);
    RootSplit(lsp, t, rsp);
    SortedParts(a, [t.n] + b);
    SortedParts([t.n], b);
    forall n | n in InOrder(t.r) ensures Lt(k, Key(n)) {
      assert t.n in [t.n] && n in b;
      LtTrans(k, Key(t.n), Key(n));
    }
  }

  lemma AboveRoot(lsp: Spine, t: Tree, rsp: Spine, k: string)
    requires t.Fork? && Sorted(Whole(lsp, t, rsp)) && Lt(Key(t.n), k)
    ensures forall n :: n in InOrder(t.l) ==> Lt(Key(n), k)
  {
    hide Sorted, Lt, InOrder, Lefts, Rights, Whole;
    var a, b := Lefts(lsp) + InOrder(t.l), InOrder(t.r) + Rights(rsp);
    RootSplit(lsp, t, rsp);
    SortedParts(a + [t.n], b);
    SortedParts(a, [t.n]);
    forall n | n in InOrder(t.l) ensures Lt(Key(n), k) {
      assert n in a && t.n in [t.n];
      LtTrans(Key(n), Key(t.n), k);
    }
  }

  /** The three ways out of the loop: the root's own subtrees lie on the right sides of k. */
  lemma RootSides(lsp: Spine, t: Tree, rsp: Spine, k: string)
    requires t.Fork? && Sorted(Whole(lsp, t, rsp))
    requires Key(t.n) == k || (Lt(k, Key(t.n)) && t.l.Empty?) || (Lt(Key(t.n), k) && t.r.Empty?)
    ensures forall n :: n in InOrder(t.l) ==> Lt(Key(n), k)
    ensures forall n :: n in InOrder(t.r) ==> Lt(k, Key(n))
  {
    if Key(t.n) == k {
      var a, b := Lefts(lsp) + InOrder(t.l), InOrder(t.r) + Rights(rsp);
      assert Whole(lsp, t, rsp) == a + [t.n] + b;
      hide Sorted, Lt;
      SortedParts(a + [t.n], b);
      SortedParts(a, [t.n]);
      assert t.n in [t.n] && t.n in a + [t.n];
      assert forall n :: n in InOrder(t.l) ==> n in a;
    } else if Lt(k, Key(t.n)) {
      CmpAnti(k, Key(t.n));
      BelowRoot(lsp, t, rsp, k);
      assert InOrder(t.l) == [];
    } else {
      AboveRoot(lsp, t, rsp, k);
      assert InOrder(t.r) == [];
    }
  }

  lemma SplayEnd(lsp: Spine, t: Tree, rsp: Spine, k: string)
    requires t.Fork? && Sorted(Whole(lsp, t, rsp)) && Around(lsp, rsp, k)
    requires Key(t.n) == k || (Lt(k, Key(t.n)) && t.l.Empty?) || (Lt(Key(t.n), k) && t.r.Empty?)
    requires InOrder(LeftTree(lsp, t.l)) == Lefts(lsp) + InOrder(t.l) && InOrder(RightTree(rsp, t.r)) == InOrder(t.r) + Rights(rsp)
    ensures SplayedTo(Assembled(lsp, t, rsp), k)
  {
    hide Sorted, Lt, InOrder, Lefts, Rights, LeftTree, RightTree, Whole;
    RootSides(lsp, t, rsp, k);
  }

  /** A loop state of SPLAY for key k over the node sequence s. */
  ghost predicate Splaying(h: Head, k: string, s: seq<Node>, hdr: Node, left: Node, right: Node, lsp: Spine, t: Tree, rsp: Spine)
    reads h`root, hdr, Elems(Lefts(lsp)), Elems(InOrder(t)), Elems(Rights(rsp))
  {
    Mid(h, hdr, left, right, lsp, t, rsp) && Whole(lsp, t, rsp) == s && Sorted(s) && Around(lsp, rsp, k) && t.Fork?
  }

  /** The loop stops here. */
  ghost predicate Stops(t: Tree, k: string) {
    t.Fork? && (Key(t.n) == k || (Lt(k, Key(t.n)) && t.l.Empty?) || (Lt(Key(t.n), k) && t.r.Empty?))
  }

  ghost function Size(t: Tree): nat {
    if t.Empty? then 0 else Size(t.l) + 1 + Size(t.r)
  }

  lemma RootFields(h: Head, hdr: Node, left: Node, right: Node, lsp: Spine, t: Tree, rsp: Spine)
    requires Mid(h, hdr, left, right, lsp, t, rsp) && t.Fork?
    ensures h.root == t.n && t.n.left == Root(t.l) && t.n.right == Root(t.r)
    ensures t.l.Fork? ==> t.l.n.left == Root(t.l.l) && t.l.n.right == Root(t.l.r)
    ensures t.r.Fork? ==> t.r.n.left == Root(t.r.l) && t.r.n.right == Root(t.r.r)
    ensures forall n :: n == t.n || (t.l.Fork? && n == t.l.n) || (t.r.Fork? && n == t.r.n) ==> n in Elems(Whole(lsp, t, rsp))
    ensures (left == hdr || left in Elems(Whole(lsp, t, rsp))) && (right == hdr || right in Elems(Whole(lsp, t, rsp)))
  {
    RepParts(t);
    PartsApart(lsp, t, rsp);
  }

  lemma AroundRight(lsp: Spine, t: Tree, rsp: Spine, k: string)
    requires t.Fork? && Sorted(Whole(lsp, t, rsp)) && Around(lsp, rsp, k) && Lt(k, Key(t.n))
    ensures Around(lsp, Snoc(rsp, t.r, t.n), k)
  {
    BelowRoot(lsp, t, rsp, k);
  }

  lemma AroundLeft(lsp: Spine, t: Tree, rsp: Spine, k: string)
    requires t.Fork? && Sorted(Whole(lsp, t, rsp)) && Around(lsp, rsp, k) && Lt(Key(t.n), k)
    ensures Around(Snoc(lsp, t.l, t.n), rsp, k)
  {
    AboveRoot(lsp, t, rsp, k);
  }

  /** One pass of the loop with the key below the root. */
  method StepLeft(h: Head, key: string, hdr: Node, left: Node, right0: Node, ghost s: seq<Node>, ghost lsp: Spine, ghost t0: Tree, ghost rsp0: Spine)
    returns (stop: bool, right: Node, ghost t: Tree, ghost rsp: Spine)
    requires Splaying(h, key, s, hdr, left, right0, lsp, t0, rsp0) && Lt(key, Key(t0.n))
    modifies h`root, hdr, Elems(s)
    ensures Splaying(h, key, s, hdr, left, right, lsp, t, rsp)
    ensures stop ==> Stops(t, key)
    ensures !stop ==> Size(t) < Size(t0)
  {
    hide Mid, NoDup, InOrder, Lefts, Rights, Elems, Sorted, Whole, Around;
    stop, right, t, rsp := true, right0, t0, rsp0;
    RootFields(h, hdr, left, right, lsp, t, rsp);
    var tmp := h.root.left;
    if tmp == null { return; }
    if Cmp(key, tmp.elem.pathname) < 0 {
      RotateRight(h, tmp, hdr, left, right, lsp, t, rsp);
      t := RotR(t);
      RootFields(h, hdr, left, right, lsp, t, rsp);
      if h.root.left == null { return; }
    }
    AroundRight(lsp, t, rsp, key);
    right := LinkLeft(h, hdr, left, right, lsp, t, rsp);
    t, rsp := t.l, Snoc(rsp, t.r, t.n);
    stop := false;
  }

  /** One pass of the loop with the key above the root. */
  method StepRight(h: Head, key: string, hdr: Node, left0: Node, right: Node, ghost s: seq<Node>, ghost lsp0: Spine, ghost t0: Tree, ghost rsp: Spine)
    returns (stop: bool, left: Node, ghost t: Tree, ghost lsp: Spine)
    requires Splaying(h, key, s, hdr, left0, right, lsp0, t0, rsp) && Lt(Key(t0.n), key)
    modifies h`root, hdr, Elems(s)
    ensures Splaying(h, key, s, hdr, left, right, lsp, t, rsp)
    ensures stop ==> Stops(t, key)
    ensures !stop ==> Size(t) < Size(t0)
  {
    hide Mid, NoDup, InOrder, Lefts, Rights, Elems, Sorted, Whole, Around;
    stop, left, t, lsp := true, left0, t0, lsp0;
    RootFields(h, hdr, left, right, lsp, t, rsp);
    var tmp := h.root.right;
    if tmp == null { return; }
    CmpAnti(key, Key(tmp));
    if Cmp(key, tmp.elem.pathname) > 0 {
      RotateLeft(h, tmp, hdr, left, right, lsp, t, rsp);
      t := RotL(t);
      RootFields(h, hdr, left, right, lsp, t, rsp);
      if h.root.right == null { return; }
    }
    AroundLeft(lsp, t, rsp, key);
    left := LinkRight(h, hdr, left, right, lsp, t, rsp);
    t, lsp := t.r, Snoc(lsp, t.l, t.n);
    stop := false;
  }

  lemma SplayStart(h: Head, key: string, hdr: Node)
    requires ValidSplay(h) && h.tree.Fork? && hdr !in InOrder(h.tree)
    ensures Splaying(h, key, InOrder(h.tree), hdr, hdr, hdr, Nil, h.tree, Nil)
  {
    assert Whole(Nil, h.tree, Nil) == InOrder(h.tree);
    SortedNoDup(InOrder(h.tree));
  }

  lemma SplayRoot(h: Head, k: string, s: seq<Node>, hdr: Node, left: Node, right: Node, lsp: Spine, t: Tree, rsp: Spine)
    requires Splaying(h, k, s, hdr, left, right, lsp, t, rsp)
    ensures h.root == t.n && t.Fork? && t.n in Elems(s)
    ensures (left == hdr || left in Elems(s)) && (right == hdr || right in Elems(s))
    ensures Mid(h, hdr, left, right, lsp, t, rsp)
  {
    RootFields(h, hdr, left, right, lsp, t, rsp);
  }

  /** SPLAY_ASSEMBLE at the end of SPLAY. */
  method Finish(h: Head, key: string, hdr: Node, left: Node, right: Node, ghost s: seq<Node>, ghost lsp: Spine, ghost t: Tree, ghost rsp: Spine)
    requires Splaying(h, key, s, hdr, left, right, lsp, t, rsp) && Stops(t, key)
    modifies h, hdr, Elems(s)
    ensures ValidSplay(h) && SplayedTo(h.tree, key) && InOrder(h.tree) == s
  {
    hide Mid, NoDup, InOrder, Lefts, Rights, Elems, Sorted, Whole, Around, Rep, Cmp, SplayedTo;
    SplayRoot(h, key, s, hdr, left, right, lsp, t, rsp);
    Assemble(h, hdr, left, right, lsp, t, rsp);
    SplayEnd(lsp, t, rsp, key);
    h.tree := Assembled(lsp, t, rsp);
  }

  /** SPLAY: brings a node close to the key to the root and keeps the sequence of nodes. */
  method Splay(h: Head, key: string)
    requires ValidSplay(h) && h.root != null
    modifies h, Elems(InOrder(h.tree))
    ensures ValidSplay(h) && SplayedTo(h.tree, key)
    ensures InOrder(h.tree) == old(InOrder(h.tree))
  {
    hide Mid, NoDup, InOrder, Lefts, Rights, Sorted, Whole, Around, Splaying, Stops, Rep, Cmp, SplayedTo;
    ghost var s := InOrder(h.tree);
    assert allocated(Elems(s));
    var info := new MapInfo("", 0);
    var hdr := new Node(info);
    var left, right := hdr, hdr;
    ghost var lsp, t, rsp := Nil, h.tree, Nil;
    SplayStart(h, key, hdr);
    SplayRoot(h, key, s, hdr, left, right, lsp, t, rsp);
    var comp := Cmp(key, h.root.elem.pathname);
    while comp != 0
      invariant Splaying(h, key, s, hdr, left, right, lsp, t, rsp) && t.Fork? && h.root == t.n && comp == Cmp(key, Key(t.n))
      decreases Size(t)
    {
      var stop;
      CmpAnti(key, Key(t.n));
      if comp < 0 {
        stop, right, t, rsp := StepLeft(h, key, hdr, left, right, s, lsp, t, rsp);
      } else {
        stop, left, t, lsp := StepRight(h, key, hdr, left, right, s, lsp, t, rsp);
      }
      SplayRoot(h, key, s, hdr, left, right, lsp, t, rsp);
      if stop { break; }
      comp := Cmp(key, h.root.elem.pathname);
    }
    if comp == 0 { Found(t, key); }
    Finish(h, key, hdr, left, right, s, lsp, t, rsp);
  }

  lemma Found(t: Tree, key: string)
    requires t.Fork? && Cmp(key, Key(t.n)) == 0
    ensures Stops(t, key)
  {
    CmpZero(key, Key(t.n));
  }

  // ---- the operations on a sorted set of nodes ----

  lemma SplitAtRoot(t: Tree, key: string)
    requires SplayedTo(t, key) && Sorted(InOrder(t))
    ensures Key(t.n) != key ==> forall n :: n in InOrder(t) ==> Key(n) != key
    ensures Sorted(InOrder(t.l)) && Sorted(InOrder(t.r)) && NoDup(InOrder(t)) && Apart(InOrder(t.l), t.n, InOrder(t.r))
    ensures forall m, n :: m in InOrder(t.l) && n in InOrder(t.r) ==> Lt(Key(m), Key(n))
  {
    var a, b := InOrder(t.l), InOrder(t.r);
    CmpZero(key, key);
    SortedParts(a + [t.n], b);
    SortedParts(a, [t.n]);
    SortedNoDup(InOrder(t));
    ApartOf(a, t.n, b);
    assert forall m :: m in a ==> m in a + [t.n];
  }

  /** SPLAY_FIND. */
  method Find(h: Head, key: string) returns (r: Node?)
    requires ValidSplay(h)
    modifies h, Elems(InOrder(h.tree))
    ensures ValidSplay(h) && InOrder(h.tree) == old(InOrder(h.tree))
    ensures r != null ==> r in InOrder(h.tree) && Key(r) == key
    ensures r == null ==> forall n :: n in InOrder(h.tree) ==> Key(n) != key
  {
    if h.root == null { return null; }
    Splay(h, key);
    SplitAtRoot(h.tree, key);
    CmpZero(key, Key(h.root));
    if Cmp(key, h.root.elem.pathname) == 0 { return h.root; }
    return null;
  }

  /** SPLAY_INSERT. */
  method Insert(h: Head, elm: Node) returns (dup: Node?)
    requires ValidSplay(h)
    modifies h, Elems(InOrder(h.tree)), elm
    ensures ValidSplay(h)
    ensures dup == null ==> InOrder(h.tree) == Inserted(old(InOrder(h.tree)), elm)
    ensures dup == null ==> forall n :: n in old(InOrder(h.tree)) ==> Key(n) != Key(elm)
    ensures dup != null ==> dup in InOrder(h.tree) && Key(dup) == Key(elm) && InOrder(h.tree) == old(InOrder(h.tree))
  {
    if h.root == null {
      elm.left, elm.right := null, null;
      h.tree := Fork(Empty, elm, Empty);
      assert Rep(h.tree);
      h.root := elm;
      return null;
    }
    ghost var key := Key(elm);
    Splay(h, elm.elem.pathname);
    ghost var t := h.tree;
    SplitAtRoot(t, key);
    CmpAnti(key, Key(t.n));
    CmpZero(key, Key(t.n));
    var comp := Cmp(elm.elem.pathname, h.root.elem.pathname);
    if comp == 0 { return h.root; }
    InsertAtRoot(h, elm, comp);
    return null;
  }

  lemma InsertedRoot(t: Tree, elm: Node)
    requires SplayedTo(t, Key(elm)) && Sorted(InOrder(t))
    ensures Lt(Key(elm), Key(t.n)) ==>
              var u := Fork(t.l, elm, Fork(Empty, t.n, t.r));
              InOrder(u) == Inserted(InOrder(t), elm) && Sorted(InOrder(u))
    ensures Lt(Key(t.n), Key(elm)) ==>
              var u := Fork(Fork(t.l, t.n, Empty), elm, t.r);
              InOrder(u) == Inserted(InOrder(t), elm) && Sorted(InOrder(u))
  {
    hide Inserted, Sorted, Lt;
    var a, b := InOrder(t.l), InOrder(t.r);
    if Lt(Key(elm), Key(t.n)) {
      assert InOrder(Fork(Empty, t.n, t.r)) == [t.n] + b;
      assert InOrder(t) == a + ([t.n] + b);
      InsertedAt(a, elm, [t.n] + b);
      SortedInsert(a, elm, [t.n] + b);
    }
    if Lt(Key(t.n), Key(elm)) {
      assert InOrder(Fork(t.l, t.n, Empty)) == a + [t.n];
      InsertedAt(a + [t.n], elm, b);
      SortedInsert(a + [t.n], elm, b);
    }
  }

  /** The two cases in which the new node becomes the root. */
  method InsertAtRoot(h: Head, elm: Node, comp: int)
    requires ValidSplay(h) && h.tree.Fork? && SplayedTo(h.tree, Key(elm)) && elm !in InOrder(h.tree)
    requires comp == Cmp(Key(elm), Key(h.tree.n)) && comp != 0
    modifies h, h.tree.n, elm
    ensures ValidSplay(h) && InOrder(h.tree) == Inserted(old(InOrder(h.tree)), elm)
  {
    hide NoDup, Inserted, Cmp, Rep, InOrder, Sorted, SplayedTo;
    ghost var t, key := h.tree, Key(elm);
    SplitAtRoot(t, key);
    InsertedRoot(t, elm);
    CmpAnti(key, Key(t.n));
    RepParts(t);
    InSides(t, elm);
    assert allocated(Elems(InOrder(t.l))) && allocated(Elems(InOrder(t.r)));
    ghost var u;
    if comp < 0 {
      elm.left := h.root.left;
      elm.right := h.root;
      h.root.left := null;
      u := Fork(t.l, elm, Fork(Empty, t.n, t.r));
      MakeRep(u.r);
    } else {
      elm.right := h.root.right;
      elm.left := h.root;
      h.root.right := null;
      u := Fork(Fork(t.l, t.n, Empty), elm, t.r);
      MakeRep(u.l);
    }
    MakeRep(u);
    assert allocated(Elems(InOrder(u)));
    h.root := elm;
    h.tree := u;
  }

  lemma InSides(t: Tree, elm: Node)
    requires t.Fork? && elm !in InOrder(t)
    ensures elm !in Elems(InOrder(t.l)) && elm !in Elems(InOrder(t.r)) && elm != t.n
    ensures Rep(Empty)
  {}

  lemma WithoutRoot(t: Tree)
    requires t.Fork? && Sorted(InOrder(t))
    ensures Without(InOrder(t), t.n) == InOrder(t.l) + InOrder(t.r) && Sorted(InOrder(t.l) + InOrder(t.r))
    ensures Apart(InOrder(t.l), t.n, InOrder(t.r))
  {
    SortedNoDup(InOrder(t));
    ApartOf(InOrder(t.l), t.n, InOrder(t.r));
    assert t.n !in InOrder(t.l);
    WithoutAt(InOrder(t.l), t.n, InOrder(t.r));
    SortedWithout(InOrder(t.l), t.n, InOrder(t.r));
  }

  /** Splaying a tree that lies wholly below k brings its greatest node up. */
  lemma GreatestUp(t: Tree, k: string)
    requires SplayedTo(t, k) && forall n :: n in InOrder(t) ==> Lt(Key(n), k)
    ensures t.Fork? && t.r.Empty? && InOrder(t) == InOrder(t.l) + [t.n]
  {
    if t.r.Fork? {
      assert t.r.n in InOrder(t.r);
      CmpAnti(k, Key(t.r.n));
    }
  }

  /** SPLAY_REMOVE: removes the node whose key equals elm's; `gone` names it. */
  method Remove(h: Head, elm: Node) returns (r: Node?, ghost gone: Node?)
    requires ValidSplay(h)
    modifies h, Elems(InOrder(h.tree))
    ensures ValidSplay(h)
    ensures r == if gone == null then null else elm
    ensures gone == null ==> InOrder(h.tree) == old(InOrder(h.tree)) && forall n :: n in InOrder(h.tree) ==> Key(n) != Key(elm)
    ensures gone != null ==> gone in old(InOrder(h.tree)) && Key(gone) == Key(elm) && InOrder(h.tree) == Without(old(InOrder(h.tree)), gone)
  {
    gone := null;
    if h.root == null { return null, null; }
    Splay(h, elm.elem.pathname);
    SplitAtRoot(h.tree, Key(elm));
    CmpZero(Key(elm), Key(h.root));
    if Cmp(elm.elem.pathname, h.root.elem.pathname) == 0 {
      gone := h.root;
      RemoveRoot(h, elm.elem.pathname);
      return elm, gone;
    }
    return null, null;
  }

  method RemoveRoot(h: Head, key: string)
    requires ValidSplay(h) && h.tree.Fork? && SplayedTo(h.tree, key)
    modifies h, Elems(InOrder(h.tree))
    ensures ValidSplay(h) && InOrder(h.tree) == Without(old(InOrder(h.tree)), old(h.tree.n))
  {
    hide NoDup, Sorted, SplayedTo, Rep, InOrder, Without, Lt;
    ghost var t := h.tree;
    RepParts(t);
    WithoutRoot(t);
    BelowKey(t, key);
    assert allocated(Elems(InOrder(t.l))) && allocated(Elems(InOrder(t.r)));
    if h.root.left == null {
      EmptySide(t.l, InOrder(t.r));
      h.root := h.root.right;
      h.tree := t.r;
    } else {
      var tmp := h.root.right;
      h.root := h.root.left;
      h.tree := t.l;
      Splay(h, key);
      ghost var u := h.tree;
      GreatestUp(u, key);
      RepParts(u);
      TopApart(u, InOrder(t.r));
      ghost var v := Fork(u.l, u.n, t.r);
      JoinSeq(v, t);
      assert allocated(Elems(InOrder(u.l))) && allocated(Elems(InOrder(v)));
      h.root.right := tmp;
      MakeRep(v);
      h.tree := v;
    }
  }

  lemma BelowKey(t: Tree, key: string)
    requires SplayedTo(t, key) && Sorted(InOrder(t))
    ensures Sorted(InOrder(t.l)) && Sorted(InOrder(t.r)) && forall n :: n in InOrder(t.l) ==> Lt(Key(n), key)
    ensures Elems(InOrder(t.l)) !! Elems(InOrder(t.r)) && Elems(InOrder(t.l)) <= Elems(InOrder(t)) && Elems(InOrder(t.r)) <= Elems(InOrder(t))
  {
    SplitAtRoot(t, key);
  }

  lemma EmptySide(l: Tree, b: seq<Node>)
    requires l.Empty?
    ensures InOrder(l) + b == b
  {
    assert InOrder(l) == [];
  }

  lemma TopApart(u: Tree, b: seq<Node>)
    requires u.Fork? && Elems(InOrder(u)) !! Elems(b) && InOrder(u) == InOrder(u.l) + [u.n] && Sorted(InOrder(u))
    ensures u.n in Elems(InOrder(u)) && u.n !in Elems(b) && u.n !in Elems(InOrder(u.l))
  {
    SortedNoDup(InOrder(u));
    assert InOrder(u) == InOrder(u.l) + [u.n] + [];
    ApartOf(InOrder(u.l), u.n, []);
    assert u.n in InOrder(u);
  }

  lemma JoinSeq(v: Tree, t: Tree)
    requires v.Fork? && t.Fork? && InOrder(v.l) + [v.n] == InOrder(t.l) && v.r == t.r
    ensures InOrder(v) == InOrder(t.l) + InOrder(t.r)
  {}

  /** SPLAY_NEXT for an element of the tree. */
  method Next(h: Head, elm0: Node) returns (elm: Node?)
    requires ValidSplay(h) && elm0 in InOrder(h.tree)
    modifies h, Elems(InOrder(h.tree))
    ensures ValidSplay(h) && InOrder(h.tree) == old(InOrder(h.tree))
    ensures elm == Follow(InOrder(h.tree), elm0)
  {
    hide NoDup, Sorted, SplayedTo, Rep, InOrder, Follow;
    NonEmpty(h.tree, elm0);
    Splay(h, elm0.elem.pathname);
    ghost var t := h.tree;
    RootIs(t, elm0);
    RepParts(t);
    FollowRoot(t);
    elm := elm0;
    if elm.right != null {
      elm := elm.right;
      ghost var u := t.r;
      RepParts(u);
      assert allocated(Elems(InOrder(u))) && allocated(Elems(InOrder(t)));
      while elm.left != null
        invariant u.Fork? && Rep(u) && elm == u.n && elm.left == Root(u.l) && RbScan.First(InOrder(u)) == RbScan.First(InOrder(t.r))
        modifies {}
        decreases u
      {
        RepParts(u);
        elm := elm.left;
        FirstLeft(u);
        u := u.l;
        RepParts(u);
      }
      FirstLeft(u);
    } else {
      elm := null;
      NoRightSide(t);
    }
  }

  lemma NonEmpty(t: Tree, n: Node)
    requires n in InOrder(t)
    ensures t.Fork?
  {}

  /** Splaying to the key of a member makes that member the root. */
  lemma RootIs(t: Tree, n: Node)
    requires n in InOrder(t) && Sorted(InOrder(t)) && SplayedTo(t, Key(n))
    ensures t.Fork? && t.n == n
  {
    CmpZero(Key(n), Key(n));
    SplitAtRoot(t, Key(n));
  }

  lemma FollowRoot(t: Tree)
    requires t.Fork? && Sorted(InOrder(t))
    ensures Follow(InOrder(t), t.n) == RbScan.First(InOrder(t.r))
  {
    WithoutRoot(t);
    assert t.n !in InOrder(t.l);
    FollowAt(InOrder(t.l), t.n, InOrder(t.r));
  }

  lemma FirstLeft(u: Tree)
    requires u.Fork?
    ensures u.l.Fork? ==> RbScan.First(InOrder(u)) == RbScan.First(InOrder(u.l))
    ensures u.l.Empty? ==> RbScan.First(InOrder(u)) == u.n
  {
    if u.l.Fork? { assert InOrder(u.l)[0] == InOrder(u)[0]; }
  }

  lemma NoRightSide(t: Tree)
    requires t.Fork?
    ensures t.r.Empty? ==> RbScan.First(InOrder(t.r)) == null
  {}

  /** SPLAY_MINMAX: the least node (comp < 0) or the greatest one becomes the root. */
  method MinMax(h: Head, comp: int)
    requires ValidSplay(h) && h.root != null && comp != 0
    modifies h, Elems(InOrder(h.tree))
    ensures ValidSplay(h) && InOrder(h.tree) == old(InOrder(h.tree))
    ensures h.root == if comp < 0 then RbScan.First(InOrder(h.tree)) else RbScan.Last(InOrder(h.tree))
  {
    hide Mid, NoDup, InOrder, Lefts, Rights, Sorted, Whole, Rep, RbScan.First, RbScan.Last;
    ghost var s := InOrder(h.tree);
    assert allocated(Elems(s));
    var info := new MapInfo("", 0);
    var hdr := new Node(info);
    var left, right := hdr, hdr;
    ghost var lsp, t, rsp := Nil, h.tree, Nil;
    MinMaxStart(h, hdr);
    var stop := false;
    MidMembers(h, hdr, left, right, lsp, t, rsp);
    while !stop
      invariant Mid(h, hdr, left, right, lsp, t, rsp) && Whole(lsp, t, rsp) == s && t.Fork?
      invariant (left == hdr || left in Elems(s)) && (right == hdr || right in Elems(s)) && t.n in Elems(s)
      invariant if comp < 0 then lsp.Nil? else rsp.Nil?
      invariant stop ==> if comp < 0 then t.l.Empty? else t.r.Empty?
      decreases !stop, Size(t)
    {
      if comp < 0 {
        stop, right, t, rsp := MinStep(h, hdr, left, right, lsp, t, rsp);
      } else {
        stop, left, t, lsp := MaxStep(h, hdr, left, right, lsp, t, rsp);
      }
      MidMembers(h, hdr, left, right, lsp, t, rsp);
    }
    Assemble(h, hdr, left, right, lsp, t, rsp);
    ExtremeRoot(lsp, t, rsp);
    h.tree := Assembled(lsp, t, rsp);
  }

  lemma MidMembers(h: Head, hdr: Node, left: Node, right: Node, lsp: Spine, t: Tree, rsp: Spine)
    requires Mid(h, hdr, left, right, lsp, t, rsp) && t.Fork?
    ensures var s := Whole(lsp, t, rsp);
            (left == hdr || left in Elems(s)) && (right == hdr || right in Elems(s)) && t.n in Elems(s)
  {
    RootFields(h, hdr, left, right, lsp, t, rsp);
  }

  /** One pass of the loop of SPLAY_MINMAX towards the minimum. */
  method MinStep(h: Head, hdr: Node, left: Node, right0: Node, ghost lsp: Spine, ghost t0: Tree, ghost rsp0: Spine)
    returns (stop: bool, right: Node, ghost t: Tree, ghost rsp: Spine)
    requires Mid(h, hdr, left, right0, lsp, t0, rsp0) && t0.Fork?
    modifies h`root, hdr, Elems(Whole(lsp, t0, rsp0))
    ensures Mid(h, hdr, left, right, lsp, t, rsp) && t.Fork? && Whole(lsp, t, rsp) == Whole(lsp, t0, rsp0)
    ensures if stop then t.l.Empty? else Size(t) < Size(t0)
  {
    hide Mid, NoDup, InOrder, Lefts, Rights, Elems, Whole;
    stop, right, t, rsp := true, right0, t0, rsp0;
    RootFields(h, hdr, left, right, lsp, t, rsp);
    SizeStep(t);
    var tmp := h.root.left;
    if tmp == null { return; }
    RotateRight(h, tmp, hdr, left, right, lsp, t, rsp);
    t := RotR(t);
    RootFields(h, hdr, left, right, lsp, t, rsp);
    if h.root.left == null { return; }
    right := LinkLeft(h, hdr, left, right, lsp, t, rsp);
    t, rsp := t.l, Snoc(rsp, t.r, t.n);
    stop := false;
  }

  /** One pass of the loop of SPLAY_MINMAX towards the maximum. */
  method MaxStep(h: Head, hdr: Node, left0: Node, right: Node, ghost lsp0: Spine, ghost t0: Tree, ghost rsp: Spine)
    returns (stop: bool, left: Node, ghost t: Tree, ghost lsp: Spine)
    requires Mid(h, hdr, left0, right, lsp0, t0, rsp) && t0.Fork?
    modifies h`root, hdr, Elems(Whole(lsp0, t0, rsp))
    ensures Mid(h, hdr, left, right, lsp, t, rsp) && t.Fork? && Whole(lsp, t, rsp) == Whole(lsp0, t0, rsp)
    ensures if stop then t.r.Empty? else Size(t) < Size(t0)
  {
    hide Mid, NoDup, InOrder, Lefts, Rights, Elems, Whole;
    stop, left, t, lsp := true, left0, t0, lsp0;
    RootFields(h, hdr, left, right, lsp, t, rsp);
    SizeStep(t);
    var tmp := h.root.right;
    if tmp == null { return; }
    RotateLeft(h, tmp, hdr, left, right, lsp, t, rsp);
    t := RotL(t);
    RootFields(h, hdr, left, right, lsp, t, rsp);
    if h.root.right == null { return; }
    left := LinkRight(h, hdr, left, right, lsp, t, rsp);
    t, lsp := t.r, Snoc(lsp, t.l, t.n);
    stop := false;
  }

  lemma SizeStep(t: Tree)
    ensures t.Fork? && t.l.Fork? ==> Size(t.l.l) < Size(t)
    ensures t.Fork? && t.r.Fork? ==> Size(t.r.r) < Size(t)
  {
    if t.Fork? { assert Size(t) == Size(t.l) + 1 + Size(t.r); }
  }

  lemma MinMaxStart(h: Head, hdr: Node)
    requires ValidSplay(h) && h.root != null && hdr !in InOrder(h.tree)
    ensures h.tree.Fork? && Mid(h, hdr, hdr, hdr, Nil, h.tree, Nil) && Whole(Nil, h.tree, Nil) == InOrder(h.tree) && Sorted(InOrder(h.tree))
  {
    SplayStart(h, "", hdr);
  }

  lemma ExtremeRoot(lsp: Spine, t: Tree, rsp: Spine)
    requires t.Fork?
    ensures lsp.Nil? && t.l.Empty? ==> RbScan.First(InOrder(Assembled(lsp, t, rsp))) == t.n
    ensures rsp.Nil? && t.r.Empty? ==> RbScan.Last(InOrder(Assembled(lsp, t, rsp))) == t.n
  {
    var r := Assembled(lsp, t, rsp);
    assert lsp.Nil? && t.l.Empty? ==> InOrder(r.l) == [];
    assert rsp.Nil? && t.r.Empty? ==> InOrder(r.r) == [];
  }
}
