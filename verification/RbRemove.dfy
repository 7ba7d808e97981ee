/** RB_REMOVE_COLOR and RB_REMOVE of tree.h. */
module RbRemove {
  import opened Strcmp
  import opened RbHeap
  import opened RbBalance
  import opened RbInsert

  /** The paths through t miss one black node; a red root of t can repay it. */
  ghost predicate Short(x: Ctx, t: Tree) {
    Ok(Blacken(t)) && CtxOk(x, H(t) + 1)
  }

  /** The sibling of the hole. */
  ghost function Sib(x: Ctx): Tree
    requires !x.Top?
  {
    if x.InL? then x.r else x.l
  }

  lemma ShortDone(x: Ctx, t: Tree)
    requires Short(x, t) && (x.Top? || !IsBlack(t))
    ensures Fit(x, Blacken(t))
  {}

  /** A black subtree that is short has a real sibling. */
  lemma SiblingBin(x: Ctx, t: Tree)
    requires Short(x, t) && IsBlack(t) && !x.Top?
    ensures Sib(x).Bin? && Ok(Sib(x)) && H(Sib(x)) == H(t) + 1 && Ok(t)
    ensures !IsBlack(Sib(x)) ==> x.c == Black
  {}

  /** The context after a red sibling has been rotated above the parent. */
  ghost function RedUp(x: Ctx): Ctx
    requires !x.Top? && Sib(x).Bin?
  {
    if x.InL? then InL(Red, x.n, x.r.l, InL(Black, x.r.n, x.r.r, x.up))
    else InR(Red, x.l.r, x.n, InR(Black, x.l.l, x.l.n, x.up))
  }

  lemma RedSibling(x: Ctx, t: Tree)
    requires Short(x, t) && IsBlack(t) && !x.Top? && Sib(x).Bin? && !IsBlack(Sib(x))
    ensures Short(RedUp(x), t) && IsBlack(Sib(RedUp(x)))
  {
    SiblingBin(x, t);
    var s, k := Sib(x), H(t) + 1;
    assert Ok(s.l) && Ok(s.r) && H(s.l) == k && H(s.r) == k;
    assert CtxOk(x.up, k + 1);
    assert CtxOk(RedUp(x).up, k);
  }

  /** Black sibling with black children: it turns red and the shortage moves up. */
  lemma BothBlack(x: Ctx, t: Tree)
    requires Short(x, t) && IsBlack(t) && !x.Top? && Sib(x).Bin? && IsBlack(Sib(x))
    requires IsBlack(Sib(x).l) && IsBlack(Sib(x).r)
    ensures x.InL? ==> Short(x.up, Bin(x.c, t, x.n, x.r.(c := Red)))
    ensures x.InR? ==> Short(x.up, Bin(x.c, x.l.(c := Red), x.n, t))
  {
    SiblingBin(x, t);
    var s := Sib(x).(c := Red);
    assert Ok(s) && H(s) == H(t);
    var q := if x.InL? then Bin(x.c, t, x.n, s) else Bin(x.c, s, x.n, t);
    assert Ok(Blacken(q));
  }

  /** The inner nephew is red: rotating the sibling makes the outer one red. */
  lemma InnerNephew(x: Ctx, t: Tree)
    requires Short(x, t) && IsBlack(t) && !x.Top? && Sib(x).Bin? && IsBlack(Sib(x))
    requires x.InL? ==> !IsBlack(x.r.l) && IsBlack(x.r.r)
    requires x.InR? ==> !IsBlack(x.l.r) && IsBlack(x.l.l)
    ensures x.InL? ==> Short(x.(r := RotR(x.r.(l := x.r.l.(c := Black), c := Red))), t)
    ensures x.InR? ==> Short(x.(l := RotL(x.l.(r := x.l.r.(c := Black), c := Red))), t)
  {
    SiblingBin(x, t);
    if x.InL? {
      var w := RotR(x.r.(l := x.r.l.(c := Black), c := Red));
      assert Ok(w.r) && Ok(w) && H(w) == H(x.r);
    } else {
      var w := RotL(x.l.(r := x.l.r.(c := Black), c := Red));
      assert Ok(w.l) && Ok(w) && H(w) == H(x.l);
    }
  }

  /** The outer nephew is red: one rotation repays the shortage. */
  lemma OuterNephew(x: Ctx, t: Tree)
    requires Short(x, t) && IsBlack(t) && !x.Top? && Sib(x).Bin? && IsBlack(Sib(x))
    requires if x.InL? then !IsBlack(x.r.r) else !IsBlack(x.l.l)
    ensures x.InL? ==> Fit(x.up, RotL(Bin(Black, t, x.n, x.r.(c := x.c, r := x.r.r.(c := Black)))))
    ensures x.InR? ==> Fit(x.up, RotR(Bin(Black, x.l.(c := x.c, l := x.l.l.(c := Black)), x.n, t)))
  {
    SiblingBin(x, t);
    if x.InL? {
      var q := RotL(Bin(Black, t, x.n, x.r.(c := x.c, r := x.r.r.(c := Black))));
      assert Ok(q.l) && Ok(q.r) && H(q.l) == H(q.r) == H(t) + 1;
      assert Ok(q);
    } else {
      var q := RotR(Bin(Black, x.l.(c := x.c, l := x.l.l.(c := Black)), x.n, t));
      assert Ok(q.l) && Ok(q.r) && H(q.l) == H(q.r) == H(t) + 1;
      assert Ok(q);
    }
  }

  /** A red left or right sibling: RB_SET_BLACKRED(tmp, parent), then the rotation of parent. */
  method LiftRedRight(h: Head, parent: Node, tmp: Node, ghost x: Ctx, ghost t: Tree)
    requires At(h, x, t) && Short(x, t) && IsBlack(t) && x.InL? && x.n == parent
    requires x.r.Bin? && x.r.n == tmp && !IsBlack(x.r)
    modifies h`root, Elems(Seq(x, t))
    ensures At(h, RedUp(x), t) && Seq(RedUp(x), t) == Seq(x, t)
    ensures Short(RedUp(x), t) && IsBlack(Sib(RedUp(x)))
  {
    hide At, Short, Seq, Elems, IsBlack;
    ghost var u, q := x.up, Wrap(x, t);
    AtWrap(h, x, t);
    Members(u, q);
    RedSibling(x, t);
    PaintRight(h, tmp, Black, u, q);
    ghost var q1 := q.(r := q.r.(c := Black));
    Paint(h, parent, Red, u, q1);
    ghost var q2 := q1.(c := Red);
    RotateLeft(h, parent, u, q2);
    AtWrap(h, RedUp(x), t);
    AtWrap(h, RedUp(x).up, Wrap(RedUp(x), t));
  }

  /** The black sibling tmp has a red inner child only: it becomes the outer one. */
  method TurnNephewRight(h: Head, tmp: Node, ghost x: Ctx, ghost t: Tree) returns (ghost x': Ctx)
    requires At(h, x, t) && Short(x, t) && IsBlack(t) && x.InL?
    requires x.r.Bin? && x.r.n == tmp && IsBlack(x.r) && !IsBlack(x.r.l) && IsBlack(x.r.r)
    modifies h`root, Elems(Seq(x, t))
    ensures At(h, x', t) && Short(x', t) && Seq(x', t) == Seq(x, t) && Depth(x') == Depth(x)
    ensures x'.InL? && x'.n == x.n && x'.up == x.up && x'.c == x.c && x'.r.Bin? && IsBlack(x'.r) && !IsBlack(x'.r.r)
  {
    hide At, Short, Seq, Elems;
    InnerNephew(x, t);
    AtWrap(h, x, t);
    ghost var q := Wrap(x, t);
    ghost var xs := InR(q.c, q.l, q.n, x.up);
    AtInR(h, q.c, q.l, q.n, q.r, x.up);
    AtFields(h, xs, q.r);
    Members(xs, q.r);
    var oleft := tmp.left;
    if oleft != null { PaintLeft(h, oleft, Black, xs, q.r); }
    ghost var s1 := q.r.(l := q.r.l.(c := Black));
    Paint(h, tmp, Red, xs, s1);
    ghost var s2 := s1.(c := Red);
    RotateRight(h, tmp, xs, s2);
    AtInR(h, q.c, q.l, q.n, RotR(s2), x.up);
    x' := x.(r := RotR(s2));
    AtWrap(h, x', t);
  }

  /** The outer nephew is red: recolour and rotate the parent; the shortage is gone. */
  method RepayRight(h: Head, parent: Node, tmp: Node, ghost x: Ctx, ghost t: Tree) returns (ghost t': Tree)
    requires At(h, x, t) && Short(x, t) && IsBlack(t) && x.InL? && x.n == parent
    requires x.r.Bin? && x.r.n == tmp && IsBlack(x.r) && !IsBlack(x.r.r)
    modifies h`root, Elems(Seq(x, t))
    ensures At(h, x.up, t') && Fit(x.up, t') && Seq(x.up, t') == Seq(x, t)
  {
    hide At, Short, Seq, Elems, Fit;
    OuterNephew(x, t);
    AtWrap(h, x, t);
    ghost var u, q := x.up, Wrap(x, t);
    AtFields(h, u, q);
    Members(u, q);
    PaintRight(h, tmp, parent.color, u, q);
    ghost var q1 := q.(r := q.r.(c := q.c));
    Paint(h, parent, Black, u, q1);
    ghost var q2 := q1.(c := Black);
    AtFields(h, u, q2);
    ghost var xs := InR(q2.c, q2.l, q2.n, u);
    AtInR(h, q2.c, q2.l, q2.n, q2.r, u);
    Members(xs, q2.r);
    if tmp.right != null { PaintRight(h, tmp.right, Black, xs, q2.r); }
    ghost var q3 := q2.(r := q2.r.(r := q2.r.r.(c := Black)));
    AtInR(h, q3.c, q3.l, q3.n, q3.r, u);
    RotateLeft(h, parent, u, q3);
    t' := RotL(q3);
  }

  /** One pass of the loop when the short subtree is a left child; `done` is its break. */
  method RepairLeft(h: Head, parent0: Node, elm0: Node?, ghost x: Ctx, ghost t: Tree)
    returns (parent: Node?, elm: Node?, done: bool, ghost x': Ctx, ghost t': Tree)
    requires At(h, x, t) && Short(x, t) && IsBlack(t) && x.InL? && x.n == parent0 && elm0 == Root(t)
    modifies h`root, Elems(Seq(x, t))
    ensures At(h, x', t') && Seq(x', t') == Seq(x, t)
    ensures !done ==> Short(x', t') && parent == Par(x') && elm == Root(t')
    ensures !done ==> Depth(x') < Depth(x) || (Depth(x') == Depth(x) && !IsBlack(t'))
    ensures done ==> Fit(x', t') && elm == h.root
  {
    hide At, Short, Seq, Elems, Fit;
    parent, elm, done := parent0, elm0, false;
    SiblingBin(x, t);
    AtWrap(h, x, t);
    AtFields(h, x.up, Wrap(x, t));
    var tmp := parent0.right;
    ghost var x1 := x;
    if tmp.color == Red {
      LiftRedRight(h, parent0, tmp, x, t);
      x1 := RedUp(x);
      SiblingBin(x1, t);
      AtWrap(h, x1, t);
      AtFields(h, x1.up, Wrap(x1, t));
      tmp := parent0.right;
    }
    ghost var q := Wrap(x1, t);
    AtInR(h, q.c, q.l, q.n, q.r, x1.up);
    AtFields(h, InR(q.c, q.l, q.n, x1.up), q.r);
    Members(x1.up, q);
    if (tmp.left == null || tmp.left.color == Black) && (tmp.right == null || tmp.right.color == Black) {
      BothBlack(x1, t);
      PaintRight(h, tmp, Red, x1.up, q);
      x', t' := x1.up, q.(r := q.r.(c := Red));
      AtFields(h, x', t');
      elm := parent0;
      parent := elm.parent;
    } else {
      if tmp.right == null || tmp.right.color == Black {
        x1 := TurnNephewRight(h, tmp, x1, t);
        AtFields(h, x1, t);
        tmp := parent0.right;
      }
      x' := x1.up;
      t' := RepayRight(h, parent0, tmp, x1, t);
      elm, done := h.root, true;
    }
  }

  /** A red sibling on the left: RB_SET_BLACKRED(tmp, parent), then the rotation of parent. */
  method LiftRedLeft(h: Head, parent: Node, tmp: Node, ghost x: Ctx, ghost t: Tree)
    requires At(h, x, t) && Short(x, t) && IsBlack(t) && x.InR? && x.n == parent
    requires x.l.Bin? && x.l.n == tmp && !IsBlack(x.l)
    modifies h`root, Elems(Seq(x, t))
    ensures At(h, RedUp(x), t) && Seq(RedUp(x), t) == Seq(x, t)
    ensures Short(RedUp(x), t) && IsBlack(Sib(RedUp(x)))
  {
    hide At, Short, Seq, Elems, IsBlack;
    ghost var u, q := x.up, Wrap(x, t);
    AtWrap(h, x, t);
    Members(u, q);
    RedSibling(x, t);
    PaintLeft(h, tmp, Black, u, q);
    ghost var q1 := q.(l := q.l.(c := Black));
    Paint(h, parent, Red, u, q1);
    ghost var q2 := q1.(c := Red);
    RotateRight(h, parent, u, q2);
    AtWrap(h, RedUp(x), t);
    AtWrap(h, RedUp(x).up, Wrap(RedUp(x), t));
  }

  /** The black sibling tmp has a red inner child only: it becomes the outer one. */
  method TurnNephewLeft(h: Head, tmp: Node, ghost x: Ctx, ghost t: Tree) returns (ghost x': Ctx)
    requires At(h, x, t) && Short(x, t) && IsBlack(t) && x.InR?
    requires x.l.Bin? && x.l.n == tmp && IsBlack(x.l) && !IsBlack(x.l.r) && IsBlack(x.l.l)
    modifies h`root, Elems(Seq(x, t))
    ensures At(h, x', t) && Short(x', t) && Seq(x', t) == Seq(x, t) && Depth(x') == Depth(x)
    ensures x'.InR? && x'.n == x.n && x'.up == x.up && x'.c == x.c && x'.l.Bin? && IsBlack(x'.l) && !IsBlack(x'.l.l)
  {
    hide At, Short, Seq, Elems;
    InnerNephew(x, t);
    AtWrap(h, x, t);
    ghost var q := Wrap(x, t);
    ghost var xs := InL(q.c, q.n, q.r, x.up);
    AtInL(h, q.c, q.l, q.n, q.r, x.up);
    AtFields(h, xs, q.l);
    Members(xs, q.l);
    var oright := tmp.right;
    if oright != null { PaintRight(h, oright, Black, xs, q.l); }
    ghost var s1 := q.l.(r := q.l.r.(c := Black));
    Paint(h, tmp, Red, xs, s1);
    ghost var s2 := s1.(c := Red);
    RotateLeft(h, tmp, xs, s2);
    AtInL(h, q.c, RotL(s2), q.n, q.r, x.up);
    x' := x.(l := RotL(s2));
    AtWrap(h, x', t);
  }

  /** The outer nephew is red: recolour and rotate the parent; the shortage is gone. */
  method RepayLeft(h: Head, parent: Node, tmp: Node, ghost x: Ctx, ghost t: Tree) returns (ghost t': Tree)
    requires At(h, x, t) && Short(x, t) && IsBlack(t) && x.InR? && x.n == parent
    requires x.l.Bin? && x.l.n == tmp && IsBlack(x.l) && !IsBlack(x.l.l)
    modifies h`root, Elems(Seq(x, t))
    ensures At(h, x.up, t') && Fit(x.up, t') && Seq(x.up, t') == Seq(x, t)
  {
    hide At, Short, Seq, Elems, Fit;
    OuterNephew(x, t);
    AtWrap(h, x, t);
    ghost var u, q := x.up, Wrap(x, t);
    AtFields(h, u, q);
    Members(u, q);
    PaintLeft(h, tmp, parent.color, u, q);
    ghost var q1 := q.(l := q.l.(c := q.c));
    Paint(h, parent, Black, u, q1);
    ghost var q2 := q1.(c := Black);
    AtFields(h, u, q2);
    ghost var xs := InL(q2.c, q2.n, q2.r, u);
    AtInL(h, q2.c, q2.l, q2.n, q2.r, u);
    Members(xs, q2.l);
    if tmp.left != null { PaintLeft(h, tmp.left, Black, xs, q2.l); }
    ghost var q3 := q2.(l := q2.l.(l := q2.l.l.(c := Black)));
    AtInL(h, q3.c, q3.l, q3.n, q3.r, u);
    RotateRight(h, parent, u, q3);
    t' := RotR(q3);
  }

  /** One pass of the loop when the short subtree is a right child; `done` is its break. */
  method RepairRight(h: Head, parent0: Node, elm0: Node?, ghost x: Ctx, ghost t: Tree)
    returns (parent: Node?, elm: Node?, done: bool, ghost x': Ctx, ghost t': Tree)
    requires At(h, x, t) && Short(x, t) && IsBlack(t) && x.InR? && x.n == parent0 && elm0 == Root(t)
    modifies h`root, Elems(Seq(x, t))
    ensures At(h, x', t') && Seq(x', t') == Seq(x, t)
    ensures !done ==> Short(x', t') && parent == Par(x') && elm == Root(t')
    ensures !done ==> Depth(x') < Depth(x) || (Depth(x') == Depth(x) && !IsBlack(t'))
    ensures done ==> Fit(x', t') && elm == h.root
  {
    hide At, Short, Seq, Elems, Fit;
    parent, elm, done := parent0, elm0, false;
    SiblingBin(x, t);
    AtWrap(h, x, t);
    AtFields(h, x.up, Wrap(x, t));
    var tmp := parent0.left;
    ghost var x1 := x;
    if tmp.color == Red {
      LiftRedLeft(h, parent0, tmp, x, t);
      x1 := RedUp(x);
      SiblingBin(x1, t);
      AtWrap(h, x1, t);
      AtFields(h, x1.up, Wrap(x1, t));
      tmp := parent0.left;
    }
    ghost var q := Wrap(x1, t);
    AtInL(h, q.c, q.l, q.n, q.r, x1.up);
    AtFields(h, InL(q.c, q.n, q.r, x1.up), q.l);
    Members(x1.up, q);
    if (tmp.left == null || tmp.left.color == Black) && (tmp.right == null || tmp.right.color == Black) {
      BothBlack(x1, t);
      PaintLeft(h, tmp, Red, x1.up, q);
      x', t' := x1.up, q.(l := q.l.(c := Red));
      AtFields(h, x', t');
      elm := parent0;
      parent := elm.parent;
    } else {
      if tmp.left == null || tmp.left.color == Black {
        x1 := TurnNephewLeft(h, tmp, x1, t);
        AtFields(h, x1, t);
        tmp := parent0.left;
      }
      x' := x1.up;
      t' := RepayLeft(h, parent0, tmp, x1, t);
      elm, done := h.root, true;
    }
  }

  lemma {:induction false} TopInCtx(x: Ctx, hole: Node?, top: Node?)
    requires RepCtx(x, hole, top) && !x.Top?
    ensures top != null && (top in Before(x) || top in After(x))
  {
    if !x.up.Top? { TopInCtx(x.up, x.n, top); }
  }

  /** The focus is the whole tree exactly when its root is the head's root. */
  lemma RootIsTop(h: Head, x: Ctx, t: Tree)
    requires At(h, x, t)
    ensures h.root == Root(t) <==> x.Top?
  {
    if !x.Top? {
      TopInCtx(x, Root(t), h.root);
      if t.Bin? { ApartBin(x, t.c, t.l, t.n, t.r); FrameApartOf(x, t); RootNotInCtx(x, t); }
    }
  }

  lemma RootNotInCtx(x: Ctx, t: Tree)
    requires t.Bin? && NoDup(Seq(x, t))
    ensures t.n !in Before(x) && t.n !in After(x)
  {
    ApartBin(x, t.c, t.l, t.n, t.r);
    assert t.n !in Elems(Before(x)) && t.n !in Elems(After(x));
  }

  /** RB_REMOVE_COLOR. */
  method RemoveColor(h: Head, parent0: Node?, elm0: Node?, ghost x0: Ctx, ghost t0: Tree)
    requires At(h, x0, t0) && Short(x0, t0) && parent0 == Par(x0) && elm0 == Root(t0)
    modifies h, Elems(Seq(x0, t0))
    ensures At(h, Top, h.tree) && Fit(Top, h.tree) && InOrder(h.tree) == Seq(x0, t0)
  {
    hide At, Elems, Fit, Seq, InOrder, Short, Plug, Ok, H, CtxOk, Rep, RepCtx, NoDup, Before, After, RedUp, Wrap, Depth, Blacken;
    var parent, elm := parent0, elm0;
    ghost var x, t := x0, t0;
    AtFields(h, x, t);
    RootIsTop(h, x, t);
    var done := false;
    while (elm == null || elm.color == Black) && elm != h.root
      invariant At(h, x, t) && Short(x, t) && Seq(x, t) == Seq(x0, t0)
      invariant parent == Par(x) && elm == Root(t) && (elm == null || elm.color == t.c) && (elm == h.root <==> x.Top?)
      decreases Depth(x), if IsBlack(t) then 1 else 0
    {
      SiblingBin(x, t);
      AtFields(h, x, t);
      if parent.left == elm {
        parent, elm, done, x, t := RepairLeft(h, parent, elm, x, t);
      } else {
        parent, elm, done, x, t := RepairRight(h, parent, elm, x, t);
      }
      AtFields(h, x, t);
      RootIsTop(h, x, t);
      if done { break; }
    }
    if done {
      FitTop(h, x, t);
      x, t := Top, Plug(x, t);
    } else {
      ShortDone(x, t);
    }
    if elm != null { Members(x, t); }
    PaintFinal(h, elm, x, t);
  }

  /** if(elm) RB_COLOR(elm) = RB_BLACK, the last statement of RB_REMOVE_COLOR. */
  method PaintFinal(h: Head, elm: Node?, ghost x: Ctx, ghost t: Tree)
    requires At(h, x, t) && Fit(x, Blacken(t)) && elm == Root(t)
    modifies h, elm
    ensures At(h, Top, h.tree) && Fit(Top, h.tree) && InOrder(h.tree) == Seq(x, t)
  {
    hide At, Elems, Fit, Seq, InOrder, Plug;
    if elm != null { Paint(h, elm, Black, x, t); }
    FitTop(h, x, Blacken(t));
    assert allocated(Elems(Seq(x, t)));
    h.tree := Plug(x, Blacken(t));
  }

  lemma FitTop(h: Head, x: Ctx, t: Tree)
    requires At(h, x, t) && Fit(x, t)
    ensures At(h, Top, Plug(x, t)) && Fit(Top, Plug(x, t)) && Blacken(Plug(x, t)) == Plug(x, t)
    ensures InOrder(Plug(x, t)) == Seq(x, t) && Seq(Top, Plug(x, t)) == Seq(x, t) && h.root == Root(Plug(x, t))
  {
    AtPlug(h, x, t);
    FitPlug(x, t);
    InOrderTop(Plug(x, t));
  }

  /** s without its first occurrence of n. */
  ghost function Without(s: seq<Node>, n: Node): seq<Node> {
    if s == [] then [] else if s[0] == n then s[1..] else [s[0]] + Without(s[1..], n)
  }

  lemma {:induction false} WithoutAt(a: seq<Node>, n: Node, b: seq<Node>)
    requires n !in a
    ensures Without(a + [n] + b, n) == a + b
  {
    if a == [] {
      assert a + [n] + b == [n] + b && a + b == b;
    } else {
      assert (a + [n] + b)[1..] == a[1..] + [n] + b && a + b == [a[0]] + (a[1..] + b);
      WithoutAt(a[1..], n, b);
    }
  }

  lemma SortedWithout(a: seq<Node>, n: Node, b: seq<Node>)
    requires Sorted(a + [n] + b)
    ensures Sorted(a + b)
  {
    var u := a + [n] + b;
    forall i, j | 0 <= i < j < |a + b| ensures Lt(Key((a + b)[i]), Key((a + b)[j])) {
      assert (a + b)[i] == u[if i < |a| then i else i + 1] && (a + b)[j] == u[if j < |a| then j else j + 1];
    }
  }

  lemma NoDupWithout(a: seq<Node>, n: Node, b: seq<Node>)
    requires NoDup(a + [n] + b)
    ensures NoDup(a + b) && n !in a + b
  {
    var u := a + [n] + b;
    assert u[|a|] == n;
    forall i | 0 <= i < |a + b| ensures (a + b)[i] != n {
      assert (a + b)[i] == u[if i < |a| then i else i + 1];
    }
    forall i, j | 0 <= i < j < |a + b| ensures (a + b)[i] != (a + b)[j] {
      assert (a + b)[i] == u[if i < |a| then i else i + 1] && (a + b)[j] == u[if j < |a| then j else j + 1];
    }
  }

  /** A node with one subtree at most: the sequence around it. */
  lemma SpliceSeq(x: Ctx, t: Tree, ch: Tree)
    requires t.Bin? && ((t.l.Leaf? && ch == t.r) || (t.r.Leaf? && ch == t.l)) && NoDup(Seq(x, t))
    ensures NoDup(Seq(x, ch)) && t.n !in Seq(x, ch) && Seq(x, ch) == Without(Seq(x, t), t.n)
    ensures Sorted(Seq(x, t)) ==> Sorted(Seq(x, ch))
    ensures Elems(Seq(x, ch)) <= Elems(Seq(x, t))
  {
    var a := Before(x) + InOrder(t.l);
    var b := InOrder(t.r) + After(x);
    SeqBin(x, t);
    assert Seq(x, ch) == a + b;
    NoDupWithout(a, t.n, b);
    WithoutAt(a, t.n, b);
    if Sorted(Seq(x, t)) { SortedWithout(a, t.n, b); }
  }

  /** Takes elm, which has one subtree at most, out of the tree: its child moves up. */
  method Splice(h: Head, elm: Node, child: Node?, parent: Node?, ghost x: Ctx, ghost t: Tree, ghost ch: Tree)
    requires At(h, x, t) && t.Bin? && t.n == elm && parent == Par(x) && child == Root(ch)
    requires (t.l.Leaf? && ch == t.r) || (t.r.Leaf? && ch == t.l)
    modifies h`root, parent, child
    ensures At(h, x, ch) && unchanged(elm)
  {
    hide At, Rep, RepCtx, NoDup, FrameApart, Seq, InOrder, Before, After, Elems, Without;
    AtSplit(h, x, t);
    ApartBin(x, t.c, t.l, t.n, t.r);
    ApartSubs(x, t);
    FrameApartOf(x, t);
    SpliceSeq(x, t, ch);
    OwnMembers(x, ch);
    assert allocated(Elems(InOrder(ch))) && allocated(Elems(Before(x))) && allocated(Elems(After(x)));
    Reparent(child, parent, ch, elm);
    ReplaceChild(h, parent, elm, child, x);
    AtJoin(h, x, ch);
  }

  lemma NoDupSwap(a: seq<Node>, n: Node, b: seq<Node>, n': Node)
    requires NoDup(a + [n] + b) && n' !in a + [n] + b
    ensures NoDup(a + [n'] + b) && n' !in a && n' !in b && n' != n
  {
    var u, v := a + [n] + b, a + [n'] + b;
    assert u[|a|] == n && v == u[|a| := n'];
    assert forall m :: m in a || m in b ==> m in u;
  }

  lemma SubstituteSeq(x: Ctx, t: Tree, n': Node)
    requires t.Bin? && NoDup(Seq(x, t)) && n' !in Seq(x, t)
    ensures var t' := Bin(t.c, t.l, n', t.r);
            NoDup(Seq(x, t')) && Seq(x, t') == Before(x) + InOrder(t.l) + [n'] + InOrder(t.r) + After(x)
    ensures n' !in Elems(InOrder(t.l)) && n' !in Elems(InOrder(t.r)) && n' !in Elems(Before(x)) && n' !in Elems(After(x)) && n' != t.n
  {
    hide NoDup, InOrder, Seq, Before, After;
    var a, b := Before(x) + InOrder(t.l), InOrder(t.r) + After(x);
    SeqBin(x, t);
    SeqBin(x, Bin(t.c, t.l, n', t.r));
    NoDupSwap(a, t.n, b, n');
    assert a + [n'] + b == Before(x) + InOrder(t.l) + [n'] + InOrder(t.r) + After(x);
  }

  /** elm, which is in no tree, takes over the link fields and the place of `gone`. */
  method Substitute(h: Head, gone: Node, elm: Node, ghost x: Ctx, ghost t: Tree)
    requires At(h, x, t) && t.Bin? && t.n == gone && t.l.Bin? && elm !in Seq(x, t)
    modifies h`root, elm, Elems(Seq(x, t))
    ensures At(h, x, Bin(t.c, t.l, elm, t.r))
    ensures Seq(x, Bin(t.c, t.l, elm, t.r)) == Before(x) + InOrder(t.l) + [elm] + InOrder(t.r) + After(x)
  {
    hide At, Rep, RepCtx, NoDup, FrameApart, Seq, InOrder, Before, After, Elems;
    AtSplit(h, x, t);
    ApartBin(x, t.c, t.l, t.n, t.r);
    ApartSubs(x, t);
    FrameApartOf(x, t);
    OwnMembers(x, t.l);
    OwnMembers(x, t.r);
    Members(x, t);
    SubstituteSeq(x, t, elm);
    assert allocated(Elems(InOrder(t.l))) && allocated(Elems(InOrder(t.r))) && allocated(Elems(Before(x))) && allocated(Elems(After(x)));
    elm.left, elm.right, elm.parent, elm.color := gone.left, gone.right, gone.parent, gone.color;
    ReplaceChild(h, gone.parent, gone, elm, x);
    Reparent(gone.left, elm, t.l, gone);
    Reparent(gone.right, elm, t.r, gone);
    MakeBin(Bin(t.c, t.l, elm, t.r), Par(x));
    AtJoin(h, x, Bin(t.c, t.l, elm, t.r));
  }

  // ---- the path from a node down to its successor ----

  /** The path low, continued upwards by base. */
  ghost function Append(low: Ctx, base: Ctx): (r: Ctx)
  {
    match low
    case Top => base
    case InL(c, n, r, up) => InL(c, n, r, Append(up, base))
    case InR(c, l, n, up) => InR(c, l, n, Append(up, base))
  }

  ghost predicate AllLeft(low: Ctx) {
    low.Top? || (low.InL? && AllLeft(low.up))
  }

  lemma {:induction false} AtAppend(h: Head, low: Ctx, base: Ctx, t: Tree)
    ensures Seq(Append(low, base), t) == Seq(base, Plug(low, t))
    ensures At(h, Append(low, base), t) <==> At(h, base, Plug(low, t))
    ensures Fit(Append(low, base), t) <==> Fit(base, Plug(low, t))
    decreases low
  {
    match low
    case Top =>
    case InL(c, n, r, up) =>
      AtInL(h, c, t, n, r, Append(up, base)); FitInL(c, t, n, r, Append(up, base));
      AtAppend(h, up, base, Bin(c, t, n, r));
    case InR(c, l, n, up) =>
      AtInR(h, c, l, n, t, Append(up, base)); FitInR(c, l, n, t, Append(up, base));
      AtAppend(h, up, base, Bin(c, l, n, t));
  }

  /** Colours and heights do not depend on which node stands in a frame. */
  lemma {:induction false} CtxOkRename(low: Ctx, c: Color, l: Tree, n: Node, n': Node, x: Ctx, k: nat)
    requires CtxOk(Append(low, InR(c, l, n, x)), k)
    ensures CtxOk(Append(low, InR(c, l, n', x)), k)
    ensures RedFits(Append(low, InR(c, l, n, x))) == RedFits(Append(low, InR(c, l, n', x)))
    decreases low
  {
    if !low.Top? {
      CtxOkRename(low.up, c, l, n, n', x, if low.c == Black then k + 1 else k);
    }
  }

  lemma {:induction false} NothingBefore(low: Ctx)
    requires AllLeft(low)
    ensures Before(low) == []
  {
    if !low.Top? { NothingBefore(low.up); }
  }

  lemma LeftPathSeq(low: Ctx, t: Tree)
    requires AllLeft(low)
    ensures Before(low) == [] && InOrder(Plug(low, t)) == InOrder(t) + After(low)
  {
    hide InOrder, Plug, Before, After, AllLeft;
    NothingBefore(low);
    PlugSeq(low, t);
    assert [] + InOrder(t) + After(low) == InOrder(t) + After(low);
  }

  /** Removing a node with one subtree at most: what the colours say afterwards. */
  lemma SpliceFit(x: Ctx, t: Tree, ch: Tree)
    requires t.Bin? && Fit(x, t) && ((t.l.Leaf? && ch == t.r) || (t.r.Leaf? && ch == t.l))
    ensures t.c == Red ==> Fit(x, ch)
    ensures t.c == Black ==> Short(x, ch)
  {
    assert Ok(ch) && H(ch) == 0;
    if ch.Bin? { assert Ok(ch.l) && Ok(ch.r) && Ok(Blacken(ch)); }
  }

  lemma {:induction false} Locate(h: Head, x: Ctx, t: Tree, n: Node) returns (x': Ctx, t': Tree)
    requires At(h, x, t) && Fit(x, t) && n in InOrder(t)
    ensures At(h, x', t') && Fit(x', t') && Seq(x', t') == Seq(x, t) && t'.Bin? && t'.n == n
    decreases t
  {
    if t.n == n {
      x', t' := x, t;
    } else if n in InOrder(t.l) {
      AtInL(h, t.c, t.l, t.n, t.r, x); FitInL(t.c, t.l, t.n, t.r, x);
      x', t' := Locate(h, InL(t.c, t.n, t.r, x), t.l, n);
    } else {
      AtInR(h, t.c, t.l, t.n, t.r, x); FitInR(t.c, t.l, t.n, t.r, x);
      x', t' := Locate(h, InR(t.c, t.l, t.n, x), t.r, n);
    }
  }

  /** gone has one subtree at most. */
  method UnlinkOuter(h: Head, gone: Node, child: Node?, ghost x: Ctx, ghost t: Tree)
    returns (parent: Node?, color: Color, ghost ch: Tree)
    requires At(h, x, t) && Fit(x, t) && t.Bin? && t.n == gone
    requires (t.l.Leaf? && child == Root(t.r)) || (t.r.Leaf? && child == Root(t.l))
    modifies h`root, Elems(Seq(x, t))
    ensures At(h, x, ch) && child == Root(ch) && parent == Par(x) && Seq(x, ch) == Without(Seq(x, t), gone)
    ensures if color == Black then Short(x, ch) else Fit(x, ch)
  {
    hide At, Fit, Short, Seq, Elems, Without;
    AtFields(h, x, t);
    Members(x, t);
    AtSplit(h, x, t);
    ch := if t.l.Leaf? && child == Root(t.r) then t.r else t.l;
    SpliceFit(x, t, ch);
    SpliceSeq(x, t, ch);
    parent := gone.parent;
    color := gone.color;
    Splice(h, gone, child, parent, x, t, ch);
  }

  /** The leftmost node of gone's right subtree. */
  method Successor(ghost h: Head, gone: Node, ghost x: Ctx, ghost t: Tree) returns (elm: Node, ghost low: Ctx, ghost sub: Tree)
    requires At(h, x, t) && t.Bin? && t.n == gone && t.r.Bin?
    ensures AllLeft(low) && Plug(low, sub) == t.r && sub.Bin? && sub.n == elm && sub.l.Leaf?
  {
    hide At, Seq, Elems, Fit;
    AtFields(h, x, t);
    elm := gone.right;
    low, sub := Top, t.r;
    AtInR(h, t.c, t.l, gone, t.r, x);
    ghost var base := InR(t.c, t.l, gone, x);
    AtAppend(h, low, base, sub);
    AtFields(h, Append(low, base), sub);
    var left := elm.left;
    while left != null
      invariant AllLeft(low) && Plug(low, sub) == t.r && sub.Bin? && sub.n == elm && left == Root(sub.l)
      invariant At(h, base, t.r)
      modifies {}
      decreases sub
    {
      elm := left;
      low, sub := InL(sub.c, sub.n, sub.r, low), sub.l;
      AtAppend(h, low, base, sub);
      AtFields(h, Append(low, base), sub);
      left := elm.left;
    }
  }

  /** Where the successor sits relative to gone. */
  lemma LowPath(h: Head, x: Ctx, t: Tree, low: Ctx, sub: Tree)
    requires At(h, x, t) && Fit(x, t) && t.Bin? && AllLeft(low) && Plug(low, sub) == t.r && sub.Bin? && sub.l.Leaf?
    ensures var y := Append(low, InR(t.c, t.l, t.n, x));
            At(h, y, sub) && Fit(y, sub) && Seq(y, sub) == Seq(x, t) && (Par(y) == t.n <==> low.Top?)
    ensures t.n != sub.n && t.n in Elems(Seq(x, t)) && sub.n in Elems(Seq(x, t))
  {
    hide At, Fit, Seq, InOrder, Plug, Before, Elems;
    var base := InR(t.c, t.l, t.n, x);
    var y := Append(low, base);
    AtInR(h, t.c, t.l, t.n, t.r, x);
    FitInR(t.c, t.l, t.n, t.r, x);
    AtAppend(h, low, base, sub);
    LeftPathSeq(low, sub);
    Members(x, t);
    Members(y, sub);
    RootApart(h, x, t);
    FirstOfPath(low, sub);
  }

  lemma AtNoDup(h: Head, x: Ctx, t: Tree)
    requires At(h, x, t)
    ensures NoDup(Seq(x, t))
  {}

  lemma RootApart(h: Head, x: Ctx, t: Tree)
    requires At(h, x, t) && t.Bin?
    ensures t.n !in Elems(InOrder(t.r))
  {
    ApartBin(x, t.c, t.l, t.n, t.r);
  }

  lemma FirstOfPath(low: Ctx, sub: Tree)
    requires AllLeft(low) && sub.Bin?
    ensures sub.n in Elems(InOrder(Plug(low, sub)))
    ensures low.InL? ==> low.n in Elems(InOrder(Plug(low, sub)))
  {
    hide Plug;
    LeftPathSeq(low, sub);
    assert sub.n in InOrder(sub);
    assert low.InL? ==> low.n in After(low);
  }

  lemma SuccessorFirst(low: Ctx, sub: Tree)
    requires AllLeft(low) && sub.Bin? && sub.l.Leaf?
    ensures InOrder(Plug(low, sub)) == [sub.n] + InOrder(Plug(low, sub.r))
  {
    hide InOrder, Plug, AllLeft, After;
    LeftPathSeq(low, sub);
    LeftPathSeq(low, sub.r);
    FirstAlone(sub);
    ConsAssoc(sub.n, InOrder(sub.r), After(low));
  }

  lemma FirstAlone(sub: Tree)
    requires sub.Bin? && sub.l.Leaf?
    ensures InOrder(sub) == [sub.n] + InOrder(sub.r)
  {
    assert InOrder(sub.l) == [];
    assert [] + [sub.n] == [sub.n];
  }

  lemma ConsAssoc(n: Node, a: seq<Node>, b: seq<Node>)
    ensures ([n] + a) + b == [n] + (a + b)
  {}

  lemma WithoutRoot(x: Ctx, t: Tree)
    requires t.Bin? && NoDup(Seq(x, t))
    ensures Without(Seq(x, t), t.n) == Before(x) + InOrder(t.l) + (InOrder(t.r) + After(x))
  {
    hide NoDup, InOrder, Seq, Before, After, Without;
    var a, b := Before(x) + InOrder(t.l), InOrder(t.r) + After(x);
    SeqBin(x, t);
    NoDupWithout(a, t.n, b);
    WithoutAt(a, t.n, b);
  }

  /** The sequence with the successor moved into gone's place. */
  lemma MovedSeq(x: Ctx, t: Tree, low: Ctx, sub: Tree)
    requires t.Bin? && NoDup(Seq(x, t)) && AllLeft(low) && Plug(low, sub) == t.r && sub.Bin? && sub.l.Leaf?
    ensures Before(x) + InOrder(t.l) + [sub.n] + InOrder(Plug(low, sub.r)) + After(x) == Without(Seq(x, t), t.n)
  {
    hide *;
    SuccessorFirst(low, sub);
    WithoutRoot(x, t);
    var p, r, q := Before(x) + InOrder(t.l), InOrder(Plug(low, sub.r)), After(x);
    assert p + ([sub.n] + r + q) == p + [sub.n] + r + q;
  }

  /** gone has two subtrees: its successor is spliced out and takes gone's place. */
  method UnlinkInner(h: Head, gone: Node, ghost x: Ctx, ghost t: Tree)
    returns (child: Node?, parent: Node?, color: Color, ghost y: Ctx, ghost ch: Tree)
    requires At(h, x, t) && Fit(x, t) && t.Bin? && t.n == gone && t.l.Bin? && t.r.Bin?
    modifies h`root, Elems(Seq(x, t))
    ensures At(h, y, ch) && child == Root(ch) && parent == Par(y) && Seq(y, ch) == Without(Seq(x, t), gone)
    ensures if color == Black then Short(y, ch) else Fit(y, ch)
  {
    hide At, Fit, Short, Seq, Elems, Without, NoDup, AllLeft, Plug;
    ghost var low, sub;
    var elm: Node;
    assert allocated(Elems(Seq(x, t)));
    elm, low, sub := Successor(h, gone, x, t);
    ghost var base := InR(t.c, t.l, gone, x);
    ghost var y0 := Append(low, base);
    LowPath(h, x, t, low, sub);
    AtNoDup(h, x, t);
    AtFields(h, y0, sub);
    child, parent, color := elm.right, elm.parent, elm.color;
    ch := sub.r;
    SpliceFit(y0, sub, ch);
    SpliceSeq(y0, sub, ch);
    Members(y0, sub);
    Splice(h, elm, child, parent, y0, sub, ch);
    ghost var t1 := Bin(t.c, t.l, gone, Plug(low, ch));
    AtAppend(h, low, base, ch);
    AtInR(h, t.c, t.l, gone, Plug(low, ch), x);
    if elm.parent == gone { parent := elm; }
    Substitute(h, gone, elm, x, t1);
    y := Append(low, InR(t.c, t.l, elm, x));
    MovedSeq(x, t, low, sub);
    AtInR(h, t.c, t.l, elm, Plug(low, ch), x);
    AtAppend(h, low, InR(t.c, t.l, elm, x), ch);
    Renamed(low, t, elm, x, ch);
    ParAppend(low, base);
    ParAppend(low, InR(t.c, t.l, elm, x));
  }

  lemma ParAppend(low: Ctx, base: Ctx)
    ensures Par(Append(low, base)) == if low.Top? then Par(base) else low.n
  {}

  lemma Renamed(low: Ctx, t: Tree, elm: Node, x: Ctx, ch: Tree)
    requires t.Bin?
    ensures Fit(Append(low, InR(t.c, t.l, t.n, x)), ch) ==> Fit(Append(low, InR(t.c, t.l, elm, x)), ch)
    ensures Short(Append(low, InR(t.c, t.l, t.n, x)), ch) ==> Short(Append(low, InR(t.c, t.l, elm, x)), ch)
  {
    hide CtxOk, Ok, H, Append, IsBlack, RedFits, Blacken;
    var y := Append(low, InR(t.c, t.l, t.n, x));
    if Fit(y, ch) { CtxOkRename(low, t.c, t.l, t.n, elm, x, H(ch)); }
    if Short(y, ch) { CtxOkRename(low, t.c, t.l, t.n, elm, x, H(ch) + 1); }
  }

  /** RB_REMOVE: takes elm0 out of the tree it is in and relinks, copying no keys. */
  method Remove(h: Head, elm0: Node) returns (gone: Node)
    requires Valid(h) && elm0 in Contents(h)
    modifies h, Elems(Contents(h))
    ensures Valid(h) && gone == elm0
    ensures Contents(h) == Without(old(Contents(h)), elm0)
    ensures forall n :: n in Contents(h) <==> n in old(Contents(h)) && n != elm0
  {
    hide Valid, At, Fit, Short, Seq, InOrder, Sorted, Plug, Rep, RepCtx, NoDup;
    RemoveStart(h);
    ghost var s := Contents(h);
    ghost var x, t := Locate(h, Top, h.tree, elm0);
    AtFields(h, x, t);
    SortedRemoval(s, elm0);
    gone := elm0;
    var child: Node?, parent: Node?, color: Color;
    ghost var y, ch;
    if gone.left == null {
      child := gone.right;
      y := x;
      parent, color, ch := UnlinkOuter(h, gone, child, x, t);
    } else if gone.right == null {
      child := gone.left;
      y := x;
      parent, color, ch := UnlinkOuter(h, gone, child, x, t);
    } else {
      child, parent, color, y, ch := UnlinkInner(h, gone, x, t);
    }
    if color == Black {
      RemoveColor(h, parent, child, y, ch);
    } else {
      FitTop(h, y, ch);
      h.tree := Plug(y, ch);
    }
    ValidNow(h);
    SortedRemoval(s, elm0);
  }

  lemma RemoveStart(h: Head)
    requires Valid(h)
    ensures At(h, Top, h.tree) && Fit(Top, h.tree) && Seq(Top, h.tree) == Contents(h) && InOrder(h.tree) == Contents(h) && Sorted(Contents(h))
  {
    InOrderTop(h.tree);
  }

  lemma SortedRemoval(s: seq<Node>, n: Node)
    requires Sorted(s) && n in s
    ensures Sorted(Without(s, n)) && Elems(Without(s, n)) <= Elems(s)
    ensures forall m :: m in Without(s, n) <==> m in s && m != n
  {
    SortedNoDup(s);
    var i :| 0 <= i < |s| && s[i] == n;
    var a, b := s[..i], s[i + 1..];
    assert s == a + [n] + b;
    NoDupWithout(a, n, b);
    WithoutAt(a, n, b);
    SortedWithout(a, n, b);
  }
}
