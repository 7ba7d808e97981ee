/** RB_INSERT_COLOR and RB_INSERT of tree.h. */
module RbInsert {
  import opened Strcmp
  import opened RbHeap
  import opened RbBalance

  /** t is a red subtree whose only possible fault is a red parent. */
  ghost predicate Pending(x: Ctx, t: Tree) {
    t.Bin? && t.c == Red && Ok(t) && CtxOk(x, H(t))
  }

  /** Red parent and red uncle: recolouring moves the fault two levels up. */
  lemma RecolorPending(x: Ctx, t: Tree, g: Tree)
    requires Pending(x, t) && !x.Top? && x.c == Red && !x.up.Top?
    requires g == Wrap(x.up, Wrap(x, t)) && !IsBlack(if x.up.InL? then g.r else g.l)
    ensures Pending(x.up.up, g.(c := Red, l := g.l.(c := Black), r := g.r.(c := Black)))
  {
    var k, g' := H(t), g.(c := Red, l := g.l.(c := Black), r := g.r.(c := Black));
    assert CtxOk(x.up, k) && CtxOk(x.up.up, k + 1);
    assert Ok(g'.l) && H(g'.l) == k + 1 && Ok(g'.r) && H(g'.r) == k + 1;
    assert Ok(g') && H(g') == k + 1;
  }

  /** Black uncle, outer grandchild: after the rotation t sits below a black parent. */
  lemma RotatedPending(x: Ctx, t: Tree, g: Tree)
    requires Pending(x, t) && !x.Top? && x.c == Red && !x.up.Top? && x.InL? == x.up.InL?
    requires g == Wrap(x.up, Wrap(x, t)) && IsBlack(if x.up.InL? then g.r else g.l)
    ensures x.InL? ==> Pending(InL(Black, x.n, Bin(Red, x.r, x.up.n, x.up.r), x.up.up), t)
    ensures x.InR? ==> Pending(InR(Black, Bin(Red, x.up.l, x.up.n, x.l), x.n, x.up.up), t)
  {
    var k := H(t);
    assert CtxOk(x.up, k) && CtxOk(x.up.up, k + 1);
    if x.InL? {
      var s := Bin(Red, x.r, x.up.n, x.up.r);
      assert Ok(s) && H(s) == k;
    } else {
      var s := Bin(Red, x.up.l, x.up.n, x.l);
      assert Ok(s) && H(s) == k;
    }
  }

  /** Inner grandchild: rotating the parent exchanges the two red nodes. */
  lemma InnerPending(x: Ctx, t: Tree, p: Tree)
    requires Pending(x, t) && !x.Top? && x.c == Red && p == Wrap(x, t)
    ensures x.InR? ==> Pending(InL(Red, t.n, t.r, x.up), RotL(p).l) && RotL(p) == Wrap(InL(Red, t.n, t.r, x.up), RotL(p).l)
    ensures x.InL? ==> Pending(InR(Red, t.l, t.n, x.up), RotR(p).r) && RotR(p) == Wrap(InR(Red, t.l, t.n, x.up), RotR(p).r)
  {
    var k := H(t);
    assert CtxOk(x.up, k);
    if x.InR? {
      assert Ok(RotL(p).l) && H(RotL(p).l) == k;
    } else {
      assert Ok(RotR(p).r) && H(RotR(p).r) == k;
    }
  }

  /** The loop of RB_INSERT_COLOR is done: blackening the root finishes the repair. */
  lemma PendingDone(x: Ctx, t: Tree)
    requires Pending(x, t) && (x.Top? || x.c == Black)
    ensures Plug(x, t).Bin? && Fit(Top, Blacken(Plug(x, t)))
  {
    if !x.Top? {
      FitPlug(x, t);
      PlugBin(x, t);
      assert Blacken(Plug(x, t)) == Plug(x, t);
    }
  }

  /** RB_SET_BLACKRED(parent, gparent) and the rotation of gparent, outer grandchild on the left. */
  method RaiseLeft(h: Head, parent: Node, gparent: Node, ghost x: Ctx, ghost t: Tree)
    returns (ghost x': Ctx)
    requires At(h, x, t) && Pending(x, t)
    requires x.InL? && x.c == Red && x.n == parent && x.up.InL? && x.up.n == gparent && IsBlack(x.up.r)
    modifies h`root, Elems(Seq(x, t))
    ensures At(h, x', t) && Pending(x', t) && Seq(x', t) == Seq(x, t)
    ensures Depth(x') == Depth(x) - 1 && x'.c == Black
  {
    hide At, Pending, Seq, Elems, IsBlack;
    ghost var u, p, g := x.up.up, Wrap(x, t), Wrap(x.up, Wrap(x, t));
    AtWrap(h, x, t);
    AtWrap(h, x.up, p);
    Members(u, g);
    RotatedPending(x, t, g);
    PaintLeft(h, parent, Black, u, g);
    ghost var g1 := g.(l := g.l.(c := Black));
    Paint(h, gparent, Red, u, g1);
    ghost var g2 := g1.(c := Red);
    RotateRight(h, gparent, u, g2);
    x' := InL(Black, x.n, Bin(Red, x.r, x.up.n, x.up.r), u);
    AtWrap(h, x', t);
  }

  /** One pass of the loop when the parent is a left child. */
  method FixLeft(h: Head, elm0: Node, parent0: Node, gparent: Node, ghost x: Ctx, ghost t: Tree)
    returns (elm: Node, ghost x': Ctx, ghost t': Tree)
    requires At(h, x, t) && Pending(x, t) && t.Bin? && t.n == elm0
    requires !x.Top? && x.c == Red && x.n == parent0 && x.up.InL? && x.up.n == gparent
    modifies h`root, Elems(Seq(x, t))
    ensures At(h, x', t') && Pending(x', t') && t'.Bin? && t'.n == elm && Seq(x', t') == Seq(x, t)
    ensures Depth(x') < Depth(x)
  {
    hide At, Pending, Seq, Elems;
    var parent := parent0;
    elm := elm0;
    ghost var u := x.up.up;
    ghost var p := Wrap(x, t);
    ghost var g := Wrap(x.up, p);
    AtWrap(h, x, t);
    AtWrap(h, x.up, p);
    AtFields(h, u, g);
    AtFields(h, x, t);
    Members(u, g);
    var tmp := gparent.right;
    if tmp != null && tmp.color == Red {
      RecolorPending(x, t, g);
      PaintRight(h, tmp, Black, u, g);
      ghost var g1 := g.(r := g.r.(c := Black));
      PaintLeft(h, parent, Black, u, g1);
      ghost var g2 := g1.(l := g1.l.(c := Black));
      Paint(h, gparent, Red, u, g2);
      elm := gparent;
      x', t' := u, g2.(c := Red);
    } else {
      ghost var x1, t1 := x, t;
      if parent.right == elm {
        InnerPending(x, t, p);
        RotateLeft(h, parent, x.up, p);
        tmp, parent, elm := parent, elm, parent;
        x1, t1 := InL(Red, t.n, t.r, x.up), RotL(p).l;
        AtWrap(h, x1, t1);
      }
      t' := t1;
      x' := RaiseLeft(h, parent, gparent, x1, t1);
    }
  }

  /** RB_SET_BLACKRED(parent, gparent) and the rotation of gparent, outer grandchild on the right. */
  method RaiseRight(h: Head, parent: Node, gparent: Node, ghost x: Ctx, ghost t: Tree)
    returns (ghost x': Ctx)
    requires At(h, x, t) && Pending(x, t)
    requires x.InR? && x.c == Red && x.n == parent && x.up.InR? && x.up.n == gparent && IsBlack(x.up.l)
    modifies h`root, Elems(Seq(x, t))
    ensures At(h, x', t) && Pending(x', t) && Seq(x', t) == Seq(x, t)
    ensures Depth(x') == Depth(x) - 1 && x'.c == Black
  {
    hide At, Pending, Seq, Elems, IsBlack;
    ghost var u, p, g := x.up.up, Wrap(x, t), Wrap(x.up, Wrap(x, t));
    AtWrap(h, x, t);
    AtWrap(h, x.up, p);
    Members(u, g);
    RotatedPending(x, t, g);
    PaintRight(h, parent, Black, u, g);
    ghost var g1 := g.(r := g.r.(c := Black));
    Paint(h, gparent, Red, u, g1);
    ghost var g2 := g1.(c := Red);
    RotateLeft(h, gparent, u, g2);
    x' := InR(Black, Bin(Red, x.up.l, x.up.n, x.l), x.n, u);
    AtWrap(h, x', t);
  }

  /** One pass of the loop when the parent is a right child. */
  method FixRight(h: Head, elm0: Node, parent0: Node, gparent: Node, ghost x: Ctx, ghost t: Tree)
    returns (elm: Node, ghost x': Ctx, ghost t': Tree)
    requires At(h, x, t) && Pending(x, t) && t.Bin? && t.n == elm0
    requires !x.Top? && x.c == Red && x.n == parent0 && x.up.InR? && x.up.n == gparent
    modifies h`root, Elems(Seq(x, t))
    ensures At(h, x', t') && Pending(x', t') && t'.Bin? && t'.n == elm && Seq(x', t') == Seq(x, t)
    ensures Depth(x') < Depth(x)
  {
    hide At, Pending, Seq, Elems;
    var parent := parent0;
    elm := elm0;
    ghost var u := x.up.up;
    ghost var p := Wrap(x, t);
    ghost var g := Wrap(x.up, p);
    AtWrap(h, x, t);
    AtWrap(h, x.up, p);
    AtFields(h, u, g);
    AtFields(h, x, t);
    Members(u, g);
    var tmp := gparent.left;
    if tmp != null && tmp.color == Red {
      RecolorPending(x, t, g);
      PaintLeft(h, tmp, Black, u, g);
      ghost var g1 := g.(l := g.l.(c := Black));
      PaintRight(h, parent, Black, u, g1);
      ghost var g2 := g1.(r := g1.r.(c := Black));
      Paint(h, gparent, Red, u, g2);
      elm := gparent;
      x', t' := u, g2.(c := Red);
    } else {
      ghost var x1, t1 := x, t;
      if parent.left == elm {
        InnerPending(x, t, p);
        RotateRight(h, parent, x.up, p);
        tmp, parent, elm := parent, elm, parent;
        x1, t1 := InR(Red, t.l, t.n, x.up), RotR(p).r;
        AtWrap(h, x1, t1);
      }
      t' := t1;
      x' := RaiseRight(h, parent, gparent, x1, t1);
    }
  }

  /** RB_INSERT_COLOR. */
  method InsertColor(h: Head, elm0: Node, ghost x0: Ctx, ghost t0: Tree)
    requires At(h, x0, t0) && Pending(x0, t0) && t0.Bin? && t0.n == elm0
    modifies h, Elems(Seq(x0, t0))
    ensures At(h, Top, h.tree) && Fit(Top, h.tree) && InOrder(h.tree) == Seq(x0, t0)
  {
    hide At, Elems, Fit, Seq, InOrder, Pending;
    var elm := elm0;
    ghost var x, t := x0, t0;
    AtFields(h, x, t);
    var parent := elm.parent;
    while parent != null && parent.color == Red
      invariant At(h, x, t) && Pending(x, t) && t.Bin? && t.n == elm && Seq(x, t) == Seq(x0, t0)
      invariant parent == Par(x) && (parent == null || parent.color == x.c)
      decreases Depth(x)
    {
      PendingParent(x, t);
      AtWrap(h, x, t);
      AtFields(h, x, t);
      AtFields(h, x.up, Wrap(x, t));
      var gparent := parent.parent;
      if parent == gparent.left {
        elm, x, t := FixLeft(h, elm, parent, gparent, x, t);
      } else {
        elm, x, t := FixRight(h, elm, parent, gparent, x, t);
      }
      AtFields(h, x, t);
      parent := elm.parent;
    }
    PendingDone(x, t);
    AtPlug(h, x, t);
    ghost var p := Plug(x, t);
    AtFields(h, Top, p);
    assert Seq(Top, p) == InOrder(p) by { InOrderTop(p); }
    InOrderTop(Blacken(p));
    Members(Top, p);
    h.tree := Blacken(p);
    Paint(h, h.root, Black, Top, p);
  }

  /** A red parent is never the root. */
  lemma PendingParent(x: Ctx, t: Tree)
    requires Pending(x, t) && !x.Top? && x.c == Red
    ensures !x.up.Top?
  {}

  /** The link to a new leaf from the parent the search stopped at, or from the head. */
  method LinkChild(h: Head, elm: Node, parent: Node?, comp: int, ghost x: Ctx)
    requires RepCtx(x, null, h.root) && parent == Par(x) && (x.InL? ==> comp < 0) && (x.InR? ==> comp >= 0)
    requires FrameApart(x, elm)
    modifies h`root, parent
    ensures RepCtx(x, elm, h.root)
  {
    assert allocated(Elems(Before(x))) && allocated(Elems(After(x)));
    if parent != null {
      if comp < 0 { parent.left := elm; } else { parent.right := elm; }
    } else {
      h.root := elm;
    }
  }

  /** RB_SET(elm, parent) and the link. */
  method Attach(h: Head, elm: Node, parent: Node?, comp: int, ghost x: Ctx)
    requires RepCtx(x, null, h.root) && parent == Par(x) && (x.InL? ==> comp < 0) && (x.InR? ==> comp >= 0)
    requires NoDup(Before(x) + [elm] + After(x))
    modifies h`root, elm, parent
    ensures At(h, x, Bin(Red, Leaf, elm, Leaf))
    ensures Seq(x, Bin(Red, Leaf, elm, Leaf)) == Before(x) + [elm] + After(x)
  {
    hide NoDup, RepCtx, FrameApart, Before, After, Seq, InOrder, Elems, At;
    ghost var one := Bin(Red, Leaf, elm, Leaf);
    OneSeq(x, one);
    FrameApartOf(x, one);
    ApartBin(x, Red, Leaf, elm, Leaf);
    OwnMembers(x, one);
    assert allocated(Elems(Before(x))) && allocated(Elems(After(x)));
    elm.parent := parent;
    elm.left, elm.right := null, null;
    elm.color := Red;
    LinkChild(h, elm, parent, comp, x);
    AtJoin(h, x, one);
  }

  lemma OneSeq(x: Ctx, one: Tree)
    requires one.Bin? && one.l.Leaf? && one.r.Leaf?
    ensures Seq(x, one) == Before(x) + [one.n] + After(x)
  {
    assert InOrder(one) == [one.n];
  }

  /** Where the search for elm's key ends, a red leaf node fits. */
  lemma AttachReady(h: Head, x: Ctx, elm: Node)
    requires Seeking(h, x, Leaf, Key(elm))
    ensures RepCtx(x, null, h.root) && Pending(x, Bin(Red, Leaf, elm, Leaf))
    ensures NoDup(Before(x) + [elm] + After(x)) && Sorted(Before(x) + [elm] + After(x))
    ensures Inserted(Seq(x, Leaf), elm) == Before(x) + [elm] + After(x)
    ensures forall n :: n in Seq(x, Leaf) ==> Key(n) != Key(elm)
    ensures x.Top? || x.n in Elems(Seq(x, Leaf))
    ensures Elems(Before(x) + [elm] + After(x)) <= Elems(Seq(x, Leaf)) + {elm}
  {
    SeekMiss(h, x, Key(elm));
    InsertedAt(Before(x), elm, After(x));
    SortedInsert(Before(x), elm, After(x));
    SortedNoDup(Before(x) + [elm] + After(x));
  }

  lemma ValidNow(h: Head)
    requires At(h, Top, h.tree) && Fit(Top, h.tree) && Sorted(InOrder(h.tree))
    ensures Valid(h)
  {}

  /** RB_INSERT. A node with an equal key is returned and nothing changes; otherwise
      elm joins at its place in key order. */
  method Insert(h: Head, elm: Node) returns (dup: Node?)
    requires Valid(h)
    modifies h, Elems(Contents(h)), elm
    ensures Valid(h)
    ensures dup == null ==> Contents(h) == Inserted(old(Contents(h)), elm)
    ensures dup == null ==> forall n :: n in Contents(h) <==> n in old(Contents(h)) || n == elm
    ensures dup == null ==> forall n :: n in old(Contents(h)) ==> Key(n) != Key(elm)
    ensures dup != null ==> dup in old(Contents(h)) && Key(dup) == Key(elm)
    ensures dup != null ==> h.root == old(h.root) && h.tree == old(h.tree) && unchanged(elm)
  {
    hide Valid, Seeking, At, Fit, Seq, InOrder, Sorted, Cmp, NoDup, Before, After, RepCtx, Pending;
    ghost var s := Contents(h);
    ghost var x, t := Top, h.tree;
    SeekStart(h, Key(elm));
    assert allocated(Elems(InOrder(h.tree)));
    var tmp := h.root;
    var parent: Node? := null;
    var comp := 0;
    while tmp != null
      invariant Seeking(h, x, t, Key(elm)) && Seq(x, t) == s
      invariant tmp == Root(t) && parent == Par(x) && (x.InL? ==> comp < 0) && (x.InR? ==> comp >= 0)
      modifies {}
      decreases t
    {
      parent := tmp;
      comp := Cmp(elm.elem.pathname, parent.elem.pathname);
      if comp < 0 {
        SeekLeft(h, x, t, Key(elm));
        tmp := tmp.left;
        x, t := InL(t.c, t.n, t.r, x), t.l;
      } else if comp > 0 {
        SeekRight(h, x, t, Key(elm));
        tmp := tmp.right;
        x, t := InR(t.c, t.l, t.n, x), t.r;
      } else {
        CmpZero(Key(elm), Key(parent));
        Members(x, t);
        return tmp;
      }
    }
    AttachReady(h, x, elm);
    ghost var one := Bin(Red, Leaf, elm, Leaf);
    Attach(h, elm, parent, comp, x);
    InsertColor(h, elm, x, one);
    ValidNow(h);
    InsertedElems(s, elm);
    return null;
  }
}
