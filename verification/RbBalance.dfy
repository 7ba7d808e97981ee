/** Colour and balance of red-black trees, stated on the ghost shape. */
module RbBalance {
  import opened RbHeap
  import opened Strcmp

  ghost predicate IsBlack(t: Tree) {
    t.Leaf? || t.c == Black
  }

  /** Number of black nodes on the leftmost path. */
  ghost function H(t: Tree): nat {
    if t.Leaf? then 0 else H(t.l) + if t.c == Black then 1 else 0
  }

  /** No red node has a red child and all paths hold the same number of black nodes. */
  ghost predicate Ok(t: Tree) {
    t.Bin? ==>
      && Ok(t.l) && Ok(t.r) && H(t.l) == H(t.r)
      && (t.c == Red ==> IsBlack(t.l) && IsBlack(t.r))
  }

  ghost function Blacken(t: Tree): Tree {
    if t.Leaf? then t else t.(c := Black)
  }

  /** The hole of x may hold a red node. */
  ghost predicate RedFits(x: Ctx) {
    !x.Top? && x.c == Black
  }

  /** x completes any tree of black height k whose root colour fits. */
  ghost predicate CtxOk(x: Ctx, k: nat) {
    match x
    case Top => true
    case InL(c, _, r, up) =>
      && Ok(r) && H(r) == k && (c == Red ==> IsBlack(r) && RedFits(up))
      && CtxOk(up, if c == Black then k + 1 else k)
    case InR(c, l, _, up) =>
      && Ok(l) && H(l) == k && (c == Red ==> IsBlack(l) && RedFits(up))
      && CtxOk(up, if c == Black then k + 1 else k)
  }

  /** The whole tree Plug(x, t) is a red-black tree with a black root. */
  ghost predicate Fit(x: Ctx, t: Tree) {
    Ok(t) && CtxOk(x, H(t)) && (IsBlack(t) || RedFits(x))
  }

  lemma FitInL(c: Color, t: Tree, n: Node, r: Tree, up: Ctx)
    ensures Fit(InL(c, n, r, up), t) <==> Fit(up, Bin(c, t, n, r))
  {}

  lemma FitInR(c: Color, l: Tree, n: Node, t: Tree, up: Ctx)
    ensures Fit(InR(c, l, n, up), t) <==> Fit(up, Bin(c, l, n, t))
  {}

  /** Keys strictly increase. */
  ghost predicate Sorted(s: seq<Node>) {
    forall i, j :: 0 <= i < j < |s| ==> Lt(Key(s[i]), Key(s[j]))
  }

  /** What tree.h promises of a library map: linked, ordered, coloured and balanced. */
  ghost predicate Valid(h: Head)
    reads h, Elems(InOrder(h.tree))
  {
    assert Seq(Top, h.tree) == InOrder(h.tree);
    At(h, Top, h.tree) && Fit(Top, h.tree) && Sorted(InOrder(h.tree))
  }

  ghost function Contents(h: Head): seq<Node>
    reads h
  {
    InOrder(h.tree)
  }

  lemma {:induction false} FitPlug(x: Ctx, t: Tree)
    ensures Fit(x, t) <==> Fit(Top, Plug(x, t))
    decreases x
  {
    match x
    case Top =>
    case InL(c, n, r, up) => FitInL(c, t, n, r, up); FitPlug(up, Bin(c, t, n, r));
    case InR(c, l, n, up) => FitInR(c, l, n, t, up); FitPlug(up, Bin(c, l, n, t));
  }

  // ---- searching by key ----

  /** The search for key k has k's place in the hole of x. */
  ghost predicate Brackets(x: Ctx, k: string) {
    && (forall n :: n in Before(x) ==> Lt(Key(n), k))
    && (forall n :: n in After(x) ==> Lt(k, Key(n)))
  }

  lemma SortedParts(s: seq<Node>, t: seq<Node>)
    requires Sorted(s + t)
    ensures Sorted(s) && Sorted(t)
    ensures forall m, n :: m in s && n in t ==> Lt(Key(m), Key(n))
  {
    var u := s + t;
    forall i, j | 0 <= i < j < |s| ensures Lt(Key(s[i]), Key(s[j])) { assert u[i] == s[i] && u[j] == s[j]; }
    forall i, j | 0 <= i < j < |t| ensures Lt(Key(t[i]), Key(t[j])) { assert u[|s| + i] == t[i] && u[|s| + j] == t[j]; }
    forall i, j | 0 <= i < |s| && 0 <= j < |t| ensures Lt(Key(s[i]), Key(t[j])) { assert u[i] == s[i] && u[|s| + j] == t[j]; }
  }

  lemma BracketsLeft(x: Ctx, t: Tree, k: string)
    requires t.Bin? && Sorted(Seq(x, t)) && Brackets(x, k) && Lt(k, Key(t.n))
    ensures Brackets(InL(t.c, t.n, t.r, x), k)
  {
    hide Sorted, Lt;
    var p, q := Before(x) + InOrder(t.l), InOrder(t.r) + After(x);
    SeqBin(x, t);
    assert p + [t.n] + q == p + ([t.n] + q);
    SortedParts(p, [t.n] + q);
    SortedParts([t.n], q);
    forall m | m in InOrder(t.r) ensures Lt(k, Key(m)) {
      assert t.n in [t.n] && m in q;
      LtTrans(k, Key(t.n), Key(m));
    }
  }

  lemma BracketsRight(x: Ctx, t: Tree, k: string)
    requires t.Bin? && Sorted(Seq(x, t)) && Brackets(x, k) && Lt(Key(t.n), k)
    ensures Brackets(InR(t.c, t.l, t.n, x), k)
  {
    hide Sorted, Lt;
    var p, q := Before(x) + InOrder(t.l), InOrder(t.r) + After(x);
    SeqBin(x, t);
    SortedParts(p + [t.n], q);
    SortedParts(p, [t.n]);
    forall m | m in InOrder(t.l) ensures Lt(Key(m), k) {
      assert m in p && t.n in [t.n];
      LtTrans(Key(m), Key(t.n), k);
    }
  }

  /** A search for key k has reached subtree t below x. */
  ghost predicate Seeking(h: Head, x: Ctx, t: Tree, k: string)
    reads h`root, Elems(Seq(x, t))
  {
    At(h, x, t) && Fit(x, t) && Sorted(Seq(x, t)) && Brackets(x, k)
  }

  lemma SeekLeft(h: Head, x: Ctx, t: Tree, k: string)
    requires Seeking(h, x, t, k) && t.Bin? && Cmp(k, Key(t.n)) < 0
    ensures Seeking(h, InL(t.c, t.n, t.r, x), t.l, k) && Seq(InL(t.c, t.n, t.r, x), t.l) == Seq(x, t)
    ensures t.n.left == Root(t.l)
  {
    hide At, Fit, Sorted, Brackets, InOrder;
    AtFields(h, x, t);
    BracketsLeft(x, t, k);
    FitInL(t.c, t.l, t.n, t.r, x);
    AtInL(h, t.c, t.l, t.n, t.r, x);
  }

  lemma SeekRight(h: Head, x: Ctx, t: Tree, k: string)
    requires Seeking(h, x, t, k) && t.Bin? && Cmp(k, Key(t.n)) > 0
    ensures Seeking(h, InR(t.c, t.l, t.n, x), t.r, k) && Seq(InR(t.c, t.l, t.n, x), t.r) == Seq(x, t)
    ensures t.n.right == Root(t.r)
  {
    hide At, Fit, Sorted, Brackets, InOrder;
    AtFields(h, x, t);
    CmpAnti(k, Key(t.n));
    BracketsRight(x, t, k);
    FitInR(t.c, t.l, t.n, t.r, x);
    AtInR(h, t.c, t.l, t.n, t.r, x);
  }

  lemma SeekStart(h: Head, k: string)
    requires Valid(h)
    ensures Seeking(h, Top, h.tree, k) && h.root == Root(h.tree) && Seq(Top, h.tree) == Contents(h)
  {
    InOrderTop(h.tree);
  }

  /** The search ran out of tree: no key equals k. */
  lemma SeekMiss(h: Head, x: Ctx, k: string)
    requires Seeking(h, x, Leaf, k)
    ensures Seq(x, Leaf) == Before(x) + After(x)
    ensures forall n :: n in Seq(x, Leaf) ==> Key(n) != k
  {
    assert Seq(x, Leaf) == Before(x) + After(x);
    CmpZero(k, k);
  }

  /** s with x at its place in key order. */
  ghost function Inserted(s: seq<Node>, x: Node): seq<Node> {
    if s == [] || Lt(Key(x), Key(s[0])) then [x] + s else [s[0]] + Inserted(s[1..], x)
  }

  lemma {:induction false} InsertedAt(a: seq<Node>, x: Node, b: seq<Node>)
    requires forall n :: n in a ==> Lt(Key(n), Key(x))
    requires forall n :: n in b ==> Lt(Key(x), Key(n))
    ensures Inserted(a + b, x) == a + [x] + b
  {
    if a == [] {
      assert a + b == b;
      assert b != [] ==> b[0] in b;
    } else {
      assert a[0] in a;
      CmpAnti(Key(x), Key(a[0]));
      assert (a + b)[1..] == a[1..] + b;
      InsertedAt(a[1..], x, b);
    }
  }

  lemma {:induction false} InsertedElems(s: seq<Node>, x: Node)
    ensures forall n :: n in Inserted(s, x) <==> n in s || n == x
  {
    if s == [] || Lt(Key(x), Key(s[0])) {
    } else {
      InsertedElems(s[1..], x);
      assert s == [s[0]] + s[1..];
    }
  }

  /** Putting x between smaller and larger keys keeps the order. */
  lemma SortedInsert(a: seq<Node>, x: Node, b: seq<Node>)
    requires Sorted(a + b)
    requires forall n :: n in a ==> Lt(Key(n), Key(x))
    requires forall n :: n in b ==> Lt(Key(x), Key(n))
    ensures Sorted(a + [x] + b)
  {
    SortedParts(a, b);
    var u := a + [x] + b;
    forall i, j | 0 <= i < j < |u| ensures Lt(Key(u[i]), Key(u[j])) {
      if j < |a| {
        assert u[i] == a[i] && u[j] == a[j];
      } else if i < |a| {
        assert u[i] in a && (u[j] == x || u[j] in b);
      } else if i == |a| {
        assert u[j] in b;
      } else {
        assert u[i] == b[i - |a| - 1] && u[j] == b[j - |a| - 1];
      }
    }
  }

  /** Nodes in key order are distinct. */
  lemma SortedNoDup(s: seq<Node>)
    requires Sorted(s)
    ensures NoDup(s)
  {
    forall i, j | 0 <= i < j < |s| ensures s[i] != s[j] {
      CmpZero(Key(s[i]), Key(s[j]));
    }
  }
}
