/** Searching and walking red-black trees: RB_FIND, RB_NFIND, RB_MINMAX, RB_NEXT, RB_PREV,
    the RB_FOREACH loops, and the height bound they rest on. */
module RbScan {
  import opened Bits
  import opened Seqs
  import opened Strcmp
  import opened RbHeap
  import opened RbBalance
  import opened RbRemove

  // ---- height ----

  ghost function Height(t: Tree): nat {
    if t.Leaf? then 0 else 1 + if Height(t.l) > Height(t.r) then Height(t.l) else Height(t.r)
  }

  lemma {:induction false} HeightVsBlack(t: Tree)
    requires Ok(t)
    ensures Height(t) <= 2 * H(t) + if IsBlack(t) then 0 else 1
  {
    if t.Bin? { HeightVsBlack(t.l); HeightVsBlack(t.r); }
  }

  lemma {:induction false} SizeVsBlack(t: Tree)
    requires Ok(t)
    ensures |InOrder(t)| + 1 >= Pow2(H(t))
  {
    if t.Bin? { SizeVsBlack(t.l); SizeVsBlack(t.r); }
  }

  lemma SquareMono(p: nat, n: nat)
    requires p <= n
    ensures p * p <= n * n
  {
    assert p * p <= p * n;
    assert p * n <= n * n;
  }

  /** A valid tree of n nodes has height at most 2 lg(n + 1). */
  lemma HeightBound(t: Tree)
    requires Fit(Top, t)
    ensures Pow2(Height(t)) <= (|InOrder(t)| + 1) * (|InOrder(t)| + 1)
  {
    hide Pow2, Height, H, InOrder, CtxOk;
    HeightVsBlack(t);
    SizeVsBlack(t);
    Pow2Mono(Height(t), 2 * H(t));
    assert H(t) + H(t) == 2 * H(t);
    Pow2Add(H(t), H(t));
    SquareMono(Pow2(H(t)), |InOrder(t)| + 1);
  }

  // ---- searching ----

  /** RB_FIND. `steps` counts the comparisons. */
  method Find(h: Head, key: string) returns (r: Node?, ghost steps: nat)
    requires Valid(h)
    ensures r != null ==> r in Contents(h) && Key(r) == key
    ensures r == null ==> forall n :: n in Contents(h) ==> Key(n) != key
    ensures Pow2(steps) <= (|Contents(h)| + 1) * (|Contents(h)| + 1)
  {
    hide Valid, Seeking, At, Fit, Seq, InOrder, Sorted, Cmp, NoDup, Before, After, RepCtx, Height, Pow2;
    var tmp := h.root;
    ghost var x, t := Top, h.tree;
    SeekStart(h, key);
    HeightNow(h);
    assert allocated(Elems(InOrder(h.tree)));
    steps := 0;
    while tmp != null
      invariant Seeking(h, x, t, key) && Seq(x, t) == Contents(h) && tmp == Root(t)
      invariant steps + Height(t) <= Height(h.tree)
      modifies {}
      decreases t
    {
      HeightStep(t);
      var comp := Cmp(key, tmp.elem.pathname);
      steps := steps + 1;
      if comp < 0 {
        SeekLeft(h, x, t, key);
        tmp := tmp.left;
        x, t := InL(t.c, t.n, t.r, x), t.l;
      } else if comp > 0 {
        SeekRight(h, x, t, key);
        tmp := tmp.right;
        x, t := InR(t.c, t.l, t.n, x), t.r;
      } else {
        CmpZero(key, Key(tmp));
        Members(x, t);
        Pow2Mono(steps, Height(h.tree));
        return tmp, steps;
      }
    }
    SeekMiss(h, x, key);
    Pow2Mono(steps, Height(h.tree));
    return null, steps;
  }

  lemma HeightStep(t: Tree)
    ensures t.Bin? ==> Height(t.l) + 1 <= Height(t) && Height(t.r) + 1 <= Height(t)
  {}

  lemma HeightNow(h: Head)
    requires Valid(h)
    ensures Pow2(Height(h.tree)) <= (|Contents(h)| + 1) * (|Contents(h)| + 1)
  {
    HeightBound(h.tree);
  }

  /** RB_NFIND: the least node whose key is not below `key`. */
  method NFind(h: Head, key: string) returns (res: Node?, ghost steps: nat)
    requires Valid(h)
    ensures res == null ==> forall n :: n in Contents(h) ==> Lt(Key(n), key)
    ensures res != null ==> res in Contents(h) && !Lt(Key(res), key)
    ensures res != null ==> forall n :: n in Contents(h) && !Lt(Key(n), key) ==> !Lt(Key(n), Key(res))
    ensures Pow2(steps) <= (|Contents(h)| + 1) * (|Contents(h)| + 1)
  {
    hide Valid, Seeking, At, Fit, Seq, InOrder, Sorted, Cmp, NoDup, Before, After, RepCtx, Height, Pow2, Lt;
    var tmp := h.root;
    res := null;
    ghost var x, t := Top, h.tree;
    SeekStart(h, key);
    HeightNow(h);
    assert allocated(Elems(InOrder(h.tree)));
    steps := 0;
    NextUp(x);
    while tmp != null
      invariant Seeking(h, x, t, key) && Seq(x, t) == Contents(h) && tmp == Root(t)
      invariant res == First(After(x))
      invariant steps + Height(t) <= Height(h.tree)
      modifies {}
      decreases t
    {
      HeightStep(t);
      var comp := Cmp(key, tmp.elem.pathname);
      steps := steps + 1;
      if comp < 0 {
        SeekLeft(h, x, t, key);
        res := tmp;
        tmp := tmp.left;
        x, t := InL(t.c, t.n, t.r, x), t.l;
        NextUp(x);
      } else if comp > 0 {
        SeekRight(h, x, t, key);
        tmp := tmp.right;
        x, t := InR(t.c, t.l, t.n, x), t.r;
        NextUp(x);
      } else {
        Members(x, t);
        LeastEqual(h, x, t, key);
        Pow2Mono(steps, Height(h.tree));
        return tmp, steps;
      }
    }
    LeastAbove(h, x, key);
    Pow2Mono(steps, Height(h.tree));
  }

  ghost function First(s: seq<Node>): Node? {
    if s == [] then null else s[0]
  }

  ghost function Last(s: seq<Node>): Node? {
    if s == [] then null else s[|s| - 1]
  }

  /** What follows the hole depends on the nearest left-child frame. */
  lemma NextUp(x: Ctx)
    ensures x.Top? ==> First(After(x)) == null
    ensures x.InL? ==> First(After(x)) == x.n
    ensures x.InR? ==> After(x) == After(x.up)
  {}

  lemma PrevUp(x: Ctx)
    ensures x.Top? ==> Last(Before(x)) == null
    ensures x.InR? ==> Last(Before(x)) == x.n
    ensures x.InL? ==> Before(x) == Before(x.up)
  {}

  lemma LeastEqual(h: Head, x: Ctx, t: Tree, key: string)
    requires Seeking(h, x, t, key) && t.Bin? && Cmp(key, Key(t.n)) == 0
    ensures !Lt(Key(t.n), key)
    ensures forall n :: n in Seq(x, t) && !Lt(Key(n), key) ==> !Lt(Key(n), Key(t.n))
  {
    CmpZero(key, Key(t.n));
  }

  lemma LeastAbove(h: Head, x: Ctx, key: string)
    requires Seeking(h, x, Leaf, key)
    ensures var res := First(After(x));
            && (res == null ==> forall n :: n in Seq(x, Leaf) ==> Lt(Key(n), key))
            && (res != null ==> res in Seq(x, Leaf) && !Lt(Key(res), key))
            && (res != null ==> forall n :: n in Seq(x, Leaf) && !Lt(Key(n), key) ==> !Lt(Key(n), Key(res)))
  {
    var s, b, a := Seq(x, Leaf), Before(x), After(x);
    assert s == b + a;
    if a != [] {
      assert a[0] in a;
      CmpAnti(key, Key(a[0]));
      SortedParts(b, a);
      forall n | n in a ensures !Lt(Key(n), Key(a[0])) {
        var i :| 0 <= i < |a| && a[i] == n;
        CmpAnti(Key(n), Key(a[0]));
        CmpZero(Key(n), Key(a[0]));
      }
    }
  }

  // ---- walking ----

  /** The element after n in s. */
  ghost function Follow(s: seq<Node>, n: Node): Node? {
    if s == [] then null else if s[0] == n then First(s[1..]) else Follow(s[1..], n)
  }

  /** The element before n in s. */
  ghost function Precede(s: seq<Node>, n: Node): Node? {
    if s == [] then null
    else if s[|s| - 1] == n then Last(s[..|s| - 1])
    else Precede(s[..|s| - 1], n)
  }

  lemma {:induction false} FollowAt(a: seq<Node>, n: Node, b: seq<Node>)
    requires n !in a
    ensures Follow(a + [n] + b, n) == First(b)
  {
    var s := a + [n] + b;
    if a == [] {
      assert s[1..] == b;
    } else {
      assert s[1..] == a[1..] + [n] + b;
      FollowAt(a[1..], n, b);
    }
  }

  lemma {:induction false} PrecedeAt(a: seq<Node>, n: Node, b: seq<Node>)
    requires n !in b
    ensures Precede(a + [n] + b, n) == Last(a)
  {
    var s := a + [n] + b;
    if b == [] {
      assert s[..|s| - 1] == a;
    } else {
      assert s[..|s| - 1] == a + [n] + b[..|b| - 1];
      assert s[|s| - 1] == b[|b| - 1];
      PrecedeAt(a, n, b[..|b| - 1]);
    }
  }

  /** RB_PREV undoes RB_NEXT. */
  lemma PrecedeFollow(s: seq<Node>, i: nat)
    requires NoDup(s) && i + 1 < |s|
    ensures Follow(s, s[i]) == s[i + 1] && Precede(s, s[i + 1]) == s[i]
  {
    assert s == s[..i] + [s[i]] + s[i + 1..];
    FollowAt(s[..i], s[i], s[i + 1..]);
    assert s == s[..i + 1] + [s[i + 1]] + s[i + 2..];
    PrecedeAt(s[..i + 1], s[i + 1], s[i + 2..]);
  }

  /** The neighbours of the node in focus. */
  lemma Neighbours(x: Ctx, t: Tree)
    requires t.Bin? && NoDup(Seq(x, t))
    ensures Follow(Seq(x, t), t.n) == First(InOrder(t.r) + After(x))
    ensures Precede(Seq(x, t), t.n) == Last(Before(x) + InOrder(t.l))
  {
    hide NoDup, InOrder, Seq, Before, After, Follow, Precede;
    var a, b := Before(x) + InOrder(t.l), InOrder(t.r) + After(x);
    SeqBin(x, t);
    NoDupWithout(a, t.n, b);
    FollowAt(a, t.n, b);
    PrecedeAt(a, t.n, b);
  }

  lemma FirstRight(low: Ctx, sub: Tree, b: seq<Node>)
    requires AllLeft(low) && sub.Bin? && sub.l.Leaf?
    ensures First(InOrder(Plug(low, sub)) + b) == sub.n
  {
    SuccessorFirst(low, sub);
  }

  lemma NoRight(x: Ctx, t: Tree)
    requires t.Bin?
    ensures t.r.Leaf? ==> InOrder(t.r) + After(x) == After(x)
    ensures t.l.Leaf? ==> Before(x) + InOrder(t.l) == Before(x)
  {
    assert t.r.Leaf? ==> InOrder(t.r) == [];
    assert t.l.Leaf? ==> InOrder(t.l) == [];
  }

  /** RB_NEXT. */
  method Next(ghost h: Head, elm0: Node) returns (elm: Node?)
    requires Valid(h) && elm0 in Contents(h)
    ensures elm == Follow(Contents(h), elm0)
  {
    hide Valid, At, Fit, Seq, InOrder, Sorted, NoDup, Before, After, Rep, RepCtx, AllLeft, Plug, Follow, Precede, First;
    RemoveStart(h);
    ghost var x, t := Locate(h, Top, h.tree, elm0);
    AtFields(h, x, t);
    AtSplit(h, x, t);
    Neighbours(x, t);
    NoRight(x, t);
    elm := elm0;
    if elm.right != null {
      ghost var low, sub;
      elm, low, sub := Successor(h, elm, x, t);
      FirstRight(low, sub, After(x));
    } else {
      if elm.parent != null && elm == elm.parent.left {
        NextUp(x);
        elm := elm.parent;
      } else {
        ghost var y, u := x, t;
        assert allocated(Elems(Seq(y, u)));
        while elm.parent != null && elm == elm.parent.right
          invariant At(h, y, u) && First(After(y)) == First(After(x)) && Seq(y, u) == Seq(x, t)
          invariant u.Bin? && u.n == elm && elm.parent == Par(y)
          modifies {}
          decreases Depth(y)
        {
          AtFields(h, y, u);
          NextUp(y);
          AtWrap(h, y, u);
          elm := elm.parent;
          y, u := y.up, Wrap(y, u);
          AtFields(h, y, u);
        }
        AtFields(h, y, u);
        NextUp(y);
        elm := elm.parent;
      }
    }
  }

  ghost predicate AllRight(low: Ctx) {
    low.Top? || (low.InR? && AllRight(low.up))
  }

  lemma {:induction false} NothingAfter(low: Ctx)
    requires AllRight(low)
    ensures After(low) == []
  {
    if !low.Top? { NothingAfter(low.up); }
  }

  lemma RightPathSeq(low: Ctx, t: Tree)
    requires AllRight(low)
    ensures After(low) == [] && InOrder(Plug(low, t)) == Before(low) + InOrder(t)
  {
    hide InOrder, Plug, Before, After, AllRight;
    NothingAfter(low);
    PlugSeq(low, t);
    assert Before(low) + InOrder(t) + [] == Before(low) + InOrder(t);
  }

  lemma LastLeft(low: Ctx, sub: Tree, a: seq<Node>)
    requires AllRight(low) && sub.Bin? && sub.r.Leaf?
    ensures Last(a + InOrder(Plug(low, sub))) == sub.n
  {
    RightPathSeq(low, sub);
    assert InOrder(sub) == InOrder(sub.l) + [sub.n];
  }

  /** The rightmost node of the left subtree. */
  method Predecessor(ghost h: Head, e: Node, ghost x: Ctx, ghost t: Tree) returns (elm: Node, ghost low: Ctx, ghost sub: Tree)
    requires At(h, x, t) && t.Bin? && t.n == e && t.l.Bin?
    ensures AllRight(low) && Plug(low, sub) == t.l && sub.Bin? && sub.n == elm && sub.r.Leaf?
  {
    hide At, Seq, Elems, Fit;
    AtFields(h, x, t);
    elm := e.left;
    low, sub := Top, t.l;
    AtInL(h, t.c, t.l, e, t.r, x);
    ghost var base := InL(t.c, e, t.r, x);
    AtAppend(h, low, base, sub);
    AtFields(h, Append(low, base), sub);
    while elm.right != null
      invariant AllRight(low) && Plug(low, sub) == t.l && sub.Bin? && sub.n == elm && elm.right == Root(sub.r)
      invariant At(h, base, t.l)
      modifies {}
      decreases sub
    {
      elm := elm.right;
      low, sub := InR(sub.c, sub.l, sub.n, low), sub.r;
      AtAppend(h, low, base, sub);
      AtFields(h, Append(low, base), sub);
    }
  }

  /** RB_PREV. */
  method Prev(ghost h: Head, elm0: Node) returns (elm: Node?)
    requires Valid(h) && elm0 in Contents(h)
    ensures elm == Precede(Contents(h), elm0)
  {
    hide Valid, At, Fit, Seq, InOrder, Sorted, NoDup, Before, After, Rep, RepCtx, AllRight, Plug, Follow, Precede, Last;
    RemoveStart(h);
    ghost var x, t := Locate(h, Top, h.tree, elm0);
    AtFields(h, x, t);
    AtSplit(h, x, t);
    Neighbours(x, t);
    NoRight(x, t);
    elm := elm0;
    if elm.left != null {
      ghost var low, sub;
      elm, low, sub := Predecessor(h, elm, x, t);
      LastLeft(low, sub, Before(x));
    } else {
      if elm.parent != null && elm == elm.parent.right {
        PrevUp(x);
        elm := elm.parent;
      } else {
        ghost var y, u := x, t;
        assert allocated(Elems(Seq(y, u)));
        while elm.parent != null && elm == elm.parent.left
          invariant At(h, y, u) && Last(Before(y)) == Last(Before(x)) && Seq(y, u) == Seq(x, t)
          invariant u.Bin? && u.n == elm && elm.parent == Par(y)
          modifies {}
          decreases Depth(y)
        {
          AtFields(h, y, u);
          PrevUp(y);
          AtWrap(h, y, u);
          elm := elm.parent;
          y, u := y.up, Wrap(y, u);
          AtFields(h, y, u);
        }
        AtFields(h, y, u);
        PrevUp(y);
        elm := elm.parent;
      }
    }
  }

  lemma Extremes(x: Ctx)
    ensures AllLeft(x) ==> First(Seq(x, Leaf)) == Par(x)
    ensures AllRight(x) ==> Last(Seq(x, Leaf)) == Par(x)
  {
    if AllLeft(x) { LeftPathSeq(x, Leaf); assert Seq(x, Leaf) == After(x); NextUp(x); }
    if AllRight(x) { RightPathSeq(x, Leaf); assert Seq(x, Leaf) == Before(x); PrevUp(x); }
  }

  /** RB_MINMAX: the first node for val < 0, else the last. */
  method MinMax(h: Head, val: int) returns (parent: Node?)
    requires Valid(h)
    ensures parent == if val < 0 then First(Contents(h)) else Last(Contents(h))
  {
    hide Valid, At, Fit, Seq, InOrder, Sorted, NoDup, Before, After, Rep, RepCtx, First, Last;
    RemoveStart(h);
    var tmp := h.root;
    parent := null;
    ghost var x, t := Top, h.tree;
    AtFields(h, x, t);
    assert allocated(Elems(Seq(x, t)));
    while tmp != null
      invariant At(h, x, t) && Seq(x, t) == Contents(h) && tmp == Root(t) && parent == Par(x)
      invariant if val < 0 then AllLeft(x) else AllRight(x)
      modifies {}
      decreases t
    {
      AtFields(h, x, t);
      parent := tmp;
      if val < 0 {
        AtInL(h, t.c, t.l, t.n, t.r, x);
        tmp := tmp.left;
        x, t := InL(t.c, t.n, t.r, x), t.l;
      } else {
        AtInR(h, t.c, t.l, t.n, t.r, x);
        tmp := tmp.right;
        x, t := InR(t.c, t.l, t.n, x), t.r;
      }
    }
    Extremes(x);
  }

  lemma FollowStep(s: seq<Node>, i: nat)
    requires NoDup(s) && i < |s|
    ensures Follow(s, s[i]) == First(s[i + 1..])
  {
    assert s == s[..i] + [s[i]] + s[i + 1..];
    FollowAt(s[..i], s[i], s[i + 1..]);
  }

  lemma PrecedeStep(s: seq<Node>, i: nat)
    requires NoDup(s) && i < |s|
    ensures Precede(s, s[i]) == Last(s[..i])
  {
    assert s == s[..i] + [s[i]] + s[i + 1..];
    PrecedeAt(s[..i], s[i], s[i + 1..]);
  }

  lemma FirstNull(s: seq<Node>)
    ensures First(s) == null <==> s == []
    ensures s != [] ==> First(s) == s[0]
  {}

  /** RB_FOREACH: every node once, in increasing key order. */
  method Foreach(h: Head) returns (visited: seq<Node>)
    requires Valid(h)
    ensures visited == Contents(h) && Sorted(visited)
  {
    hide Valid, At, Fit, InOrder, Sorted, Follow, NoDup, First;
    RemoveStart(h);
    ghost var s := Contents(h);
    ghost var k := 0;
    SortedNoDup(s);
    visited := [];
    assert allocated(Elems(InOrder(h.tree)));
    var x := MinMax(h, -1);
    assert s[0..] == s && s[..0] == [];
    while x != null
      invariant Valid(h) && Contents(h) == s && 0 <= k <= |s| && visited == s[..k] && x == First(s[k..])
      modifies {}
      decreases |s| - k
    {
      FirstNull(s[k..]);
      FollowStep(s, k);
      assert s[..k + 1] == s[..k] + [s[k]];
      visited := visited + [x];
      k := k + 1;
      x := Next(h, x);
    }
    FirstNull(s[k..]);
    assert s[..k] == s;
  }

  lemma LastNull(s: seq<Node>)
    ensures Last(s) == null <==> s == []
    ensures s != [] ==> Last(s) == s[|s| - 1]
  {}

  /** RB_FOREACH_REVERSE: the exact reverse. */
  method ForeachReverse(h: Head) returns (visited: seq<Node>)
    requires Valid(h)
    ensures visited == Reversed(Contents(h))
  {
    hide Valid, At, Fit, InOrder, Sorted, Precede, NoDup, Last, Reversed;
    RemoveStart(h);
    ghost var s := Contents(h);
    ghost var k: nat := |s|;
    SortedNoDup(s);
    visited := [];
    assert allocated(Elems(InOrder(h.tree)));
    var x := MinMax(h, 1);
    BackStarts(s);
    while x != null
      invariant Valid(h) && Contents(h) == s && 0 <= k <= |s| && x == Last(s[..k]) && visited == Reversed(s[k..])
      modifies {}
      decreases k
    {
      BackStep(s, k);
      k := k - 1;
      visited := visited + [x];
      x := Prev(h, x);
    }
    BackStep(s, k);
  }

  lemma BackStarts(s: seq<Node>)
    ensures s[..|s|] == s && Reversed(s[|s|..]) == []
  {
    NothingReversed<Node>();
  }

  /** Going back from position k of the nodes. */
  lemma BackStep(s: seq<Node>, k: nat)
    requires NoDup(s) && k <= |s|
    ensures Last(s[..k]) == null <==> k == 0
    ensures k == 0 ==> s[k..] == s
    ensures k > 0 ==> Last(s[..k]) == s[k - 1] && Precede(s, s[k - 1]) == Last(s[..k - 1])
                      && Reversed(s[k - 1..]) == Reversed(s[k..]) + [s[k - 1]]
  {
    hide Last, Precede, Reversed, NoDup;
    LastNull(s[..k]);
    if k > 0 {
      PrecedeStep(s, k - 1);
      ReversedStep(s, k - 1);
    }
  }
}
