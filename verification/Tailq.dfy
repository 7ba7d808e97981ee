/** The tail queues of queue.h. */
module Tailq {
  import opened Seqs

  /** A head or an entry. Both are a link followed by the address of a link, which is what the
      previous and last operators rely on; the address of a link is the cell it stands in. */
  class Cell {
    var link: Cell?
    var back: Cell?

    constructor ()
    {
    }
  }

  function Elems(es: seq<Cell>): set<Cell> {
    set e | e in es
  }

  /** What element i links to: the next one, or nothing. */
  function After(es: seq<Cell>, i: nat): Cell? {
    if i + 1 < |es| then es[i + 1] else null
  }

  /** The cell before element i: the one before, or the head. */
  function Before(h: Cell, es: seq<Cell>, i: nat): Cell
    requires i <= |es|
  {
    if i == 0 then h else es[i - 1]
  }

  ghost predicate ElemOk(h: Cell, es: seq<Cell>, i: nat)
    reads h, Elems(es)
    requires i < |es|
  {
    es[i].link == After(es, i) && es[i].back == Before(h, es, i)
  }

  /** The head h holds the elements es in this order, every back address exact. */
  ghost predicate Queue(h: Cell, es: seq<Cell>)
    reads h, Elems(es)
  {
    && h !in es
    && (forall i, j :: 0 <= i < j < |es| ==> es[i] != es[j])
    && h.link == (if es == [] then null else es[0]) && h.back == Before(h, es, |es|)
    && forall i :: 0 <= i < |es| ==> ElemOk(h, es, i)
  }

  // ---- the operations ----

  /** TAILQ_INIT. */
  method Init(h: Cell)
    modifies h
    ensures Queue(h, [])
  {
    h.link := null;
    h.back := h;
  }

  /** TAILQ_INSERT_HEAD. */
  method InsertHead(h: Cell, elm: Cell, ghost es: seq<Cell>)
    requires Queue(h, es) && elm != h && elm !in es
    modifies h, elm, Elems(es)
    ensures Queue(h, [elm] + es)
  {
    if es != [] { assert ElemOk(h, es, 0); }
    elm.link := h.link;
    if elm.link != null {
      h.link.back := elm;
    } else {
      h.back := elm;
    }
    h.link := elm;
    elm.back := h;
    ghost var all := [elm] + es;
    forall i | 0 <= i < |all| ensures ElemOk(h, all, i) {
      if i > 0 { assert old(ElemOk(h, es, i - 1)); }
    }
  }

  /** TAILQ_INSERT_TAIL. */
  method InsertTail(h: Cell, elm: Cell, ghost es: seq<Cell>)
    requires Queue(h, es) && elm != h && elm !in es
    modifies h, elm, Elems(es)
    ensures Queue(h, es + [elm])
  {
    if es != [] { assert ElemOk(h, es, |es| - 1); }
    elm.link := null;
    elm.back := h.back;
    h.back.link := elm;
    h.back := elm;
    ghost var all := es + [elm];
    forall i | 0 <= i < |all| ensures ElemOk(h, all, i) {
      if i < |es| { assert old(ElemOk(h, es, i)); }
    }
  }

  /** TAILQ_INSERT_BEFORE element k. It needs no head. */
  method InsertBefore(listelm: Cell, elm: Cell, ghost h: Cell, ghost es: seq<Cell>, ghost k: nat)
    requires Queue(h, es) && elm != h && elm !in es && k < |es| && es[k] == listelm
    modifies h, elm, Elems(es)
    ensures Queue(h, Inserted(es, k, elm))
  {
    hide Inserted;
    assert ElemOk(h, es, k) && (k > 0 ==> ElemOk(h, es, k - 1));
    elm.back := listelm.back;
    elm.link := listelm;
    listelm.back.link := elm;
    listelm.back := elm;
    ghost var all := Inserted(es, k, elm);
    forall i | 0 <= i < |all| ensures ElemOk(h, all, i) {
      if i != k { assert old(ElemOk(h, es, if i < k then i else i - 1)); }
    }
  }

  /** TAILQ_INSERT_AFTER element k. */
  method InsertAfter(h: Cell, listelm: Cell, elm: Cell, ghost es: seq<Cell>, ghost k: nat)
    requires Queue(h, es) && elm != h && elm !in es && k < |es| && es[k] == listelm
    modifies h, elm, Elems(es)
    ensures Queue(h, Inserted(es, k + 1, elm))
  {
    hide Inserted;
    assert ElemOk(h, es, k) && (k + 1 < |es| ==> ElemOk(h, es, k + 1));
    elm.link := listelm.link;
    if elm.link != null {
      elm.link.back := elm;
    } else {
      h.back := elm;
    }
    listelm.link := elm;
    elm.back := listelm;
    ghost var all := Inserted(es, k + 1, elm);
    forall i | 0 <= i < |all| ensures ElemOk(h, all, i) {
      if i != k + 1 { assert old(ElemOk(h, es, if i <= k then i else i - 1)); }
    }
  }

  /** TAILQ_REMOVE of element k. */
  method Remove(h: Cell, elm: Cell, ghost es: seq<Cell>, ghost k: nat)
    requires Queue(h, es) && k < |es| && es[k] == elm
    modifies h, Elems(es)
    ensures Queue(h, Without(es, k)) && elm.link == old(elm.link)
  {
    hide Without;
    assert ElemOk(h, es, k) && (k + 1 < |es| ==> ElemOk(h, es, k + 1)) && (k > 0 ==> ElemOk(h, es, k - 1));
    if elm.link != null {
      elm.link.back := elm.back;
    } else {
      h.back := elm.back;
    }
    elm.back.link := elm.link;
    ghost var all := Without(es, k);
    forall i | 0 <= i < |all| ensures ElemOk(h, all, i) {
      assert old(ElemOk(h, es, if i < k then i else i + 1));
    }
  }

  /** TAILQ_CONCAT. */
  method Concat(h1: Cell, h2: Cell, ghost es1: seq<Cell>, ghost es2: seq<Cell>)
    requires Queue(h1, es1) && Queue(h2, es2) && h1 != h2 && h1 !in es2 && h2 !in es1
    requires forall i, j :: 0 <= i < |es1| && 0 <= j < |es2| ==> es1[i] != es2[j]
    modifies h1, h2, Elems(es1), Elems(es2)
    ensures Queue(h1, Joined(es1, es2)) && Queue(h2, [])
  {
    hide Joined;
    assert (es2 != [] ==> ElemOk(h2, es2, 0)) && (es1 != [] ==> ElemOk(h1, es1, |es1| - 1));
    if h2.link != null {
      h1.back.link := h2.link;
      h2.link.back := h1.back;
      h1.back := h2.back;
      Init(h2);
    }
    ghost var all := Joined(es1, es2);
    assert es2 == [] ==> all == es1;
    forall i | 0 <= i < |all| ensures ElemOk(h1, all, i) {
      if i < |es1| { assert old(ElemOk(h1, es1, i)); } else { assert old(ElemOk(h2, es2, i - |es1|)); }
    }
  }

  /** TAILQ_SWAP. */
  method Swap(h1: Cell, h2: Cell, ghost es1: seq<Cell>, ghost es2: seq<Cell>)
    requires Queue(h1, es1) && Queue(h2, es2) && h1 != h2 && h1 !in es2 && h2 !in es1
    requires forall i, j :: 0 <= i < |es1| && 0 <= j < |es2| ==> es1[i] != es2[j]
    modifies h1, h2, Elems(es1), Elems(es2)
    ensures Queue(h1, es2) && Queue(h2, es1)
  {
    assert (es1 != [] ==> ElemOk(h1, es1, 0)) && (es2 != [] ==> ElemOk(h2, es2, 0));
    var first, last := h1.link, h1.back;
    h1.link := h2.link;
    h1.back := h2.back;
    h2.link := first;
    h2.back := last;
    first := h1.link;
    if first != null {
      first.back := h1;
    } else {
      h1.back := h1;
    }
    first := h2.link;
    if first != null {
      first.back := h2;
    } else {
      h2.back := h2;
    }
    forall i | 0 <= i < |es2| ensures ElemOk(h1, es2, i) { assert old(ElemOk(h2, es2, i)); }
    forall i | 0 <= i < |es1| ensures ElemOk(h2, es1, i) { assert old(ElemOk(h1, es1, i)); }
  }

  /** TAILQ_LAST: the back address of the head is taken for a head. */
  method Last(h: Cell, ghost es: seq<Cell>) returns (e: Cell?)
    requires Queue(h, es)
    ensures e == if es == [] then null else es[|es| - 1]
  {
    if es != [] { assert ElemOk(h, es, |es| - 1) && (|es| > 1 ==> ElemOk(h, es, |es| - 2)); }
    return h.back.back.link;

  }

  /** TAILQ_PREV of element k: its back address is taken for a head. */
  method Prev(elm: Cell, ghost h: Cell, ghost es: seq<Cell>, ghost k: nat) returns (e: Cell?)
    requires Queue(h, es) && k < |es| && es[k] == elm
    ensures e == if k == 0 then null else es[k - 1]
  {
    assert ElemOk(h, es, k) && (k > 0 ==> ElemOk(h, es, k - 1)) && (k > 1 ==> ElemOk(h, es, k - 2)) && ElemOk(h, es, |es| - 1);
    return elm.back.back.link;

  }

  /** TAILQ_FOREACH. */
  method Foreach(h: Cell, ghost es: seq<Cell>) returns (out: seq<Cell>)
    requires Queue(h, es)
    ensures out == es
  {
    out := [];
    var e := h.link;
    while e != null
      invariant |out| <= |es| && out == es[..|out|] && e == if |out| < |es| then es[|out|] else null
      modifies {}
      decreases |es| - |out|
    {
      assert ElemOk(h, es, |out|);
      out := out + [e];
      e := e.link;
    }
  }

  /** TAILQ_FOREACH_REVERSE traverses the exact reverse. */
  method ForeachReverse(h: Cell, ghost es: seq<Cell>) returns (out: seq<Cell>)
    requires Queue(h, es)
    ensures out == Reversed(es)
  {
    hide Queue;
    assert allocated(Elems(es));
    out := [];
    var e := Last(h, es);
    while e != null
      invariant |out| <= |es| && out == Reversed(es)[..|out|]
      invariant e == (if |out| < |es| then es[|es| - 1 - |out|] else null) && Queue(h, es)
      modifies {}
      decreases |es| - |out|
    {
      ghost var k := |es| - 1 - |out|;
      out := out + [e];
      e := Prev(e, h, es, k);
    }
  }

  /** TAILQ_FOREACH_SAFE with TAILQ_REMOVE of the current element, as clear frees its lists: every
      element once, in order, and nothing stays. */
  method Sweep(h: Cell, ghost es: seq<Cell>) returns (out: seq<Cell>)
    requires Queue(h, es)
    modifies h, Elems(es)
    ensures out == es && Queue(h, [])
  {
    hide Queue, Without;
    out := [];
    FirstOf(h, es);
    var e := h.link;
    while e != null
      invariant |out| <= |es| && out == es[..|out|] && e == if |out| < |es| then es[|out|] else null
      invariant Queue(h, es[|out|..])
      decreases |es| - |out|
    {
      ghost var rest := es[|out|..];
      FirstOf(h, rest);
      var next := e.link;
      Remove(h, e, rest, 0);
      out := out + [e];
      assert Without(rest, 0) == es[|out|..];
      e := next;
    }
  }

  lemma FirstOf(h: Cell, es: seq<Cell>)
    requires Queue(h, es)
    ensures h.link == if es == [] then null else es[0]
    ensures es != [] ==> es[0].link == After(es, 0)
  {
    if es != [] { assert ElemOk(h, es, 0); }
  }
}
