/** The singly-linked tail queues of queue.h: the head knows the address of the last link. */
module Stailq {
  import opened Seqs

  /** An entry, or the first link of a head; the address of a link is the cell it stands in. */
  class Cell {
    var link: Cell?

    constructor ()
    {
    }
  }

  /** A head: its first link, and the address of the last one. */
  class Head {
    const first: Cell
    var last: Cell

    constructor ()
      ensures fresh(first) && Queue(this, [])
    {
      first := new Cell();
      last := first;
      new;
      first.link := null;
    }
  }

  function Elems(es: seq<Cell>): set<Cell> {
    set e | e in es
  }

  /** What element i links to: the next one, or nothing. */
  function After(es: seq<Cell>, i: nat): Cell? {
    if i + 1 < |es| then es[i + 1] else null
  }

  ghost predicate ElemOk(es: seq<Cell>, i: nat)
    reads Elems(es)
    requires i < |es|
  {
    es[i].link == After(es, i)
  }

  /** The head h holds the elements es in this order. */
  ghost predicate Queue(h: Head, es: seq<Cell>)
    reads h, h.first, Elems(es)
  {
    && h.first !in es
    && (forall i, j :: 0 <= i < j < |es| ==> es[i] != es[j])
    && h.first.link == (if es == [] then null else es[0])
    && h.last == (if es == [] then h.first else es[|es| - 1])
    && forall i :: 0 <= i < |es| ==> ElemOk(es, i)
  }

  // ---- the operations ----

  /** STAILQ_INIT. */
  method Init(h: Head)
    modifies h, h.first
    ensures Queue(h, [])
  {
    h.first.link := null;
    h.last := h.first;
  }

  /** STAILQ_INSERT_HEAD. */
  method InsertHead(h: Head, elm: Cell, ghost es: seq<Cell>)
    requires Queue(h, es) && elm != h.first && elm !in es
    modifies h, h.first, elm
    ensures Queue(h, Inserted(es, 0, elm))
  {
    hide Inserted;
    elm.link := h.first.link;
    if elm.link == null { h.last := elm; }
    h.first.link := elm;
    ghost var all := Inserted(es, 0, elm);
    forall i | 0 <= i < |all| ensures ElemOk(all, i) {
      if i > 0 { assert old(ElemOk(es, i - 1)); }
    }
  }

  /** STAILQ_INSERT_AFTER element k. */
  method InsertAfter(h: Head, tqelm: Cell, elm: Cell, ghost es: seq<Cell>, ghost k: nat)
    requires Queue(h, es) && elm != h.first && elm !in es && k < |es| && es[k] == tqelm
    modifies h, elm, Elems(es)
    ensures Queue(h, Inserted(es, k + 1, elm))
  {
    hide Inserted;
    assert ElemOk(es, k);
    elm.link := tqelm.link;
    if elm.link == null { h.last := elm; }
    tqelm.link := elm;
    ghost var all := Inserted(es, k + 1, elm);
    forall i | 0 <= i < |all| ensures ElemOk(all, i) {
      if i != k + 1 { assert old(ElemOk(es, if i <= k then i else i - 1)); }
    }
  }

  /** STAILQ_INSERT_TAIL. */
  method InsertTail(h: Head, elm: Cell, ghost es: seq<Cell>)
    requires Queue(h, es) && elm != h.first && elm !in es
    modifies h, h.first, elm, Elems(es)
    ensures Queue(h, Inserted(es, |es|, elm))
  {
    hide Inserted;
    elm.link := null;
    h.last.link := elm;
    h.last := elm;
    ghost var all := Inserted(es, |es|, elm);
    forall i | 0 <= i < |all| ensures ElemOk(all, i) {
      if i < |es| { assert old(ElemOk(es, i)); }
    }
  }

  /** STAILQ_CONCAT. */
  method Concat(h1: Head, h2: Head, ghost es1: seq<Cell>, ghost es2: seq<Cell>)
    requires Queue(h1, es1) && Queue(h2, es2) && Apart(h1, es1, h2, es2)
    modifies h1, h1.first, h2, h2.first, Elems(es1), Elems(es2)
    ensures Queue(h1, Joined(es1, es2)) && Queue(h2, [])
  {
    hide Joined;
    if h2.first.link != null {
      h1.last.link := h2.first.link;
      h1.last := h2.last;
      Init(h2);
    }
    ghost var all := Joined(es1, es2);
    forall i | 0 <= i < |all| ensures ElemOk(all, i) {
      if i < |es1| { assert old(ElemOk(es1, i)); } else { assert old(ElemOk(es2, i - |es1|)); }
    }
    assert es2 == [] ==> all == es1;
  }

  /** Two queues without a cell in common. */
  ghost predicate Apart(h1: Head, es1: seq<Cell>, h2: Head, es2: seq<Cell>) {
    && h1 != h2 && h1.first != h2.first && h1.first !in es2 && h2.first !in es1
    && forall i, j :: 0 <= i < |es1| && 0 <= j < |es2| ==> es1[i] != es2[j]
  }

  /** STAILQ_REMOVE_AFTER: element k + 1 goes. */
  method RemoveAfter(h: Head, elm: Cell, ghost es: seq<Cell>, ghost k: nat)
    requires Queue(h, es) && k + 1 < |es| && es[k] == elm
    modifies h, elm
    ensures Queue(h, Without(es, k + 1))
  {
    hide Without;
    assert ElemOk(es, k) && ElemOk(es, k + 1);
    elm.link := elm.link.link;
    if elm.link == null { h.last := elm; }
    ghost var all := Without(es, k + 1);
    forall i | 0 <= i < |all| ensures ElemOk(all, i) {
      if i != k { assert old(ElemOk(es, if i < k then i else i + 1)); }
    }
  }

  /** STAILQ_REMOVE_HEAD. */
  method RemoveHead(h: Head, ghost es: seq<Cell>)
    requires Queue(h, es) && es != []
    modifies h, h.first
    ensures Queue(h, Without(es, 0))
  {
    hide Without;
    assert ElemOk(es, 0);
    h.first.link := h.first.link.link;
    if h.first.link == null { h.last := h.first; }
    ghost var all := Without(es, 0);
    forall i | 0 <= i < |all| ensures ElemOk(all, i) { assert old(ElemOk(es, i + 1)); }
  }

  /** STAILQ_REMOVE of element k, found by walking up to the element before it. */
  method Remove(h: Head, elm: Cell, ghost es: seq<Cell>, ghost k: nat)
    requires Queue(h, es) && k < |es| && es[k] == elm
    modifies h, h.first, Elems(es)
    ensures Queue(h, Without(es, k))
  {
    hide Without;
    if h.first.link == elm {
      RemoveHead(h, es);
    } else {
      var curelm := h.first.link;
      ghost var i := 0;
      assert ElemOk(es, 0);
      while curelm.link != elm
        invariant i < k && curelm == es[i] && ElemOk(es, i)
        modifies {}
        decreases k - i
      {
        curelm := curelm.link;
        i := i + 1;
        assert ElemOk(es, i);
      }
      RemoveAfter(h, curelm, es, i);
    }
  }

  /** STAILQ_SWAP. */
  method Swap(h1: Head, h2: Head, ghost es1: seq<Cell>, ghost es2: seq<Cell>)
    requires Queue(h1, es1) && Queue(h2, es2) && Apart(h1, es1, h2, es2)
    modifies h1, h1.first, h2, h2.first
    ensures Queue(h1, es2) && Queue(h2, es1)
  {
    var first, last := h1.first.link, h1.last;
    h1.first.link := h2.first.link;
    h1.last := h2.last;
    h2.first.link := first;
    h2.last := last;
    if h1.first.link == null { h1.last := h1.first; }
    if h2.first.link == null { h2.last := h2.first; }
    forall i | 0 <= i < |es2| ensures ElemOk(es2, i) { assert old(ElemOk(es2, i)); }
    forall i | 0 <= i < |es1| ensures ElemOk(es1, i) { assert old(ElemOk(es1, i)); }
  }

  /** STAILQ_LAST: the cell that the last address lies in. */
  method Last(h: Head, ghost es: seq<Cell>) returns (e: Cell?)
    requires Queue(h, es)
    ensures e == if es == [] then null else es[|es| - 1]
  {
    if h.first.link == null { return null; }
    return h.last;
  }
}
