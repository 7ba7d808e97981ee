/** The lists of rules in xh_core.c: tail queues whose links are part of the rules. */
module XhQueue {
  import opened Tailq

  class RuleQueue<T> {
    const head: Cell
    /** The rule that each link is part of. */
    var rules: map<Cell, T>
    ghost var cells: seq<Cell>

    ghost predicate Valid()
      reads this, head, Elems(cells)
    {
      Queue(head, cells) && forall c <- cells :: c in rules
    }

    /** The rules in the order of their links. */
    ghost function Contents(): (s: seq<T>)
      reads this
      requires forall c <- cells :: c in rules
      ensures |s| == |cells|
    {
      Listed(cells)
    }

    ghost function Listed(s: seq<Cell>): (r: seq<T>)
      reads this
      requires forall c <- s :: c in rules
      ensures |r| == |s| && forall i :: 0 <= i < |s| ==> r[i] == rules[s[i]]
    {
      if s == [] then [] else Listed(s[..|s| - 1]) + [rules[s[|s| - 1]]]
    }

    /** The cells this queue may change: its head, and the links of its rules. */
    ghost function Repr(): set<Cell>
      reads this
    {
      Elems(cells) + {head}
    }

    constructor ()
      ensures Valid() && Contents() == [] && fresh(Repr())
    {
      head := new Cell();
      rules, cells := map[], [];
      new;
      Init(head);
    }

    /** A new rule goes to the tail. */
    method Add(rule: T)
      requires Valid()
      modifies this, Repr()
      ensures Valid() && Contents() == old(Contents()) + [rule]
      ensures fresh(Repr() - old(Repr()))
    {
      hide Queue;
      ghost var before, all := Contents(), cells;
      var elm := new Cell();
      InsertTail(head, elm, all);
      all := all + [elm];
      assert allocated(Elems(all));
      rules := rules[elm := rule];
      cells := all;
      assert Contents() == before + [rule];
    }

    /** TAILQ_FOREACH. */
    method List() returns (s: seq<T>)
      requires Valid()
      ensures s == Contents()
    {
      var links := Foreach(head, cells);
      s := [];
      for i := 0 to |links|
        invariant |s| == i && forall j :: 0 <= j < i ==> s[j] == rules[links[j]]
        modifies {}
      {
        s := s + [rules[links[i]]];
      }
    }

    /** TAILQ_FOREACH_SAFE with TAILQ_REMOVE and free. */
    method Clear()
      requires Valid()
      modifies this, Repr()
      ensures Valid() && Contents() == [] && Repr() <= old(Repr())
    {
      var gone := Sweep(head, cells);
      rules, cells := map[], [];
    }
  }
}
