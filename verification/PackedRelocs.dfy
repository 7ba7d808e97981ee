/** Android's packed relocation sections (APS2) as xh_elf.c reads them. */
module PackedRelocs {
  import opened Bits
  import opened Sleb128
  import opened Wrappers

  /** A relocation entry. Entries without an addend (Rel) have addend 0; words are unsigned. */
  datatype Reloc = Reloc(offset: nat, info: nat, addend: nat)

  // ---- group flags ----

  predicate ByInfo(flags: nat) { flags % 2 == 1 }
  predicate ByDelta(flags: nat) { flags / 2 % 2 == 1 }
  predicate ByAddend(flags: nat) { flags / 4 % 2 == 1 }
  predicate HasAddend(flags: nat) { flags / 8 % 2 == 1 }

  /** The fields of xh_elf_packed_reloc_iterator_t; rest is what the decoder has not read. */
  datatype State = State(rest: seq<byte>, count: nat, groupSize: nat, groupFlags: nat, groupDelta: nat,
                         index: nat, groupIndex: nat, offset: nat, info: nat, addend: nat)

  // ---- what the iterator does, as functions of its state ----

  /** The number at the front of a stream, and what follows it. */
  ghost function Read(w: nat, rest: seq<byte>): Option<(nat, seq<byte>)> {
    match Span(rest)
    case None => None
    case Some(n) => Some((Word(w, Signed(rest[..n])), rest[n..]))
  }

  /** A number that is there only if c. */
  ghost function ReadIf(c: bool, w: nat, rest: seq<byte>, otherwise: nat): Option<(nat, seq<byte>)> {
    if c then Read(w, rest) else Some((otherwise, rest))
  }

  ghost function Start(w: nat, data: seq<byte>): Option<State> {
    match Read(w, data)
    case None => None
    case Some((count, rest)) =>
      match Read(w, rest)
      case None => None
      case Some((offset, rest)) => Some(State(rest, count, 0, 0, 0, 0, 0, offset, 0, 0))
  }

  /** The fields that shape a group: its size, its flags and a shared distance. */
  ghost function GroupShape(w: nat, s: State): Option<State> {
    match Read(w, s.rest) case None => None case Some((size, rest)) =>
    match Read(w, rest) case None => None case Some((flags, rest)) =>
    match ReadIf(ByDelta(flags), w, rest, s.groupDelta) case None => None case Some((delta, rest)) =>
    Some(s.(rest := rest, groupSize := size, groupFlags := flags, groupDelta := delta))
  }

  /** What the entries of a group share besides: info and addend. */
  ghost function GroupShared(w: nat, rela: bool, s: State): Option<State> {
    var f := s.groupFlags;
    match ReadIf(ByInfo(f), w, s.rest, s.info) case None => None case Some((info, rest)) =>
    var one := HasAddend(f) && ByAddend(f);
    if one && !rela then None else
    match ReadIf(one, w, rest, 0) case None => None case Some((more, rest)) =>
    Some(s.(rest := rest, info := info, groupIndex := 0,
            addend := if one then Word(w, s.addend + more) else if HasAddend(f) then s.addend else 0))
  }

  ghost function GroupHeader(w: nat, rela: bool, s: State): Option<State> {
    match GroupShape(w, s) case None => None case Some(t) => GroupShared(w, rela, t)
  }

  ghost function Entry(w: nat, rela: bool, s: State): Option<State> {
    var f := s.groupFlags;
    match ReadIf(!ByDelta(f), w, s.rest, s.groupDelta) case None => None case Some((ahead, rest)) =>
    match ReadIf(!ByInfo(f), w, rest, s.info) case None => None case Some((info, rest)) =>
    var each := rela && HasAddend(f) && !ByAddend(f);
    match ReadIf(each, w, rest, 0) case None => None case Some((more, rest)) =>
    Some(s.(rest := rest, offset := Word(w, s.offset + ahead), info := info,
            addend := if each then Word(w, s.addend + more) else s.addend,
            index := s.index + 1, groupIndex := s.groupIndex + 1))
  }

  ghost function Step(w: nat, rela: bool, s: State): Option<State> {
    if s.index >= s.count then None
    else if s.groupIndex == s.groupSize then
      match GroupHeader(w, rela, s) case None => None case Some(s) => Entry(w, rela, s)
    else Entry(w, rela, s)
  }

  /** The entry an iterator in state s has just produced. */
  function Current(rela: bool, s: State): Reloc {
    Reloc(s.offset, s.info, if rela then s.addend else 0)
  }

  lemma StepCounts(w: nat, rela: bool, s: State)
    ensures var t := Step(w, rela, s); t.Some? ==> t.value.index == s.index + 1 && t.value.count == s.count
  {
    hide Read;
  }

  /** All entries still to come, and the bytes left unread after them. */
  ghost function Drain(w: nat, rela: bool, s: State): (seq<Reloc>, seq<byte>)
    decreases s.count - s.index
  {
    match Step(w, rela, s)
    case None => ([], s.rest)
    case Some(t) =>
      StepCounts(w, rela, s);
      var (rs, rest) := Drain(w, rela, t);
      ([Current(rela, t)] + rs, rest)
  }

  // ---- the inverse: packing ----

  /** A group of relocations that share what its flags say. */
  datatype Group = Group(flags: nat, relocs: seq<Reloc>)

  /** The word x as the signed number that is written for it. */
  function Num(w: nat, x: int): (s: seq<byte>)
    requires w > 0
  {
    Encode(SignedWord(w, x))
  }

  /** The low w bits of x as a signed number. */
  function SignedWord(w: nat, x: int): int
    requires w > 0
  {
    var u := Word(w, x);
    if u < Pow2(w - 1) then u else u - Pow2(w)
  }

  lemma SignedWordFits(w: nat, x: int)
    requires w > 0
    ensures Word(w, SignedWord(w, x)) == Word(w, x)
    ensures -Pow2(w - 1) <= SignedWord(w, x) < Pow2(w - 1)
  {
    hide Word, Pow2;
    var u := Word(w, x);
    Pow2Add(w - 1, 1);
    PowOne();
    WordSmall(w, u);
    WordTurn(w, u, -1);
  }

  function NumIf(c: bool, w: nat, x: int): seq<byte>
    requires w > 0
  {
    if c then Num(w, x) else []
  }

  /** The entries rs of a group, after one at offset with addend. */
  function PackEntries(w: nat, rela: bool, flags: nat, offset: nat, addend: nat, rs: seq<Reloc>): seq<byte>
    requires w > 0
    decreases rs
  {
    if rs == [] then []
    else
      NumIf(!ByDelta(flags), w, rs[0].offset - offset) + (
        NumIf(!ByInfo(flags), w, rs[0].info) + (
          NumIf(rela && HasAddend(flags) && !ByAddend(flags), w, rs[0].addend - addend) +
          PackEntries(w, rela, flags, rs[0].offset, rs[0].addend, rs[1..])))
  }

  function PackGroups(w: nat, rela: bool, offset: nat, addend: nat, gs: seq<Group>): seq<byte>
    requires w > 0 && forall g <- gs :: g.relocs != []
    decreases gs
  {
    if gs == [] then []
    else
      var Group(flags, rs) := gs[0];
      Num(w, |rs|) + (
        Num(w, flags) + (
          NumIf(ByDelta(flags), w, rs[0].offset - offset) + (
            NumIf(ByInfo(flags), w, rs[0].info) + (
              NumIf(HasAddend(flags) && ByAddend(flags), w, rs[0].addend - addend) + (
                PackEntries(w, rela, flags, offset, GroupAddend(rela, flags, addend, rs[0]), rs) +
                PackGroups(w, rela, rs[|rs| - 1].offset, rs[|rs| - 1].addend, gs[1..]))))))
  }

  function Pack(w: nat, rela: bool, base: nat, gs: seq<Group>): seq<byte>
    requires w > 0 && forall g <- gs :: g.relocs != []
  {
    Num(w, |Flatten(gs)|) + (Num(w, base) + PackGroups(w, rela, base, 0, gs))
  }

  function Flatten(gs: seq<Group>): seq<Reloc> {
    if gs == [] then [] else gs[0].relocs + Flatten(gs[1..])
  }

  /** The addend in force once the group's header has been read. */
  function GroupAddend(rela: bool, flags: nat, addend: nat, first: Reloc): nat {
    if !HasAddend(flags) then 0 else if ByAddend(flags) then first.addend else addend
  }

  /** rs may follow an entry at offset with info and addend in a group of these flags. */
  ghost predicate Follows(w: nat, rela: bool, flags: nat, delta: nat, offset: nat, info: nat, addend: nat, rs: seq<Reloc>)
    decreases rs
  {
    rs != [] ==>
      && rs[0].offset < Pow2(w) && rs[0].info < Pow2(w) && rs[0].addend < Pow2(w)
      && (ByDelta(flags) ==> rs[0].offset == Word(w, offset + delta))
      && (ByInfo(flags) ==> rs[0].info == info)
      && (!rela || !HasAddend(flags) || ByAddend(flags) ==> rs[0].addend == addend)
      && Follows(w, rela, flags, delta, rs[0].offset, rs[0].info, rs[0].addend, rs[1..])
  }

  /** The groups are not empty and share what their flags promise. */
  ghost predicate Packable(w: nat, rela: bool, offset: nat, addend: nat, gs: seq<Group>)
    decreases gs
  {
    gs != [] ==>
      var Group(flags, rs) := gs[0];
      && rs != [] && |rs| < Pow2(w) && flags < Pow2(w)
      && (HasAddend(flags) && ByAddend(flags) ==> rela)
      && Follows(w, rela, flags, Word(w, rs[0].offset - offset), offset, rs[0].info, GroupAddend(rela, flags, addend, rs[0]), rs)
      && Packable(w, rela, rs[|rs| - 1].offset, rs[|rs| - 1].addend, gs[1..])
  }

  // ---- packing and draining give the relocations back ----

  lemma ReadNum(w: nat, x: int, rest: seq<byte>)
    requires WordSize(w)
    ensures Read(w, Num(w, x) + rest) == Some((Word(w, x), rest))
  {
    hide Word, Pow2, Encode, Span, Signed, SignedWord;
    var v := SignedWord(w, x);
    SignedWordFits(w, x);
    EncodeSpan(v, rest);
    EncodeSigned(v);
    assert (Encode(v) + rest)[..|Encode(v)|] == Encode(v);
    assert (Encode(v) + rest)[|Encode(v)|..] == rest;
  }

  lemma PowOne()
    ensures Pow2(1) == 2
  {}

  lemma ReadNumIf(c: bool, w: nat, x: int, rest: seq<byte>, otherwise: nat)
    requires WordSize(w)
    ensures ReadIf(c, w, NumIf(c, w, x) + rest, otherwise) == Some((if c then Word(w, x) else otherwise, rest))
  {
    hide Word, Read, Num;
    if c { ReadNum(w, x, rest); } else { assert [] + rest == rest; }
  }

  /** Adding the difference modulo the word size restores the word. */
  lemma Restored(w: nat, a: nat, b: nat)
    requires b < Pow2(w)
    ensures Word(w, a + Word(w, b - a)) == b
  {
    hide Word, Pow2;
    WordAdd(w, b - a, a);
    WordSmall(w, b);
  }

  lemma EntryBack(w: nat, rela: bool, s: State, rs: seq<Reloc>, tail: seq<byte>)
    requires WordSize(w) && rs != []
    requires Follows(w, rela, s.groupFlags, s.groupDelta, s.offset, s.info, s.addend, rs)
    requires s.rest == PackEntries(w, rela, s.groupFlags, s.offset, s.addend, rs) + tail
    ensures Entry(w, rela, s) == Some(s.(
      rest := PackEntries(w, rela, s.groupFlags, rs[0].offset, rs[0].addend, rs[1..]) + tail,
      offset := rs[0].offset, info := rs[0].info, addend := rs[0].addend,
      index := s.index + 1, groupIndex := s.groupIndex + 1))
  {
    hide Word, Pow2, Read, ReadIf, Num, NumIf;
    var f, r := s.groupFlags, rs[0];
    var each := rela && HasAddend(f) && !ByAddend(f);
    var r3 := PackEntries(w, rela, f, r.offset, r.addend, rs[1..]) + tail;
    var r2 := NumIf(each, w, r.addend - s.addend) + r3;
    var r1 := NumIf(!ByInfo(f), w, r.info) + r2;
    assert s.rest == NumIf(!ByDelta(f), w, r.offset - s.offset) + r1;
    ReadNumIf(!ByDelta(f), w, r.offset - s.offset, r1, s.groupDelta);
    ReadNumIf(!ByInfo(f), w, r.info, r2, s.info);
    ReadNumIf(each, w, r.addend - s.addend, r3, 0);
    Restored(w, s.offset, r.offset);
    Restored(w, s.addend, r.addend);
    WordSmall(w, r.info);
  }

  lemma ShapeBack(w: nat, s: State, size: nat, flags: nat, delta: int, more: seq<byte>)
    requires WordSize(w) && size < Pow2(w) && flags < Pow2(w)
    requires s.rest == Num(w, size) + (Num(w, flags) + (NumIf(ByDelta(flags), w, delta) + more))
    ensures GroupShape(w, s) == Some(s.(rest := more, groupSize := size, groupFlags := flags,
                                        groupDelta := if ByDelta(flags) then Word(w, delta) else s.groupDelta))
  {
    hide Word, Pow2, Read, ReadIf, Num, NumIf, ByDelta;
    var r2 := NumIf(ByDelta(flags), w, delta) + more;
    ReadNum(w, size, Num(w, flags) + r2);
    ReadNum(w, flags, r2);
    ReadNumIf(ByDelta(flags), w, delta, more, s.groupDelta);
    WordSmall(w, size);
    WordSmall(w, flags);
  }

  lemma SharedBack(w: nat, rela: bool, s: State, info: nat, addend: nat, more: seq<byte>)
    requires WordSize(w) && info < Pow2(w) && addend < Pow2(w)
    requires HasAddend(s.groupFlags) && ByAddend(s.groupFlags) ==> rela
    requires s.rest == NumIf(ByInfo(s.groupFlags), w, info) +
      (NumIf(HasAddend(s.groupFlags) && ByAddend(s.groupFlags), w, addend - s.addend) + more)
    ensures var f := s.groupFlags;
      GroupShared(w, rela, s) == Some(s.(rest := more, info := if ByInfo(f) then info else s.info, groupIndex := 0,
        addend := if !HasAddend(f) then 0 else if ByAddend(f) then addend else s.addend))
  {
    hide Word, Pow2, Read, ReadIf, Num, NumIf, ByInfo, HasAddend, ByAddend;
    var f := s.groupFlags;
    var one := HasAddend(f) && ByAddend(f);
    var r := NumIf(one, w, addend - s.addend) + more;
    ReadNumIf(ByInfo(f), w, info, r, s.info);
    ReadNumIf(one, w, addend - s.addend, more, 0);
    WordSmall(w, info);
    Restored(w, s.addend, addend);
  }

  lemma HeaderBack(w: nat, rela: bool, s: State, gs: seq<Group>)
    requires WordSize(w) && gs != [] && (forall g <- gs :: g.relocs != [])
    requires Packable(w, rela, s.offset, s.addend, gs)
    requires s.rest == PackGroups(w, rela, s.offset, s.addend, gs)
    ensures var Group(flags, rs) := gs[0];
      var t := GroupHeader(w, rela, s);
      && t.Some? && t.value.rest == PackEntries(w, rela, flags, s.offset, GroupAddend(rela, flags, s.addend, rs[0]), rs)
                   + PackGroups(w, rela, rs[|rs| - 1].offset, rs[|rs| - 1].addend, gs[1..])
      && t.value.groupFlags == flags && t.value.groupSize == |rs| && t.value.groupIndex == 0
      && t.value.count == s.count && t.value.index == s.index
      && t.value.offset == s.offset && t.value.addend == GroupAddend(rela, flags, s.addend, rs[0])
      && (ByDelta(flags) ==> t.value.groupDelta == Word(w, rs[0].offset - s.offset))
      && (ByInfo(flags) ==> t.value.info == rs[0].info)
  {
    hide Word, Pow2, Read, ReadIf, Num, NumIf, PackEntries, GroupShape, GroupShared, ByInfo, ByDelta, HasAddend, ByAddend;
    var Group(f, rs) := gs[0];
    var one := HasAddend(f) && ByAddend(f);
    var r5 := PackEntries(w, rela, f, s.offset, GroupAddend(rela, f, s.addend, rs[0]), rs)
      + PackGroups(w, rela, rs[|rs| - 1].offset, rs[|rs| - 1].addend, gs[1..]);
    var r3 := NumIf(ByInfo(f), w, rs[0].info) + (NumIf(one, w, rs[0].addend - s.addend) + r5);
    ShapeBack(w, s, |rs|, f, rs[0].offset - s.offset, r3);
    SharedBack(w, rela, GroupShape(w, s).value, rs[0].info, rs[0].addend, r5);
  }

  /** An iterator with rs left of its group and the groups gs after it. */
  ghost predicate At(w: nat, rela: bool, s: State, rs: seq<Reloc>, gs: seq<Group>)
    requires w > 0
  {
    var end := if rs == [] then s else s.(offset := rs[|rs| - 1].offset, addend := rs[|rs| - 1].addend);
    && (!rela ==> s.addend == 0)
    && (forall g <- gs :: g.relocs != [])
    && Follows(w, rela, s.groupFlags, s.groupDelta, s.offset, s.info, s.addend, rs)
    && Packable(w, rela, end.offset, end.addend, gs)
    && s.rest == PackEntries(w, rela, s.groupFlags, s.offset, s.addend, rs) + PackGroups(w, rela, end.offset, end.addend, gs)
    && s.index + |rs| + |Flatten(gs)| == s.count
    && s.groupIndex + |rs| == s.groupSize
  }

  lemma EntryStays(w: nat, rela: bool, s: State, rs: seq<Reloc>, gs: seq<Group>)
    requires WordSize(w) && rs != [] && At(w, rela, s, rs, gs)
    ensures var t := Entry(w, rela, s);
      t.Some? && At(w, rela, t.value, rs[1..], gs) && Current(rela, t.value) == rs[0]
      && t.value.index == s.index + 1 && t.value.count == s.count
  {
    hide PackEntries, PackGroups, Entry, Packable, Flatten;
    var last := rs[|rs| - 1];
    EntryBack(w, rela, s, rs, PackGroups(w, rela, last.offset, last.addend, gs));
    assert rs[1..] != [] ==> rs[1..][|rs[1..]| - 1] == last;
  }

  lemma HeaderStays(w: nat, rela: bool, s: State, gs: seq<Group>)
    requires WordSize(w) && gs != [] && At(w, rela, s, [], gs)
    ensures var t := GroupHeader(w, rela, s);
      t.Some? && At(w, rela, t.value, gs[0].relocs, gs[1..])
      && t.value.index == s.index < s.count == t.value.count
      && t.value.groupIndex != t.value.groupSize && s.groupIndex == s.groupSize
  {
    hide PackEntries, PackGroups, GroupHeader, Word;
    assert s.rest == PackGroups(w, rela, s.offset, s.addend, gs) by {
      NoEntries(w, rela, s.groupFlags, s.offset, s.addend);
    }
    HeaderBack(w, rela, s, gs);
    Relabel(w, rela, gs[0].flags, s.offset, GroupHeader(w, rela, s).value, gs[0].relocs);
  }

  lemma NoEntries(w: nat, rela: bool, flags: nat, offset: nat, addend: nat)
    requires w > 0
    ensures PackEntries(w, rela, flags, offset, addend, []) == []
  {}

  lemma Relabel(w: nat, rela: bool, flags: nat, offset: nat, t: State, rs: seq<Reloc>)
    requires rs != [] && Follows(w, rela, flags, Word(w, rs[0].offset - offset), offset, rs[0].info, t.addend, rs)
    requires ByDelta(flags) ==> t.groupDelta == Word(w, rs[0].offset - offset)
    requires ByInfo(flags) ==> t.info == rs[0].info
    ensures Follows(w, rela, flags, t.groupDelta, offset, t.info, t.addend, rs)
  {
    hide Word, Pow2;
    FollowsAny(w, rela, flags, Word(w, rs[0].offset - offset), t.groupDelta, offset, rs[0].info, t.info, t.addend, rs);
  }

  /** A delta or an info that the flags do not share does not matter. */
  lemma {:induction false} FollowsAny(w: nat, rela: bool, flags: nat, delta: nat, delta': nat, offset: nat, info: nat, info': nat, addend: nat, rs: seq<Reloc>)
    requires Follows(w, rela, flags, delta, offset, info, addend, rs)
    requires ByDelta(flags) ==> delta == delta'
    requires ByInfo(flags) ==> info == info'
    ensures Follows(w, rela, flags, delta', offset, info', addend, rs)
    decreases rs
  {
    hide Word, Pow2;
    if rs != [] {
      FollowsAny(w, rela, flags, delta, delta', rs[0].offset, rs[0].info, rs[0].info, rs[0].addend, rs[1..]);
    }
  }

  lemma {:induction false} Drained(w: nat, rela: bool, s: State, rs: seq<Reloc>, gs: seq<Group>)
    requires WordSize(w) && At(w, rela, s, rs, gs)
    ensures Drain(w, rela, s) == (rs + Flatten(gs), [])
    decreases |gs|, |rs|
  {
    hide At, Entry, GroupHeader, Current;
    if rs == [] && gs == [] {
      NothingLeft(w, rela, s);
      assert Step(w, rela, s) == None;
      assert rs + Flatten(gs) == [];
    } else if rs == [] {
      HeaderStays(w, rela, s, gs);
      var t := GroupHeader(w, rela, s).value;
      var group := gs[0].relocs;
      HasRelocs(w, rela, s, gs);
      EntryStays(w, rela, t, group, gs[1..]);
      Drained(w, rela, Entry(w, rela, t).value, group[1..], gs[1..]);
      assert [group[0]] + (group[1..] + Flatten(gs[1..])) == [] + Flatten(gs);
    } else {
      EntryStays(w, rela, s, rs, gs);
      MoreLeft(w, rela, s, rs, gs);
      Drained(w, rela, Entry(w, rela, s).value, rs[1..], gs);
      assert [rs[0]] + (rs[1..] + Flatten(gs)) == rs + Flatten(gs);
    }
  }

  lemma NothingLeft(w: nat, rela: bool, s: State)
    requires w > 0 && At(w, rela, s, [], [])
    ensures s.index == s.count && s.rest == []
  {}

  lemma HasRelocs(w: nat, rela: bool, s: State, gs: seq<Group>)
    requires w > 0 && gs != [] && At(w, rela, s, [], gs)
    ensures gs[0].relocs != []
  {}

  lemma MoreLeft(w: nat, rela: bool, s: State, rs: seq<Reloc>, gs: seq<Group>)
    requires w > 0 && rs != [] && At(w, rela, s, rs, gs)
    ensures s.index < s.count && s.groupIndex != s.groupSize
  {}

  /** Packing groups and draining an iterator over the bytes gives the relocations back, in order,
      and uses up the bytes. */
  lemma RoundTrip(w: nat, rela: bool, base: nat, gs: seq<Group>)
    requires WordSize(w) && base < Pow2(w) && |Flatten(gs)| < Pow2(w)
    requires (forall g <- gs :: g.relocs != []) && Packable(w, rela, base, 0, gs)
    ensures var s := Start(w, Pack(w, rela, base, gs));
      s.Some? && Drain(w, rela, s.value) == (Flatten(gs), [])
  {
    hide Word, Pow2, Read, Num, PackEntries, PackGroups, Packable, Flatten, Drain;
    var tail := PackGroups(w, rela, base, 0, gs);
    ReadNum(w, |Flatten(gs)|, Num(w, base) + tail);
    ReadNum(w, base, tail);
    WordSmall(w, |Flatten(gs)|);
    WordSmall(w, base);
    var s := Start(w, Pack(w, rela, base, gs)).value;
    NoEntries(w, rela, 0, base, 0);
    assert [] + tail == tail;
    Drained(w, rela, s, [], gs);
    assert [] + Flatten(gs) == Flatten(gs);
  }

  /** Every list of relocations can be packed, whatever the first offset is said to be: as one
      group that shares nothing. */
  lemma EverythingPacks(w: nat, rela: bool, base: nat, rs: seq<Reloc>)
    requires WordSize(w) && rs != [] && |rs| < Pow2(w)
    requires forall r <- rs :: r.offset < Pow2(w) && r.info < Pow2(w) && r.addend < Pow2(w) && (!rela ==> r.addend == 0)
    ensures var gs := [Group(if rela then 8 else 0, rs)]; Packable(w, rela, base, 0, gs) && Flatten(gs) == rs
  {
    hide Pow2, Word;
    var flags := if rela then 8 else 0;
    FollowsFreely(w, rela, flags, Word(w, rs[0].offset - base), base, rs[0].info, 0, rs);
    var gs := [Group(flags, rs)];
    assert gs[1..] == [] && rs + Flatten([]) == rs;
    assert 8 < Pow2(w) by { Pow2Mono(4, w); Sixteen(); }
  }

  lemma Sixteen()
    ensures Pow2(4) == 16
  {}

  lemma {:induction false} FollowsFreely(w: nat, rela: bool, flags: nat, delta: nat, offset: nat, info: nat, addend: nat, rs: seq<Reloc>)
    requires flags == (if rela then 8 else 0) && (!rela ==> addend == 0)
    requires forall r <- rs :: r.offset < Pow2(w) && r.info < Pow2(w) && r.addend < Pow2(w) && (!rela ==> r.addend == 0)
    ensures Follows(w, rela, flags, delta, offset, info, addend, rs)
    decreases rs
  {
    hide Pow2, Word;
    if rs != [] {
      assert rs[0] in rs && forall r <- rs[1..] :: r in rs;
      FollowsFreely(w, rela, flags, delta, rs[0].offset, rs[0].info, rs[0].addend, rs[1..]);
    }
  }

  // ---- the iterator itself ----

  /** The number at the front, if it ends, is short enough for the word. */
  ghost predicate Short(w: nat, s: seq<byte>) {
    Span(s).Some? ==> Span(s).value <= MaxBytes(w)
  }

  lemma TerseShort(w: nat, s: seq<byte>)
    ensures Terse(w, s) ==> Short(w, s)
  {
    assert s == [] ==> Span(s).None?;
  }

  /** How many entries a section announces. */
  ghost function Announced(w: nat, data: seq<byte>): nat {
    match Read(w, data) case None => 0 case Some((n, _)) => n
  }

  /** No number in s, wherever reading starts, is longer than the decoder's word allows. */
  ghost predicate Terse(w: nat, s: seq<byte>) {
    s != [] ==> (Span(s).Some? ==> Span(s).value <= MaxBytes(w)) && Terse(w, s[1..])
  }

  lemma {:induction false} TerseAfter(w: nat, s: seq<byte>, k: nat)
    requires Terse(w, s) && k <= |s|
    ensures Terse(w, s[k..])
    decreases k
  {
    if k == 0 { assert s[0..] == s; } else {
      TerseAfter(w, s[1..], k - 1);
      assert s[1..][k - 1..] == s[k..];
    }
  }

  lemma TerseRead(w: nat, s: seq<byte>)
    requires Terse(w, s) && Read(w, s).Some?
    ensures Terse(w, Read(w, s).value.1)
  {
    hide Word, Signed;
    TerseAfter(w, s, Span(s).value);
  }

  /** xh_elf_packed_reloc_iterator_t. */
  class Iterator {
    const w: nat
    const rela: bool
    const decoder: Decoder
    var count: nat
    var groupSize: nat
    var groupFlags: nat
    var groupDelta: nat
    var index: nat
    var groupIndex: nat
    var offset: nat
    var info: nat
    var addend: nat

    ghost predicate Valid()
      reads this, decoder
    {
      WordSize(w) && decoder.w == w && decoder.cur <= |decoder.data| && index <= count < Pow2(w)
    }

    lemma Bounds()
      requires Valid()
      ensures WordSize(w) && index <= count < Pow2(w) && decoder.cur <= |decoder.data|
    {}

    ghost function Rest(): seq<byte>
      reads decoder
      requires decoder.cur <= |decoder.data|
    {
      decoder.data[decoder.cur..]
    }

    ghost function Now(): State
      reads this, decoder
      requires decoder.cur <= |decoder.data|
    {
      State(Rest(), count, groupSize, groupFlags, groupDelta, index, groupIndex, offset, info, addend)
    }

    constructor (w: nat, data: seq<byte>, rela: bool)
      requires WordSize(w)
      ensures Valid() && fresh(this) && fresh(decoder) && this.w == w && this.rela == rela
      ensures decoder.data == data && Now() == State(data, 0, 0, 0, 0, 0, 0, 0, 0, 0)
    {
      this.w, this.rela := w, rela;
      decoder := new Decoder(w, data);
      count, groupSize, groupFlags, groupDelta := 0, 0, 0, 0;
      index, groupIndex, offset, info, addend := 0, 0, 0, 0, 0;
    }

    /** One number; its value is known when it is short enough for the word. */
    method Number() returns (ret: Option<nat>)
      requires Valid()
      modifies decoder
      ensures Valid() && old(decoder.cur) <= decoder.cur
      ensures ret.Some? ==> ret.value < Pow2(w)
      ensures Terse(w, old(Rest())) ==>
        (match Read(w, old(Rest()))
         case None => ret.None?
         case Some((v, rest)) => ret == Some(v) && Rest() == rest && Terse(w, rest))
      ensures ret.None? ==> Rest() == [] && Terse(w, Rest())
      ensures Short(w, old(Rest())) ==>
        (match Read(w, old(Rest())) case None => ret.None? case Some((v, rest)) => ret == Some(v) && Rest() == rest)
    {
      hide Word, Signed, Span, Terse;
      TerseShort(w, Rest());
      NoBytes(w);
      ghost var before := Rest();
      ret := decoder.Next();
      if ret.Some? {
        ghost var n := Span(before).value;
        assert decoder.data[old(decoder.cur)..decoder.cur] == before[..n];
        assert Rest() == before[n..];
        if Terse(w, before) { TerseRead(w, before); }
      }
    }

    /** A number that is there only if c. */
    method NumberIf(c: bool, otherwise: nat) returns (ret: Option<nat>)
      requires Valid()
      modifies decoder
      ensures Valid() && old(decoder.cur) <= decoder.cur
      ensures Terse(w, old(Rest())) ==> Terse(w, Rest())
      ensures Terse(w, old(Rest())) ==>
        (match ReadIf(c, w, old(Rest()), otherwise)
         case None => ret.None?
         case Some((v, rest)) => ret == Some(v) && Rest() == rest)
    {
      hide Read, Terse, Pow2;
      if c { ret := Number(); } else { ret := Some(otherwise); }
    }

    /** xh_elf_packed_reloc_iterator_init, once the constructor has cleared the fields. */
    method Init() returns (ok: bool)
      requires Valid() && Now() == State(Rest(), 0, 0, 0, 0, 0, 0, 0, 0, 0)
      modifies this, decoder
      ensures Valid() && index == 0
      ensures Terse(w, old(Rest())) ==> Terse(w, Rest())
      ensures Terse(w, old(Rest())) ==>
        (match Start(w, old(Rest())) case None => !ok case Some(t) => ok && Now() == t)
      ensures !ok ==> Rest() == [] && groupIndex == groupSize
      ensures Short(w, old(Rest())) ==> count == Announced(w, old(Rest()))
    {
      hide Read, Terse, Pow2, Short;
      var n := Number();
      if n.None? { return false; }
      count := n.value;
      n := Number();
      if n.None? { return false; }
      offset := n.value;
      return true;
    }

    /** xh_elf_packed_reloc_iterator_read_group_fields. */
    method ReadGroupFields() returns (ok: bool)
      requires Valid()
      modifies this, decoder
      ensures Valid() && count == old(count) && index == old(index)
      ensures old(decoder.cur) <= decoder.cur
      ensures Terse(w, old(Rest())) ==> Terse(w, Rest())
      ensures Terse(w, old(Rest())) ==>
        (match GroupHeader(w, rela, old(Now())) case None => !ok case Some(t) => ok && Now() == t)
    {
      hide Terse, Pow2, GroupShape, GroupShared;
      ok := ReadShape();
      if ok { ok := ReadShared(); }
    }

    method ReadShape() returns (ok: bool)
      requires Valid()
      modifies this, decoder
      ensures Valid() && count == old(count) && index == old(index)
      ensures old(decoder.cur) <= decoder.cur
      ensures Terse(w, old(Rest())) ==> Terse(w, Rest())
      ensures Terse(w, old(Rest())) ==>
        (match GroupShape(w, old(Now())) case None => !ok case Some(t) => ok && Now() == t)
    {
      hide Read, ReadIf, Terse, Pow2, ByDelta;
      var n := Number();
      if n.None? { return false; }
      groupSize := n.value;
      n := Number();
      if n.None? { return false; }
      groupFlags := n.value;
      n := NumberIf(ByDelta(groupFlags), groupDelta);
      if n.None? { return false; }
      groupDelta := n.value;
      return true;
    }

    method ReadShared() returns (ok: bool)
      requires Valid()
      modifies this, decoder
      ensures Valid() && count == old(count) && index == old(index)
      ensures old(decoder.cur) <= decoder.cur
      ensures Terse(w, old(Rest())) ==> Terse(w, Rest())
      ensures Terse(w, old(Rest())) ==>
        (match GroupShared(w, rela, old(Now())) case None => !ok case Some(t) => ok && Now() == t)
    {
      hide Read, ReadIf, Terse, Pow2, Word, ByInfo, ByAddend, HasAddend;
      var n := NumberIf(ByInfo(groupFlags), info);
      if n.None? { return false; }
      info := n.value;
      var one := HasAddend(groupFlags) && ByAddend(groupFlags);
      if one && !rela { return false; }
      n := NumberIf(one, 0);
      if n.None? { return false; }
      if one {
        addend := Word(w, addend + n.value);
      } else if !HasAddend(groupFlags) {
        addend := 0;
      }
      groupIndex := 0;
      return true;
    }

    /** The part of xh_elf_packed_reloc_iterator_next after the group's header. */
    method ReadEntry() returns (ok: bool)
      requires Valid() && index < count
      modifies this, decoder
      ensures Valid() && count == old(count) && index == old(index) + if ok then 1 else 0
      ensures old(decoder.cur) <= decoder.cur
      ensures Terse(w, old(Rest())) ==> Terse(w, Rest())
      ensures Terse(w, old(Rest())) ==>
        (match Entry(w, rela, old(Now())) case None => !ok case Some(t) => ok && Now() == t)
    {
      hide Read, ReadIf, Terse, Pow2, Word, ByInfo, ByDelta, ByAddend, HasAddend;
      var n := NumberIf(!ByDelta(groupFlags), groupDelta);
      if n.None? { return false; }
      offset := Word(w, offset + n.value);
      n := NumberIf(!ByInfo(groupFlags), info);
      if n.None? { return false; }
      info := n.value;
      var each := rela && HasAddend(groupFlags) && !ByAddend(groupFlags);
      n := NumberIf(each, 0);
      if n.None? { return false; }
      if each { addend := Word(w, addend + n.value); }
      index := index + 1;
      groupIndex := groupIndex + 1;
      return true;
    }

    /** xh_elf_packed_reloc_iterator_next: at most count entries, never reading past the end,
        whatever the bytes; the entries of Step when no number is too long. */
    method Next() returns (ret: Option<Reloc>)
      requires Valid()
      modifies this, decoder
      ensures Valid() && count == old(count) && index == old(index) + if ret.Some? then 1 else 0
      ensures old(decoder.cur) <= decoder.cur
      ensures Terse(w, old(Rest())) ==> Terse(w, Rest())
      ensures Terse(w, old(Rest())) ==>
        (match Step(w, rela, old(Now())) case None => ret.None? case Some(t) => ret == Some(Current(rela, t)) && Now() == t)
    {
      hide Read, Terse, Pow2, Word, GroupHeader, Entry;
      if index >= count { return None; }
      if groupIndex == groupSize {
        var ok := ReadGroupFields();
        if !ok { return None; }
      }
      var ok := ReadEntry();
      if !ok { return None; }
      return Some(Reloc(offset, info, if rela then addend else 0));
    }
  }

  /** How xh_elf_hook runs an iterator over a section: what Init says is not looked at. */
  method Listed(w: nat, data: seq<byte>, rela: bool) returns (out: seq<Reloc>)
    requires WordSize(w)
    ensures |out| < Pow2(w) && (Short(w, data) ==> |out| <= Announced(w, data))
    ensures Terse(w, data) ==> out == Listing(w, rela, data)
  {
    hide *;
    ghost var terse, all := Terse(w, data), Listing(w, rela, data);
    var it := Opened(w, data, rela);
    out := [];
    ghost var left := Drain(w, rela, it.Now()).0;
    while true
      invariant it.Valid() && |out| == it.index && it.w == w && it.rela == rela
      invariant it.decoder.cur <= |it.decoder.data|
      invariant terse ==> Terse(w, it.Rest()) && left == Drain(w, rela, it.Now()).0 && all == out + left
      invariant it.index <= it.count < Pow2(w) && (Short(w, data) ==> it.count == Announced(w, data))
      decreases it.count - it.index
    {
      DrainStep(w, rela, it.Now());
      var r := it.Next();
      it.Bounds();
      if r.None? { break; }
      ghost var before := left;
      left := Drain(w, rela, it.Now()).0;
      if terse { MoveOne(all, out, before, r.value, left); }
      out := out + [r.value];
    }
  }

  method Opened(w: nat, data: seq<byte>, rela: bool) returns (it: Iterator)
    requires WordSize(w)
    ensures it.Valid() && fresh(it) && fresh(it.decoder) && it.w == w && it.rela == rela
    ensures it.index == 0 <= it.count < Pow2(w)
    ensures it.decoder.cur <= |it.decoder.data|
    ensures Terse(w, data) ==> Terse(w, it.Rest()) && Drain(w, rela, it.Now()).0 == Listing(w, rela, data)
    ensures Short(w, data) ==> it.count == Announced(w, data)
  {
    hide Terse, Pow2, Start, Drain, Listing, Short, Announced;
    it := new Iterator(w, data, rela);
    var ok := it.Init();
    InitLists(w, rela, data, ok, it.Now());
  }

  lemma MoveOne(all: seq<Reloc>, out: seq<Reloc>, before: seq<Reloc>, r: Reloc, left: seq<Reloc>)
    requires all == out + before && before == [r] + left
    ensures all == (out + [r]) + left
  {}

  /** What a section lists. */
  ghost function Listing(w: nat, rela: bool, data: seq<byte>): seq<Reloc> {
    match Start(w, data) case None => [] case Some(s) => Drain(w, rela, s).0
  }

  lemma InitLists(w: nat, rela: bool, data: seq<byte>, ok: bool, s: State)
    requires Terse(w, data) ==> (match Start(w, data) case None => !ok case Some(t) => ok && s == t)
    requires !ok ==> s.rest == [] && s.groupIndex == s.groupSize
    ensures Terse(w, data) ==> Drain(w, rela, s).0 == Listing(w, rela, data)
  {
    hide Start, Terse;
  }

  lemma DrainStep(w: nat, rela: bool, s: State)
    ensures match Step(w, rela, s)
      case None => Drain(w, rela, s).0 == []
      case Some(t) => Drain(w, rela, s).0 == [Current(rela, t)] + Drain(w, rela, t).0
  {
    hide Step;
  }

  // ---- packed sections are terse, so the iterator itself lists what was packed ----

  lemma TerseCons(w: nat, b: byte, s: seq<byte>)
    requires Terse(w, s) && Short(w, [b] + s)
    ensures Terse(w, [b] + s)
  {
    assert ([b] + s)[1..] == s;
  }

  lemma {:induction false} TerseEncode(w: nat, v: int, rest: seq<byte>)
    requires |Encode(v)| <= MaxBytes(w) && Terse(w, rest)
    ensures Terse(w, Encode(v) + rest)
    decreases if v < 0 then -v else v
  {
    hide Terse, Span, MaxBytes;
    var b, high := v % 128, v / 128;
    EncodeSpan(v, rest);
    if high == (if b < 64 then 0 else -1) {
      TerseCons(w, b, rest);
    } else {
      TerseEncode(w, high, rest);
      assert [b + 128] + (Encode(high) + rest) == Encode(v) + rest;
      TerseCons(w, b + 128, Encode(high) + rest);
    }
  }

  lemma TerseNumIf(c: bool, w: nat, x: int, rest: seq<byte>)
    requires WordSize(w) && Terse(w, rest)
    ensures Terse(w, NumIf(c, w, x) + rest)
    ensures Terse(w, Num(w, x) + rest)
  {
    hide Pow2, Word, Encode, Terse, SignedWord;
    SignedWordFits(w, x);
    EncodeFits(w, SignedWord(w, x));
    TerseEncode(w, SignedWord(w, x), rest);
    assert [] + rest == rest;
  }

  lemma {:induction false} TerseEntries(w: nat, rela: bool, flags: nat, offset: nat, addend: nat, rs: seq<Reloc>, rest: seq<byte>)
    requires WordSize(w) && Terse(w, rest)
    ensures Terse(w, PackEntries(w, rela, flags, offset, addend, rs) + rest)
    decreases rs
  {
    hide NumIf, Num, Terse;
    if rs == [] {
      assert [] + rest == rest;
    } else {
      TerseEntries(w, rela, flags, rs[0].offset, rs[0].addend, rs[1..], rest);
      var r3 := PackEntries(w, rela, flags, rs[0].offset, rs[0].addend, rs[1..]) + rest;
      var each := rela && HasAddend(flags) && !ByAddend(flags);
      TerseNumIf(each, w, rs[0].addend - addend, r3);
      var r2 := NumIf(each, w, rs[0].addend - addend) + r3;
      TerseNumIf(!ByInfo(flags), w, rs[0].info, r2);
      var r1 := NumIf(!ByInfo(flags), w, rs[0].info) + r2;
      TerseNumIf(!ByDelta(flags), w, rs[0].offset - offset, r1);
      assert PackEntries(w, rela, flags, offset, addend, rs) + rest == NumIf(!ByDelta(flags), w, rs[0].offset - offset) + r1;
    }
  }

  lemma {:induction false} TerseGroups(w: nat, rela: bool, offset: nat, addend: nat, gs: seq<Group>)
    requires WordSize(w) && forall g <- gs :: g.relocs != []
    ensures Terse(w, PackGroups(w, rela, offset, addend, gs))
    decreases gs
  {
    hide NumIf, Num, Terse, PackEntries;
    if gs == [] {
      assert Terse(w, []) by { NoBytes(w); }
    } else {
      var Group(f, rs) := gs[0];
      var last := rs[|rs| - 1];
      TerseGroups(w, rela, last.offset, last.addend, gs[1..]);
      TerseEntries(w, rela, f, offset, GroupAddend(rela, f, addend, rs[0]), rs, PackGroups(w, rela, last.offset, last.addend, gs[1..]));
      var r5 := PackEntries(w, rela, f, offset, GroupAddend(rela, f, addend, rs[0]), rs)
        + PackGroups(w, rela, last.offset, last.addend, gs[1..]);
      var one := HasAddend(f) && ByAddend(f);
      TerseNumIf(one, w, rs[0].addend - addend, r5);
      var r4 := NumIf(one, w, rs[0].addend - addend) + r5;
      TerseNumIf(ByInfo(f), w, rs[0].info, r4);
      var r3 := NumIf(ByInfo(f), w, rs[0].info) + r4;
      TerseNumIf(ByDelta(f), w, rs[0].offset - offset, r3);
      var r2 := NumIf(ByDelta(f), w, rs[0].offset - offset) + r3;
      TerseNumIf(true, w, f, r2);
      TerseNumIf(true, w, |rs|, Num(w, f) + r2);
    }
  }

  lemma NoBytes(w: nat)
    ensures Terse(w, [])
  {}

  /** The iterator of the source, run over a packed section, lists what was packed. */
  lemma PackedListing(w: nat, rela: bool, base: nat, gs: seq<Group>)
    requires WordSize(w) && base < Pow2(w) && |Flatten(gs)| < Pow2(w)
    requires (forall g <- gs :: g.relocs != []) && Packable(w, rela, base, 0, gs)
    ensures var data := Pack(w, rela, base, gs); Terse(w, data) && Listing(w, rela, data) == Flatten(gs)
  {
    hide Pow2, Num, Terse, PackGroups, Packable, Flatten, Start, Drain;
    RoundTrip(w, rela, base, gs);
    TerseGroups(w, rela, base, 0, gs);
    TerseNumIf(true, w, base, PackGroups(w, rela, base, 0, gs));
    TerseNumIf(true, w, |Flatten(gs)|, Num(w, base) + PackGroups(w, rela, base, 0, gs));
  }

  // ---- what the bytes of a packed section stand for ----

  lemma SmallNum(w: nat, x: nat)
    requires WordSize(w) && x < 64
    ensures Num(w, x) == [x] && Word(w, x) == x < Pow2(w)
  {
    hide Pow2, Word;
    Pow2Mono(6, w - 1);
    Pow2Mono(6, w);
    assert Pow2(6) == 64 by { SixtyFour(); }
    WordSmall(w, x);
  }

  lemma SixtyFour()
    ensures Pow2(6) == 64
  {}

  function If(c: bool, x: byte): seq<byte> {
    if c then [x] else []
  }

  /** A group of one entry. Its size and flags come first. Bit 1 of the flags moves the offset's distance,
      bit 0 the info and, where bit 3 says that there is an addend, bit 2 the addend, from the entry to
      the group. */
  function GroupOfOne(rela: bool, f: byte, d: byte, i: byte, a: byte): seq<byte> {
    var byDelta, byInfo, byAddend, added := f / 2 % 2 == 1, f % 2 == 1, f / 4 % 2 == 1, f / 8 % 2 == 1;
    [1] + ([f] + (If(byDelta, d) + (If(byInfo, i) + (If(added && byAddend, a)
      + (If(!byDelta, d) + (If(!byInfo, i) + If(rela && added && !byAddend, a)))))))
  }

  lemma NumsIf(w: nat, f: byte, d: byte, i: byte, a: byte)
    requires WordSize(w) && d < 64 && i < 64 && a < 64
    ensures forall c :: NumIf(c, w, d) == If(c, d) && NumIf(c, w, i) == If(c, i) && NumIf(c, w, a) == If(c, a)
  {
    SmallNum(w, d);
    SmallNum(w, i);
    SmallNum(w, a);
  }

  lemma OnePacked(w: nat, rela: bool, offset: nat, f: byte, r: Reloc)
    requires WordSize(w) && f < 16 && offset <= r.offset < offset + 64 && r.info < 64 && r.addend < 64
    requires if f / 8 % 2 == 0 then r.addend == 0 else rela
    ensures PackGroups(w, rela, offset, 0, [Group(f, [r])]) == GroupOfOne(rela, f, r.offset - offset, r.info, r.addend)
  {
    hide Pow2, Num, Word, NumIf, If, PackEntries;
    SmallNum(w, 1);
    SmallNum(w, f);
    NumsIf(w, f, r.offset - offset, r.info, r.addend);
    assert [Group(f, [r])][1..] == [];
    assert PackGroups(w, rela, r.offset, r.addend, []) == [];
    var entry := PackEntries(w, rela, f, offset, GroupAddend(rela, f, 0, r), [r]);
    OneEntryPacked(w, rela, offset, f, r);
    assert entry + [] == entry;
  }

  lemma OneEntryPacked(w: nat, rela: bool, offset: nat, f: byte, r: Reloc)
    requires WordSize(w) && f < 16 && offset <= r.offset < offset + 64 && r.info < 64 && r.addend < 64
    requires if f / 8 % 2 == 0 then r.addend == 0 else rela
    ensures PackEntries(w, rela, f, offset, GroupAddend(rela, f, 0, r), [r]) ==
      If(f / 2 % 2 == 0, r.offset - offset) + (If(f % 2 == 0, r.info) + If(rela && f / 8 % 2 == 1 && f / 4 % 2 == 0, r.addend))
  {
    hide Pow2, Num, Word, NumIf, If, GroupAddend;
    NumsIf(w, f, r.offset - offset, r.info, r.addend);
    assert [r][1..] == [];
    AddendIf(w, rela, f, r);
    var last := If(rela && f / 8 % 2 == 1 && f / 4 % 2 == 0, r.addend);
    assert last + [] == last;
    NoEntries(w, rela, f, r.offset, r.addend);
  }

  lemma AddendIf(w: nat, rela: bool, f: byte, r: Reloc)
    requires WordSize(w) && r.addend < 64
    ensures var each := rela && f / 8 % 2 == 1 && f / 4 % 2 == 0;
      NumIf(each, w, r.addend - GroupAddend(rela, f, 0, r)) == If(each, r.addend)
  {
    SmallNum(w, r.addend);
  }

  lemma OnePackable(w: nat, rela: bool, offset: nat, f: byte, r: Reloc)
    requires WordSize(w) && f < 16 && offset <= r.offset < 64 && r.info < 64 && r.addend < 64
    requires if f / 8 % 2 == 0 then r.addend == 0 else rela
    ensures Packable(w, rela, offset, 0, [Group(f, [r])]) && Flatten([Group(f, [r])]) == [r]
  {
    hide Pow2, Word;
    SmallNum(w, 1);
    SmallNum(w, f);
    SmallNum(w, r.offset - offset);
    SmallNum(w, r.offset);
    SmallNum(w, r.info);
    SmallNum(w, r.addend);
    var gs := [Group(f, [r])];
    assert gs[1..] == [] && [r][1..] == [] && Flatten([]) == [] && [r] + [] == [r];
    assert Follows(w, rela, f, Word(w, r.offset - offset), r.offset, r.info, r.addend, []);
    assert Follows(w, rela, f, Word(w, r.offset - offset), offset, r.info, GroupAddend(rela, f, 0, r), [r]);
  }

  /** A section of one group of one entry, the group behind the number of entries and the first offset. */
  lemma OneGroupListed(w: nat, rela: bool, f: byte, d: byte, i: byte, a: byte)
    requires WordSize(w) && f < 16 && d < 48 && i < 64 && a < 64 && (if f / 8 % 2 == 0 then a == 0 else rela)
    ensures Listing(w, rela, [1, 16] + GroupOfOne(rela, f, d, i, a)) == [Reloc(16 + d, i, a)]
  {
    hide Pow2, Num, Word, Terse, Listing, PackGroups, GroupOfOne;
    var r := Reloc(16 + d, i, a);
    var gs := [Group(f, [r])];
    SmallNum(w, 1);
    SmallNum(w, 16);
    OnePackable(w, rela, 16, f, r);
    OnePacked(w, rela, 16, f, r);
    assert Pack(w, rela, 16, gs) == [1, 16] + GroupOfOne(rela, f, d, i, a);
    PackedListing(w, rela, 16, gs);
  }

  /** What is not announced stays: from the entry before, except that a group without addends has addend 0. */
  lemma HeaderKeeps(w: nat, rela: bool, s: State)
    ensures match GroupHeader(w, rela, s) case None => true case Some(t) =>
      && t.offset == s.offset && t.index == s.index && t.count == s.count && t.groupIndex == 0
      && (t.groupFlags / 2 % 2 == 0 ==> t.groupDelta == s.groupDelta)
      && (t.groupFlags % 2 == 0 ==> t.info == s.info)
      && (t.groupFlags / 8 % 2 == 0 ==> t.addend == 0)
      && (t.groupFlags / 8 % 2 == 1 && t.groupFlags / 4 % 2 == 0 ==> t.addend == s.addend)
  {
    hide Read, Word;
  }

  lemma EntryKeeps(w: nat, rela: bool, s: State)
    ensures match Entry(w, rela, s) case None => true case Some(t) =>
      && t.index == s.index + 1 && t.groupIndex == s.groupIndex + 1 && t.count == s.count && t.groupSize == s.groupSize
      && t.groupFlags == s.groupFlags && t.groupDelta == s.groupDelta
      && (s.groupFlags / 2 % 2 == 1 ==> t.offset == (s.offset + s.groupDelta) % Pow2(w))
      && (s.groupFlags % 2 == 1 ==> t.info == s.info)
      && (!rela || s.groupFlags / 8 % 2 == 0 || s.groupFlags / 4 % 2 == 1 ==> t.addend == s.addend)
  {
    hide Read, Word, Pow2;
    WordIsRemainder(w, s.offset + s.groupDelta);
  }

  // ---- a group of size 0 ----

  /** Draining as if the group in force had no end: entries only, no further header. */
  ghost function DrainEntries(w: nat, rela: bool, s: State): (seq<Reloc>, seq<byte>)
    decreases s.count - s.index
  {
    if s.index >= s.count then ([], s.rest)
    else match Entry(w, rela, s)
      case None => ([], s.rest)
      case Some(t) => var (rs, rest) := DrainEntries(w, rela, t); ([Current(rela, t)] + rs, rest)
  }

  /** An iterator past the end of its group never comes back to an end. */
  lemma {:induction false} PastTheEnd(w: nat, rela: bool, s: State)
    requires s.groupIndex > s.groupSize
    ensures Drain(w, rela, s) == DrainEntries(w, rela, s)
    decreases s.count - s.index
  {
    hide Read, ReadIf;
    match Step(w, rela, s)
    case None =>
    case Some(t) => PastTheEnd(w, rela, t);
  }

  /** After the header of an empty group, everything up to the end of the section is taken for entries of
      that group: no further header is ever read. */
  lemma EmptyGroupNeverEnds(w: nat, rela: bool, s: State)
    requires s.index < s.count && s.groupIndex == s.groupSize
    requires var t := GroupHeader(w, rela, s); t.Some? && t.value.groupSize == 0
    ensures Drain(w, rela, s).0 == DrainEntries(w, rela, GroupHeader(w, rela, s).value).0
  {
    hide Read, ReadIf;
    var t := GroupHeader(w, rela, s).value;
    if e: State :| Entry(w, rela, t) == Some(e) {
      PastTheEnd(w, rela, e);
    }
  }

  lemma ReadSmall(w: nat, b: byte, rest: seq<byte>)
    requires WordSize(w) && b < 64
    ensures Read(w, [b] + rest) == Some((b as nat, rest))
  {
    hide Word;
    assert ([b] + rest)[..1] == [b] && ([b] + rest)[1..] == rest;
    assert Groups([b]) == b by { assert [b][1..] == []; }
    assert b < Pow2(6) by { assert Pow2(6) == 64; }
    Pow2Mono(6, w);
    WordSmall(w, b);
  }

  /** One relocation announced, an empty group that shares offset delta 5, then a group of one
      relocation (7, 9): the iterator produces (5, 1) from the second group's size. */
  lemma EmptyGroupMisread()
    ensures Listing(32, false, [1, 0, 0, 2, 5, 1, 0, 7, 9]) == [Reloc(5, 1, 0)]
  {
    hide Read, Word, Pow2;
    ReadSmall(32, 1, [0, 0, 2, 5, 1, 0, 7, 9]);
    ReadSmall(32, 0, [0, 2, 5, 1, 0, 7, 9]);
    ReadSmall(32, 0, [2, 5, 1, 0, 7, 9]);
    ReadSmall(32, 2, [5, 1, 0, 7, 9]);
    ReadSmall(32, 5, [1, 0, 7, 9]);
    ReadSmall(32, 1, [0, 7, 9]);
    assert 5 < Pow2(32) by { Pow2Mono(3, 32); assert Pow2(3) == 8 by { Eight(); } }
    WordSmall(32, 5);
    assert [1] + [0, 0, 2, 5, 1, 0, 7, 9] == [1, 0, 0, 2, 5, 1, 0, 7, 9];
    assert [0] + [0, 2, 5, 1, 0, 7, 9] == [0, 0, 2, 5, 1, 0, 7, 9];
    assert [0] + [2, 5, 1, 0, 7, 9] == [0, 2, 5, 1, 0, 7, 9];
    assert [2] + [5, 1, 0, 7, 9] == [2, 5, 1, 0, 7, 9];
    assert [5] + [1, 0, 7, 9] == [5, 1, 0, 7, 9];
    assert [1] + [0, 7, 9] == [1, 0, 7, 9];
    var s := State([0, 2, 5, 1, 0, 7, 9], 1, 0, 0, 0, 0, 0, 0, 0, 0);
    assert Start(32, [1, 0, 0, 2, 5, 1, 0, 7, 9]) == Some(s);
    var t := s.(rest := [1, 0, 7, 9], groupFlags := 2, groupDelta := 5);
    assert GroupHeader(32, false, s) == Some(t);
    var e := t.(rest := [0, 7, 9], offset := 5, info := 1, index := 1, groupIndex := 1);
    assert Entry(32, false, t) == Some(e);
    assert Drain(32, false, e) == ([], e.rest);
  }

  lemma Eight()
    ensures Pow2(3) == 8
  {}
}
