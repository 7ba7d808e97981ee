/** Page protections as xh_util.c reads them from /proc/self/maps and changes them. */
module Protect {
  import opened Wrappers

  /** PROT_READ, PROT_WRITE and PROT_EXEC. */
  datatype Prot = Prot(r: bool, w: bool, x: bool)

  datatype Bit = Read | Write | Exec

  predicate Has(p: Prot, bit: Bit) {
    match bit case Read => p.r case Write => p.w case Exec => p.x
  }

  /** What sscanf finds in a line; shared mappings are not private. */
  datatype Area = Area(start: nat, end: nat, prot: Prot, private: bool)

  /** A line of the maps file; area is None if sscanf does not recognise it. */
  datatype Line = Line(text: string, area: Option<Area>)

  /** strstr(text, s) != NULL. */
  predicate Occurs(text: string, s: string) {
    exists i :: 0 <= i <= |text| && s <= text[i..]
  }

  /** The lines the scan looks at. */
  predicate Selected(line: Line, pathname: Option<string>) {
    (pathname.Some? ==> Occurs(line.text, pathname.value)) && line.area.Some? && line.area.value.private
  }

  predicate Holds(line: Line, pathname: Option<string>, a: nat) {
    Selected(line, pathname) && line.area.value.start <= a < line.area.value.end
  }

  /** The kernel lists areas by address, and they do not overlap. */
  ghost predicate Ordered(lines: seq<Line>) {
    forall i, j :: 0 <= i < j < |lines| && lines[i].area.Some? && lines[j].area.Some? ==>
      lines[i].area.value.start <= lines[i].area.value.end <= lines[j].area.value.start
  }

  ghost predicate Mapped(lines: seq<Line>, pathname: Option<string>, a: nat) {
    exists k :: 0 <= k < |lines| && Holds(lines[k], pathname, a)
  }

  ghost predicate Allows(lines: seq<Line>, pathname: Option<string>, a: nat, bit: Bit) {
    exists k :: 0 <= k < |lines| && Holds(lines[k], pathname, a) && Has(lines[k].area.value.prot, bit)
  }

  /** Every byte of a range is mapped by a selected line. */
  ghost predicate AllMapped(lines: seq<Line>, pathname: Option<string>, lo: nat, hi: nat) {
    forall a :: lo <= a < hi ==> Mapped(lines, pathname, a)
  }

  ghost predicate AllAllow(lines: seq<Line>, pathname: Option<string>, lo: nat, hi: nat, bit: Bit) {
    forall a :: lo <= a < hi ==> Allows(lines, pathname, a, bit)
  }

  /** The protection of a range: a bit is set if every byte has it. */
  ghost predicate Common(lines: seq<Line>, pathname: Option<string>, lo: nat, hi: nat, p: Prot) {
    forall bit :: Has(p, bit) <==> AllAllow(lines, pathname, lo, hi, bit)
  }

  /** Shared mappings and lines without the name are passed over. */
  lemma PassedOver(start: nat, end: nat, prot: Prot, a: nat)
    ensures forall text, pathname :: !Holds(Line(text, Some(Area(start, end, prot, false))), pathname, a)
    ensures !Holds(Line("a.so", Some(Area(start, end, prot, true))), Some("b"), a)
    ensures Holds(Line("b.so", Some(Area(start, end, prot, true))), Some(".s"), a) <==> start <= a < end
    ensures Holds(Line("b.so", Some(Area(start, end, prot, true))), None, a) <==> start <= a < end
  {
    assert ".s" <= "b.so"[1..];
    forall i | 0 <= i <= 4 ensures !("b" <= "a.so"[i..]) {
      assert i < 4 ==> "a.so"[i..][0] != 'b';
    }
  }

  /** One more area: its bytes allow what it allows. */
  lemma Extend(lines: seq<Line>, pathname: Option<string>, lo: nat, mid: nat, hi: nat, k: nat, bit: Bit)
    requires Ordered(lines) && k < |lines| && lo <= mid < hi
    requires Holds(lines[k], pathname, mid) && hi <= lines[k].area.value.end
    ensures AllAllow(lines, pathname, lo, hi, bit) <==> AllAllow(lines, pathname, lo, mid, bit) && Has(lines[k].area.value.prot, bit)
  {
    forall a | mid <= a < hi ensures Allows(lines, pathname, a, bit) <==> Has(lines[k].area.value.prot, bit) {
      assert Holds(lines[k], pathname, a);
    }
    if AllAllow(lines, pathname, lo, hi, bit) { assert Allows(lines, pathname, mid, bit); }
  }

  /** xh_util_get_mem_protect; readable says whether the maps file could be read. */
  method GetMemProtect(readable: bool, lines: seq<Line>, pathname: Option<string>, addr: nat, len: nat) returns (ok: bool, prot: Prot)
    requires len > 0
    ensures !readable ==> !ok
    ensures readable && Ordered(lines) ==> (ok <==> AllMapped(lines, pathname, addr, addr + len))
    ensures ok && Ordered(lines) ==> Common(lines, pathname, addr, addr + len, prot)
  {
    prot := Prot(false, false, false);
    ok := false;
    if !readable { return; }
    var start, end := addr, addr + len;
    var load0 := true;
    var k := 0;
    while k < |lines|
      invariant k <= |lines| && addr <= start < end && (load0 <==> start == addr)
      invariant Ordered(lines) ==> AllMapped(lines, pathname, addr, start)
      invariant Ordered(lines) ==> forall j :: 0 <= j < k ==> !Holds(lines[j], pathname, start)
      invariant Ordered(lines) && !load0 ==> Common(lines, pathname, addr, start, prot)
    {
      var line := lines[k];
      if Selected(line, pathname) && line.area.value.start <= start < line.area.value.end {
        var area := line.area.value;
        ghost var to := if end <= area.end then end else area.end;
        if Ordered(lines) {
          forall bit { Extend(lines, pathname, addr, start, to, k, bit); }
        }
        if load0 {
          prot := area.prot;
          load0 := false;
        } else {
          prot := Prot(prot.r && area.prot.r, prot.w && area.prot.w, prot.x && area.prot.x);
        }
        assert Ordered(lines) ==> AllMapped(lines, pathname, addr, to) by {
          forall a | start <= a < to ensures Holds(line, pathname, a) {}
        }
        if end <= area.end {
          ok := true;
          return;
        }
        start := area.end;
      }
      k := k + 1;
    }
    assert !Mapped(lines, pathname, start) || !Ordered(lines);
  }

  // ---- pages ----

  const PAGE_SIZE: nat := 4096

  /** The start of the page an address is in. */
  function PageStart(addr: nat): nat { addr - addr % PAGE_SIZE }

  /** The end of the last page of the word of size word at addr. */
  function PageEnd(addr: nat, word: nat): nat
    requires word > 0
  {
    PageStart(addr + word - 1) + PAGE_SIZE
  }

  function PageCover(addr: nat, word: nat): nat
    requires word > 0
  {
    PageEnd(addr, word) - PageStart(addr)
  }

  /** Start and cover give the least run of whole pages around the word. */
  lemma LeastCover(addr: nat, word: nat, lo: nat, hi: nat)
    requires word > 0
    ensures var s := PageStart(addr); var e := s + PageCover(addr, word);
      && s % 4096 == e % 4096 == 0 && s <= addr && addr + word <= e
      && (lo % 4096 == hi % 4096 == 0 && lo <= addr && addr + word <= hi ==> lo <= s && e <= hi)
  {}
}
