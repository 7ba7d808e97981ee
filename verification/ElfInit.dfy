/** The dynamic-section loop of xh_elf_init, and the checks after it. */
module ElfInit {
  import opened Bits
  import opened Machine
  import opened Wrappers
  import opened ElfHash

  // ---- the program headers ----

  /** A program header: its type, where its bytes are in the file and in memory, and how many. */
  datatype Phdr = Phdr(kind: nat, offset: nat, vaddr: nat, memsz: nat)

  const PT_LOAD: nat := 1
  const PT_DYNAMIC: nat := 2

  /** How far the library has been moved, and its dynamic section: where it is and how many entries it has. */
  datatype Image = Image(bias: nat, dyn: nat, count: nat)

  /** Segment i is the first one of the file's start that is loaded. */
  predicate FirstLoad(phs: seq<Phdr>, i: nat) {
    i < |phs| && phs[i].kind == 1 && phs[i].offset == 0 && forall j :: 0 <= j < i ==> !(phs[j].kind == 1 && phs[j].offset == 0)
  }

  predicate FirstDynamic(phs: seq<Phdr>, i: nat) {
    i < |phs| && phs[i].kind == 2 && forall j :: 0 <= j < i ==> phs[j].kind != 2
  }

  /** xh_elf_get_first_segment_by_type_offset. */
  method FirstByTypeOffset(phs: seq<Phdr>, kind: nat, offset: nat) returns (r: Option<nat>)
    ensures r.None? ==> forall j :: 0 <= j < |phs| ==> !(phs[j].kind == kind && phs[j].offset == offset)
    ensures r.Some? ==> r.value < |phs| && phs[r.value].kind == kind && phs[r.value].offset == offset
    ensures r.Some? ==> forall j :: 0 <= j < r.value ==> !(phs[j].kind == kind && phs[j].offset == offset)
  {
    for i := 0 to |phs|
      invariant forall j :: 0 <= j < i ==> !(phs[j].kind == kind && phs[j].offset == offset)
    {
      if phs[i].kind == kind && phs[i].offset == offset { return Some(i); }
    }
    return None;
  }

  /** xh_elf_get_first_segment_by_type. */
  method FirstByType(phs: seq<Phdr>, kind: nat) returns (r: Option<nat>)
    ensures r.None? ==> forall j :: 0 <= j < |phs| ==> phs[j].kind != kind
    ensures r.Some? ==> r.value < |phs| && phs[r.value].kind == kind && forall j :: 0 <= j < r.value ==> phs[j].kind != kind
  {
    for i := 0 to |phs|
      invariant forall j :: 0 <= j < i ==> phs[j].kind != kind
    {
      if phs[i].kind == kind { return Some(i); }
    }
    return None;
  }

  /** The start of xh_elf_init, for a library whose first byte is at base: the bias takes the address that
      the file gives its first byte to the base. */
  method Locate(m: Machine, phs: seq<Phdr>, base: nat) returns (r: Option<Image>)
    ensures r.Some? <==> base != 0 && (exists i: nat :: FirstLoad(phs, i) && phs[i].vaddr <= base) && exists i: nat :: FirstDynamic(phs, i)
    ensures r.Some? ==> (forall i: nat :: FirstLoad(phs, i) ==> r.value.bias + phs[i].vaddr == base)
    ensures r.Some? ==> (forall i: nat :: FirstDynamic(phs, i) ==>
      && r.value.dyn == (r.value.bias + phs[i].vaddr) % (if m.Arm64? || m.X64? then 0x1_0000_0000_0000_0000 else 0x1_0000_0000)
      && r.value.count == phs[i].memsz % 0x1_0000_0000 / (if m.Arm64? || m.X64? then 16 else 8))
  {
    hide Word, WordBits, WordBytes;
    if base == 0 { return None; }
    var load := FirstByTypeOffset(phs, PT_LOAD, 0);
    if load.None? { return None; }
    assert FirstLoad(phs, load.value);
    assert forall i: nat :: FirstLoad(phs, i) ==> i == load.value;
    if base < phs[load.value].vaddr { return None; }
    var bias := base - phs[load.value].vaddr;
    var dynamic := FirstByType(phs, PT_DYNAMIC);
    if dynamic.None? { return None; }
    assert FirstDynamic(phs, dynamic.value);
    assert forall i: nat :: FirstDynamic(phs, i) ==> i == dynamic.value;
    var d := phs[dynamic.value];
    DynIs(m, bias + d.vaddr, d.memsz);
    return Some(Image(bias, Word(WordBits(m), bias + d.vaddr), Word(32, d.memsz) / (2 * WordBytes(m))));
  }

  lemma DynIs(m: Machine, at: nat, size: nat)
    ensures Word(WordBits(m), at) == at % (if m.Arm64? || m.X64? then 0x1_0000_0000_0000_0000 else 0x1_0000_0000)
    ensures Word(32, size) / (2 * WordBytes(m)) == size % 0x1_0000_0000 / (if m.Arm64? || m.X64? then 16 else 8)
  {
    hide Word;
    WordSizeIs(WordBits(m), at);
    WordSizeIs(32, size);
  }

  lemma WordSizeIs(w: nat, x: nat)
    requires w == 32 || w == 64
    ensures Word(w, x) == x % (if w == 64 then 0x1_0000_0000_0000_0000 else 0x1_0000_0000)
  {
    hide Word, Pow2;
    Places();
    Pow2Add(32, 32);
    WordIsRemainder(w, x);
  }

  // ---- the tags ----

  const DT_NULL: int := 0
  const DT_PLTRELSZ: int := 2
  const DT_HASH: int := 4
  const DT_STRTAB: int := 5
  const DT_SYMTAB: int := 6
  const DT_RELA: int := 7
  const DT_RELASZ: int := 8
  const DT_REL: int := 17
  const DT_RELSZ: int := 18
  const DT_PLTREL: int := 20
  const DT_JMPREL: int := 23
  const DT_ANDROID_REL: int := 0x6000_000f
  const DT_ANDROID_RELSZ: int := 0x6000_0010
  const DT_ANDROID_RELA: int := 0x6000_0011
  const DT_ANDROID_RELASZ: int := 0x6000_0012
  const DT_GNU_HASH: int := 0x6fff_fef5

  /** The tags that the loop treats alike. */
  function Kind(tag: int): int {
    if tag == DT_RELA then DT_REL else if tag == DT_RELASZ then DT_RELSZ
    else if tag == DT_ANDROID_RELA then DT_ANDROID_REL else if tag == DT_ANDROID_RELASZ then DT_ANDROID_RELSZ else tag
  }

  /** An entry of the dynamic section. */
  datatype Dyn = Dyn(tag: int, value: nat)

  /** Tags whose value is an address. */
  predicate IsAddress(tag: int) {
    var k := Kind(tag);
    k == DT_STRTAB || k == DT_SYMTAB || k == DT_JMPREL || k == DT_REL || k == DT_ANDROID_REL || k == DT_HASH || k == DT_GNU_HASH
  }

  function BloomBytes(m: Machine, words: nat): nat {
    if WordBytes(m) == 8 then 8 * words else 4 * words
  }

  /** The value of the last entry of a kind. */
  function LastOf(ds: seq<Dyn>, kind: int): Option<nat>
  {
    if ds == [] then None
    else
      var d := ds[|ds| - 1];
      if Kind(d.tag) == kind then Some(d.value) else LastOf(ds[..|ds| - 1], kind)
  }

  /** The entries in force: those before the first DT_NULL. */
  function InForce(ds: seq<Dyn>): seq<Dyn> {
    if ds == [] || ds[0].tag == DT_NULL then [] else [ds[0]] + InForce(ds[1..])
  }

  function AddressOr(w: nat, bias: nat, v: Option<nat>): nat {
    match v case None => 0 case Some(p) => Word(w, bias + p)
  }

  /** A size, kept in 32 bits on every machine. */
  function SizeOr(v: Option<nat>): nat {
    match v case None => 0 case Some(x) => Word(32, x)
  }

  /** An address below the library's base, unless it belongs to a DT_HASH behind a DT_GNU_HASH. */
  ghost predicate Offends(w: nat, base: nat, bias: nat, ds: seq<Dyn>, k: nat)
    requires k < |ds|
  {
    && IsAddress(ds[k].tag) && AddressOr(w, bias, Some(ds[k].value)) < base
    && !(ds[k].tag == DT_HASH && LastOf(ds[..k], DT_GNU_HASH).Some?)
  }

  lemma {:induction false} InForcePrefix(ds: seq<Dyn>, k: nat)
    requires k <= |ds| && forall i :: 0 <= i < k ==> ds[i].tag != 0
    requires k < |ds| ==> ds[k].tag == 0
    ensures InForce(ds) == ds[..k]
    decreases k
  {
    if k > 0 {
      InForcePrefix(ds[1..], k - 1);
      assert ds[..k] == [ds[0]] + ds[1..][..k - 1];
    }
  }

  lemma LastOfNext(ds: seq<Dyn>, k: nat, kind: int)
    requires k < |ds|
    ensures LastOf(ds[..k + 1], kind) == if Kind(ds[k].tag) == kind then Some(ds[k].value) else LastOf(ds[..k], kind)
  {
    assert ds[..k + 1][..k] == ds[..k];
  }

  datatype Status = Done | BadFormat

  /** The fields of xh_elf_t that the loop fills. */
  class ElfInfo {
    const machine: Machine
    const base: nat
    const bias: nat
    var strtab: nat
    var symtab: nat
    var relplt: nat
    var relpltSize: nat
    var reldyn: nat
    var reldynSize: nat
    var relandroid: nat
    var relandroidSize: nat
    var bucket: nat
    var bucketCount: nat
    var chain: nat
    var chainCount: nat
    var symoffset: nat
    var bloom: nat
    var bloomSize: nat
    var bloomShift: nat
    var useRela: bool
    var useGnuHash: bool

    constructor (machine: Machine, base: nat, bias: nat)
      ensures this.machine == machine && this.base == base && this.bias == bias
      ensures Holds([], _ => 0)
    {
      this.machine, this.base, this.bias := machine, base, bias;
      strtab, symtab, relplt, relpltSize, reldyn, reldynSize, relandroid, relandroidSize := 0, 0, 0, 0, 0, 0, 0, 0;
      bucket, bucketCount, chain, chainCount, symoffset, bloom, bloomSize, bloomShift := 0, 0, 0, 0, 0, 0, 0, 0;
      useRela, useGnuHash := false, false;
    }

    /** Tables and sections are those of the last entry of their kind. */
    ghost predicate Sections(ds: seq<Dyn>)
      reads `strtab, `symtab, `useRela, `relplt, `relpltSize, `reldyn, `reldynSize, `relandroid, `relandroidSize
    {
      var w := WordBits(machine);
      && strtab == AddressOr(w, bias, LastOf(ds, DT_STRTAB)) && symtab == AddressOr(w, bias, LastOf(ds, DT_SYMTAB))
      && relplt == AddressOr(w, bias, LastOf(ds, DT_JMPREL)) && relpltSize == SizeOr(LastOf(ds, DT_PLTRELSZ))
      && reldyn == AddressOr(w, bias, LastOf(ds, DT_REL)) && reldynSize == SizeOr(LastOf(ds, DT_RELSZ))
      && relandroid == AddressOr(w, bias, LastOf(ds, DT_ANDROID_REL)) && relandroidSize == SizeOr(LastOf(ds, DT_ANDROID_RELSZ))
      && (useRela <==> LastOf(ds, DT_PLTREL) == Some(DT_RELA))
    }

    ghost predicate GnuAt(raw: nat, peek: nat -> nat)
      reads `bucket, `bucketCount, `chain, `symoffset, `bloom, `bloomSize, `bloomShift
    {
      && bucketCount == peek(raw) && symoffset == peek(raw + 4) && bloomSize == peek(raw + 8) && bloomShift == peek(raw + 12)
      && bloom == raw + 16 && bucket == bloom + BloomBytes(machine, bloomSize) && chain == bucket + 4 * bucketCount
    }

    ghost predicate SysVAt(raw: nat, peek: nat -> nat)
      reads `bucket, `bucketCount, `chain, `chainCount
    {
      bucketCount == peek(raw) && chainCount == peek(raw + 4) && bucket == raw + 8 && chain == bucket + 4 * bucketCount
    }

    /** A GNU hash table is preferred wherever it stands; peek reads a 32-bit word of the library. */
    ghost predicate HashTable(ds: seq<Dyn>, peek: nat -> nat)
      reads `bucket, `bucketCount, `chain, `chainCount, `symoffset, `bloom, `bloomSize, `bloomShift, `useGnuHash
    {
      var w, gnu, sysv := WordBits(machine), LastOf(ds, DT_GNU_HASH), LastOf(ds, DT_HASH);
      && (useGnuHash <==> gnu.Some?)
      && (if gnu.Some? then GnuAt(AddressOr(w, bias, gnu), peek)
          else if sysv.Some? then SysVAt(AddressOr(w, bias, sysv), peek)
          else bucket == 0 && chain == 0 && bloom == 0)
    }

    ghost predicate Holds(ds: seq<Dyn>, peek: nat -> nat)
      reads this
    {
      Sections(ds) && HashTable(ds, peek)
    }

    /** An entry that has nothing to do with hash tables. */
    method ReadSection(d: Dyn, ghost ds: seq<Dyn>, ghost k: nat) returns (status: Status)
      requires k < |ds| && d == ds[k] && d.tag != DT_NULL && d.tag != DT_HASH && d.tag != DT_GNU_HASH && Sections(ds[..k])
      modifies `strtab, `symtab, `useRela, `relplt, `relpltSize, `reldyn, `reldynSize, `relandroid, `relandroidSize
      ensures status == BadFormat <==> IsAddress(d.tag) && AddressOr(WordBits(machine), bias, Some(d.value)) < base
      ensures status == Done ==> Sections(ds[..k + 1])
    {
      hide LastOf, Word, Kind, AddressOr, SizeOr, IsAddress;
      SectionAddress(d.tag);
      HashKinds(d.tag);
      forall kind { LastOfNext(ds, k, kind); }
      var address := AddressOr(WordBits(machine), bias, Some(d.value));
      var tag := Kind(d.tag);
      if tag == DT_STRTAB { strtab := address; if strtab < base { return BadFormat; } }
      else if tag == DT_SYMTAB { symtab := address; if symtab < base { return BadFormat; } }
      else if tag == DT_PLTREL { useRela := d.value == DT_RELA; }
      else if tag == DT_JMPREL { relplt := address; if relplt < base { return BadFormat; } }
      else if tag == DT_PLTRELSZ { relpltSize := SizeOr(Some(d.value)); }
      else if tag == DT_REL { reldyn := address; if reldyn < base { return BadFormat; } }
      else if tag == DT_RELSZ { reldynSize := SizeOr(Some(d.value)); }
      else if tag == DT_ANDROID_REL { relandroid := address; if relandroid < base { return BadFormat; } }
      else if tag == DT_ANDROID_RELSZ { relandroidSize := SizeOr(Some(d.value)); }
      return Done;
    }

    /** DT_HASH and DT_GNU_HASH. */
    method ReadTable(d: Dyn, peek: nat -> nat, ghost ds: seq<Dyn>, ghost k: nat) returns (status: Status)
      requires k < |ds| && d == ds[k] && (d.tag == DT_HASH || d.tag == DT_GNU_HASH) && HashTable(ds[..k], peek)
      modifies `bucket, `bucketCount, `chain, `chainCount, `symoffset, `bloom, `bloomSize, `bloomShift, `useGnuHash
      ensures status == BadFormat <==> AddressOr(WordBits(machine), bias, Some(d.value)) < base && !(d.tag == DT_HASH && old(useGnuHash))
      ensures status == Done ==> HashTable(ds[..k + 1], peek)
    {
      hide LastOf, Word, Kind, AddressOr, GnuAt, SysVAt;
      HashKinds(d.tag);
      LastOfNext(ds, k, DT_HASH);
      LastOfNext(ds, k, DT_GNU_HASH);
      var raw := AddressOr(WordBits(machine), bias, Some(d.value));
      if d.tag == DT_HASH {
        if useGnuHash { return Done; }
        if raw < base { return BadFormat; }
        ReadSysV(raw, peek);
      } else {
        if raw < base { return BadFormat; }
        ReadGnu(raw, peek);
        useGnuHash := true;
      }
      return Done;
    }

    method ReadSysV(raw: nat, peek: nat -> nat)
      modifies `bucket, `bucketCount, `chain, `chainCount
      ensures SysVAt(raw, peek)
    {
      bucketCount, chainCount := peek(raw), peek(raw + 4);
      bucket := raw + 8;
      chain := bucket + 4 * bucketCount;
    }

    method ReadGnu(raw: nat, peek: nat -> nat)
      modifies `bucket, `bucketCount, `chain, `symoffset, `bloom, `bloomSize, `bloomShift
      ensures GnuAt(raw, peek)
    {
      bucketCount, symoffset := peek(raw), peek(raw + 4);
      bloomSize, bloomShift := peek(raw + 8), peek(raw + 12);
      bloom := raw + 16;
      bucket := bloom + BloomBytes(machine, bloomSize);
      chain := bucket + 4 * bucketCount;
    }

    lemma HashTableFlag(ds: seq<Dyn>, peek: nat -> nat)
      ensures HashTable(ds, peek) ==> (useGnuHash <==> LastOf(ds, DT_GNU_HASH).Some?)
    {}

    lemma SectionsSkip(ds: seq<Dyn>, k: nat)
      requires k < |ds| && (ds[k].tag == DT_HASH || ds[k].tag == DT_GNU_HASH) && Sections(ds[..k])
      ensures Sections(ds[..k + 1])
    {
      hide LastOf, Word;
      forall kind { LastOfNext(ds, k, kind); }
    }

    lemma HashTableSkip(ds: seq<Dyn>, k: nat, peek: nat -> nat)
      requires k < |ds| && ds[k].tag != DT_HASH && ds[k].tag != DT_GNU_HASH && HashTable(ds[..k], peek)
      ensures HashTable(ds[..k + 1], peek)
    {
      hide LastOf, Word;
      LastOfNext(ds, k, DT_HASH);
      LastOfNext(ds, k, DT_GNU_HASH);
    }

    /** The loop over the dynamic section. */
    method ParseDynamic(ds: seq<Dyn>, peek: nat -> nat) returns (status: Status)
      requires Holds([], peek)
      modifies this
      ensures status == BadFormat <==> exists k :: 0 <= k < |InForce(ds)| && Offends(WordBits(machine), base, bias, InForce(ds), k)
      ensures status == Done ==> Holds(InForce(ds), peek)
    {
      hide LastOf, Word, InForce, Sections, HashTable, Kind, IsAddress, GnuAt, SysVAt, AddressOr;

      var k := 0;
      ghost var w := WordBits(machine);
      assert ds[..0] == [];
      while k < |ds|
        invariant k <= |ds| && Holds(ds[..k], peek)
        invariant forall i :: 0 <= i < k ==> ds[i].tag != DT_NULL && !Offends(w, base, bias, ds, i)
        decreases |ds| - k
      {
        var d := ds[k];
        HashTableFlag(ds[..k], peek);
        HashAddress(d.tag);
        if d.tag == DT_NULL { break; }
        if d.tag == DT_HASH || d.tag == DT_GNU_HASH {
          status := ReadTable(d, peek, ds, k);
          if status == BadFormat { StopsAt(w, base, bias, ds, k); return; }
          SectionsSkip(ds, k);
        } else {
          status := ReadSection(d, ds, k);
          if status == BadFormat { StopsAt(w, base, bias, ds, k); return; }
          HashTableSkip(ds, k, peek);
        }
        k := k + 1;
      }
      InForcePrefix(ds, k);
      forall i | 0 <= i < k ensures !Offends(w, base, bias, ds[..k], i) {
        assert ds[..k][..i] == ds[..i];
      }
      return Done;
    }

    /** The test of the packed section's magic number, which is then stepped over, and xh_elf_check.
        The ELF header and the program headers lie behind the base and are not NULL when it is not. */
    method Check(byteAt: nat -> byte) returns (status: Status)
      modifies `relandroid, `relandroidSize
      ensures var packed := old(relandroid) != 0; var magic := seq(4, i => if i >= 0 then byteAt(old(relandroid) + i) else 0);
        && (status == Done <==>
              && (packed ==> old(relandroidSize) >= 4 && magic == [0x41, 0x50, 0x53, 0x32])
              && base != 0 && bias != 0 && strtab != 0 && symtab != 0 && bucket != 0 && chain != 0 && (useGnuHash ==> bloom != 0))
        && (status == Done && packed ==> relandroid == old(relandroid) + 4 && relandroidSize == old(relandroidSize) - 4)
        && (!packed ==> relandroid == 0 && relandroidSize == old(relandroidSize))
    {
      ghost var magic := seq(4, i => if i >= 0 then byteAt(old(relandroid) + i) else 0);
      if relandroid != 0 {
        var r := relandroid;
        assert magic[0] == byteAt(r) && magic[1] == byteAt(r + 1) && magic[2] == byteAt(r + 2) && magic[3] == byteAt(r + 3);
        if relandroidSize < 4 || byteAt(r) != 0x41 || byteAt(r + 1) != 0x50 || byteAt(r + 2) != 0x53 || byteAt(r + 3) != 0x32 {
          return BadFormat;
        }
        relandroid := relandroid + 4;
        relandroidSize := relandroidSize - 4;
      }
      if base == 0 || bias == 0 || strtab == 0 || symtab == 0 || bucket == 0 || chain == 0 { return BadFormat; }
      if useGnuHash && bloom == 0 { return BadFormat; }
      return Done;
    }
  }

  lemma HashAddress(tag: int)
    ensures tag == DT_HASH || tag == DT_GNU_HASH ==> IsAddress(tag)
  {}

  lemma SectionAddress(tag: int)
    ensures tag != DT_HASH && tag != DT_GNU_HASH ==>
      var k := Kind(tag);
      (IsAddress(tag) <==> k == DT_STRTAB || k == DT_SYMTAB || k == DT_JMPREL || k == DT_REL || k == DT_ANDROID_REL)
  {}

  lemma HashKinds(tag: int)
    ensures Kind(tag) == DT_HASH <==> tag == DT_HASH
    ensures Kind(tag) == DT_GNU_HASH <==> tag == DT_GNU_HASH
  {}

  /** An offending entry with no DT_NULL up to it is in force. */
  lemma StopsAt(w: nat, base: nat, bias: nat, ds: seq<Dyn>, k: nat)
    requires k < |ds| && Offends(w, base, bias, ds, k) && forall i :: 0 <= i <= k ==> ds[i].tag != DT_NULL
    ensures exists i :: 0 <= i < |InForce(ds)| && Offends(w, base, bias, InForce(ds), i)
  {
    InForceKeeps(ds, k);
    assert InForce(ds)[..k + 1] == ds[..k + 1];
    assert InForce(ds)[k] == InForce(ds)[..k + 1][k];
    assert InForce(ds)[..k] == InForce(ds)[..k + 1][..k] == ds[..k];
    assert Offends(w, base, bias, InForce(ds), k);
  }

  lemma {:induction false} InForceKeeps(ds: seq<Dyn>, k: nat)
    requires k < |ds| && forall i :: 0 <= i <= k ==> ds[i].tag != DT_NULL
    ensures |InForce(ds)| > k && InForce(ds)[..k + 1] == ds[..k + 1]
    decreases k
  {
    if k > 0 {
      InForceKeeps(ds[1..], k - 1);
      assert ds[..k + 1] == [ds[0]] + ds[1..][..k];
      assert InForce(ds)[..k + 1] == [ds[0]] + InForce(ds[1..])[..k];
    }
  }

  // ---- what the fields say about the file ----

  /** Entry i is the last one with one of two tags. */
  predicate Latest(ds: seq<Dyn>, i: nat, a: int, b: int) {
    i < |ds| && (ds[i].tag == a || ds[i].tag == b) && forall j :: i < j < |ds| ==> ds[j].tag != a && ds[j].tag != b
  }

  function Located(info: ElfInfo, v: nat): nat {
    (info.bias + v) % (if info.machine.Arm64? || info.machine.X64? then 0x1_0000_0000_0000_0000 else 0x1_0000_0000)
  }

  lemma LocatedIs(info: ElfInfo, v: nat)
    ensures AddressOr(WordBits(info.machine), info.bias, Some(v)) == Located(info, v)
  {
    hide Word;
    WordSizeIs(WordBits(info.machine), info.bias + v);
  }

  lemma LatestIs(ds: seq<Dyn>, i: nat, a: int, b: int, kind: int)
    requires Latest(ds, i, a, b) && forall tag :: Kind(tag) == kind <==> tag == a || tag == b
    ensures LastOf(ds, kind) == Some(ds[i].value)
  {
    hide LastOf, Kind;
    LastOfMeans(ds, kind, ds[i].value);
  }

  /** The tags of the standard and of Android, in numbers. */
  lemma SectionFields(info: ElfInfo, ds: seq<Dyn>, i: nat)
    requires info.Sections(ds) && i < |ds|
    ensures var v := ds[i].value;
      && (Latest(ds, i, 5, 5) ==> info.strtab == Located(info, v)) && (Latest(ds, i, 6, 6) ==> info.symtab == Located(info, v))
      && (Latest(ds, i, 23, 23) ==> info.relplt == Located(info, v)) && (Latest(ds, i, 2, 2) ==> info.relpltSize == v % 0x1_0000_0000)
      && (Latest(ds, i, 7, 17) ==> info.reldyn == Located(info, v)) && (Latest(ds, i, 8, 18) ==> info.reldynSize == v % 0x1_0000_0000)
      && (Latest(ds, i, 0x6000_000f, 0x6000_0011) ==> info.relandroid == Located(info, v))
      && (Latest(ds, i, 0x6000_0010, 0x6000_0012) ==> info.relandroidSize == v % 0x1_0000_0000)
      && (Latest(ds, i, 20, 20) ==> (info.useRela <==> v == 7))
  {
    hide LastOf, Latest, Word, Pow2, AddressOr;
    LocatedIs(info, ds[i].value);
    Places();
    WordIsRemainder(32, ds[i].value);
    if Latest(ds, i, 5, 5) { LatestIs(ds, i, 5, 5, DT_STRTAB); }
    if Latest(ds, i, 6, 6) { LatestIs(ds, i, 6, 6, DT_SYMTAB); }
    if Latest(ds, i, 23, 23) { LatestIs(ds, i, 23, 23, DT_JMPREL); }
    if Latest(ds, i, 2, 2) { LatestIs(ds, i, 2, 2, DT_PLTRELSZ); }
    if Latest(ds, i, 7, 17) { LatestIs(ds, i, 7, 17, DT_REL); }
    if Latest(ds, i, 8, 18) { LatestIs(ds, i, 8, 18, DT_RELSZ); }
    if Latest(ds, i, 0x6000_000f, 0x6000_0011) { LatestIs(ds, i, 0x6000_000f, 0x6000_0011, DT_ANDROID_REL); }
    if Latest(ds, i, 0x6000_0010, 0x6000_0012) { LatestIs(ds, i, 0x6000_0010, 0x6000_0012, DT_ANDROID_RELSZ); }
    if Latest(ds, i, 20, 20) { LatestIs(ds, i, 20, 20, DT_PLTREL); }
  }

  /** The last GNU hash table is in use, and only without one the last System V table. */
  lemma TableFields(info: ElfInfo, ds: seq<Dyn>, peek: nat -> nat, i: nat)
    requires info.HashTable(ds, peek) && i < |ds|
    ensures Latest(ds, i, 0x6fff_fef5, 0x6fff_fef5) ==> info.useGnuHash && info.GnuAt(Located(info, ds[i].value), peek)
    ensures Latest(ds, i, 4, 4) && (forall d <- ds :: d.tag != 0x6fff_fef5) ==>
      !info.useGnuHash && info.SysVAt(Located(info, ds[i].value), peek)
  {
    hide LastOf, Latest, Word, Pow2, AddressOr;
    LocatedIs(info, ds[i].value);
    if Latest(ds, i, 0x6fff_fef5, 0x6fff_fef5) { LatestIs(ds, i, 0x6fff_fef5, 0x6fff_fef5, DT_GNU_HASH); }
    if Latest(ds, i, 4, 4) && forall d <- ds :: d.tag != 0x6fff_fef5 {
      LatestIs(ds, i, 4, 4, DT_HASH);
      NoneOf(ds);
    }
  }

  lemma {:induction false} NoneOf(ds: seq<Dyn>)
    requires forall d <- ds :: d.tag != 0x6fff_fef5
    ensures LastOf(ds, DT_GNU_HASH) == None
  {
    if ds != [] { NoneOf(ds[..|ds| - 1]); }
  }

  // ---- the tables behind the fields ----

  /** n 32-bit words of a table at raw, from word k on. */
  ghost function Words(peek: nat -> nat, raw: nat, k: nat, n: nat): (ws: seq<nat>)
    ensures |ws| == n && forall i :: 0 <= i < n ==> ws[i] == peek(raw + 4 * (k + i))
  {
    if n == 0 then [] else Words(peek, raw, k, n - 1) + [peek(raw + 4 * (k + (n - 1)))]
  }

  /** The same table, found through the fields. */
  ghost function Array(peek: nat -> nat, at: nat, n: nat): (ws: seq<nat>)
    ensures |ws| == n && forall i :: 0 <= i < n ==> ws[i] == peek(at + 4 * i)
  {
    if n == 0 then [] else Array(peek, at, n - 1) + [peek(at + 4 * (n - 1))]
  }

  ghost function SysVOf(info: ElfInfo, peek: nat -> nat, names: seq<Name>): SysVTable
    reads info
  {
    SysVTable(names, Array(peek, info.bucket, info.bucketCount), Array(peek, info.chain, info.chainCount))
  }

  /** The System V table as the ABI lays it out: the two counts, the buckets, the chains. */
  lemma SysVLayout(info: ElfInfo, raw: nat, peek: nat -> nat, names: seq<Name>)
    requires info.SysVAt(raw, peek)
    ensures var buckets, chains := peek(raw), peek(raw + 4);
      SysVOf(info, peek, names) == SysVTable(names, Words(peek, raw, 2, buckets), Words(peek, raw, 2 + buckets, chains))
  {
    hide Words, Array;
    var buckets, chains := peek(raw), peek(raw + 4);
    SameWords(peek, raw, 2, buckets);
    SameWords(peek, raw, 2 + buckets, chains);
  }

  /** Words of the bloom filter, which have the machine's size. */
  ghost function Filter(m: Machine, peek: nat -> nat, at: nat, n: nat): (ws: seq<nat>)
    ensures |ws| == n
    ensures m.Arm64? || m.X64? ==> forall i :: 0 <= i < n ==> ws[i] == peek(at + 8 * i) + 0x1_0000_0000 * peek(at + 8 * i + 4)
    ensures m.Arm? || m.X86? ==> forall i :: 0 <= i < n ==> ws[i] == peek(at + 4 * i)
  {
    if n == 0 then []
    else
      var i := n - 1;
      Filter(m, peek, at, i) + [if m.Arm64? || m.X64? then peek(at + 8 * i) + 0x1_0000_0000 * peek(at + 8 * i + 4) else peek(at + 4 * i)]
  }

  /** The GNU table of a library with that many names. */
  ghost function GnuOf(info: ElfInfo, peek: nat -> nat, names: seq<Name>): GnuTable
    requires info.symoffset <= |names|
    reads info
  {
    GnuTable(names, info.symoffset, Filter(info.machine, peek, info.bloom, info.bloomSize), WordBits(info.machine),
             info.bloomShift, Array(peek, info.bucket, info.bucketCount), Array(peek, info.chain, |names| - info.symoffset))
  }

  /** The GNU table: four words, of which the last is the shift, then the filter, the buckets and the
      chain words of the symbols from symoffset on. */
  lemma GnuLayout(info: ElfInfo, raw: nat, peek: nat -> nat, names: seq<Name>)
    requires info.GnuAt(raw, peek) && peek(raw + 4) <= |names|
    ensures var buckets, symoffset, blooms := peek(raw), peek(raw + 4), peek(raw + 8);
      var behind := 4 + (if info.machine.Arm64? || info.machine.X64? then 2 * blooms else blooms);
      var t := GnuOf(info, peek, names);
      && t.symoffset == symoffset && t.bloomShift == peek(raw + 12)
      && t.bloomBits == (if info.machine.Arm64? || info.machine.X64? then 64 else 32)
      && t.bloom == Filter(info.machine, peek, raw + 16, blooms)
      && t.bucket == Words(peek, raw, behind, buckets)
      && t.chain == Words(peek, raw, behind + buckets, |names| - symoffset)
  {
    hide Words, Array, Filter;
    var buckets, symoffset, blooms := peek(raw), peek(raw + 4), peek(raw + 8);
    var behind := 4 + (if info.machine.Arm64? || info.machine.X64? then 2 * blooms else blooms);
    SameWords(peek, raw, behind, buckets);
    SameWords(peek, raw, behind + buckets, |names| - symoffset);
  }

  lemma SameWords(peek: nat -> nat, raw: nat, k: nat, n: nat)
    ensures Array(peek, raw + 4 * k, n) == Words(peek, raw, k, n)
  {
    forall i | 0 <= i < n ensures raw + 4 * k + 4 * i == raw + 4 * (k + i) {}
  }

  // ---- the order of the entries ----

  /** The last of a kind: it is there, and none of its kind follows. */
  lemma {:induction false} LastOfMeans(ds: seq<Dyn>, kind: int, v: nat)
    ensures LastOf(ds, kind) == Some(v) <==>
      exists i :: 0 <= i < |ds| && Kind(ds[i].tag) == kind && ds[i].value == v && forall j :: i < j < |ds| ==> Kind(ds[j].tag) != kind
  {
    hide Kind;
    if ds != [] {
      var before := ds[..|ds| - 1];
      LastOfMeans(before, kind, v);
      if Kind(ds[|ds| - 1].tag) != kind {
        if LastOf(before, kind) == Some(v) {
          var i :| 0 <= i < |before| && Kind(before[i].tag) == kind && before[i].value == v && forall j :: i < j < |before| ==> Kind(before[j].tag) != kind;
          assert ds[i] == before[i];
          assert forall j :: i < j < |before| ==> ds[j] == before[j];
        }
        if i :| 0 <= i < |ds| && Kind(ds[i].tag) == kind && ds[i].value == v && forall j :: i < j < |ds| ==> Kind(ds[j].tag) != kind {
          assert before[i] == ds[i];
          assert forall j :: i < j < |before| ==> before[j] == ds[j];
        }
      }
    }
  }

  /** At most one entry of each kind. */
  ghost predicate OneOfEach(ds: seq<Dyn>) {
    forall i, j :: 0 <= i < j < |ds| ==> Kind(ds[i].tag) != Kind(ds[j].tag)
  }

  /** With at most one entry of each kind, their order does not matter: in particular a GNU hash
      table is used whether it stands before or behind a System V one. */
  lemma OrderFree(ds: seq<Dyn>, es: seq<Dyn>, kind: int)
    requires OneOfEach(ds) && OneOfEach(es) && forall d :: d in ds <==> d in es
    ensures LastOf(ds, kind) == LastOf(es, kind)
  {
    hide LastOf, Kind;
    OrderFreeHalf(ds, es, kind);
    OrderFreeHalf(es, ds, kind);
  }

  lemma OrderFreeHalf(ds: seq<Dyn>, es: seq<Dyn>, kind: int)
    requires OneOfEach(es) && forall d <- ds :: d in es
    ensures LastOf(ds, kind).Some? ==> LastOf(ds, kind) == LastOf(es, kind)
  {
    hide LastOf, Kind;
    if LastOf(ds, kind).Some? {
      var v := LastOf(ds, kind).value;
      LastOfMeans(ds, kind, v);
      LastOfMeans(es, kind, v);
      var i :| 0 <= i < |ds| && Kind(ds[i].tag) == kind && ds[i].value == v;
      assert ds[i] in es;
      var j :| 0 <= j < |es| && es[j] == ds[i];
    }
  }
}
