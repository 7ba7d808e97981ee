/** Symbol lookup of xh_elf.c: both hash functions, both tables, against a linear scan. */
module ElfHash {
  import opened Bits
  import opened Wrappers

  /** A byte of a NUL-terminated name. */
  type Char = c: nat | 0 < c < 256 witness 1

  type Name = seq<Char>

  /** Names as numbers to a base. */
  function Weighted(name: Name, base: nat): nat {
    if name == [] then 0 else name[0] * Pow(base, |name| - 1) + Weighted(name[1..], base)
  }

  function Pow(base: nat, n: nat): nat {
    if n == 0 then 1 else base * Pow(base, n - 1)
  }

  lemma NoName(base: nat)
    ensures Pow(base, 0) == 1 && Weighted([], base) == 0
  {}

  lemma PowStep(base: nat, n: nat)
    ensures Pow(base, n + 1) == base * Pow(base, n)
  {}

  /** Horner's scheme. */
  lemma {:induction false} OneByteMore(name: Name, c: Char, base: nat)
    ensures Weighted(name + [c], base) == base * Weighted(name, base) + c
  {
    if name == [] {
      assert Pow(base, 0) == 1 && (name + [c])[1..] == [];
    } else {
      var rest := name[1..];
      OneByteMore(rest, c, base);
      assert (name + [c])[1..] == rest + [c];
      HornerStep(name[0], base, Pow(base, |rest|), Weighted(rest, base), c);
    }
  }

  lemma HornerStep(a: nat, base: nat, p: nat, w: nat, c: nat)
    ensures a * (base * p) + (base * w + c) == base * (a * p + w) + c
  {
    assert a * (base * p) == base * (a * p);
    assert base * (a * p + w) == base * (a * p) + base * w;
  }

  // ---- the System V hash ----

  /** The top four bits of a 32-bit word, in their place. */
  function Top(h: nat): (g: nat)
    ensures g <= 0xf000_0000
  {
    And(h, 0xf000_0000)
  }

  /** One byte more, as the System V ABI writes it (chapter 5, "Hash Table"). */
  function AbiStep(h: nat, c: Char): nat {
    var x := (h * 16 + c) % 0x1_0000_0000;
    var g := Top(x);
    And(if g != 0 then Xor(x, g / 0x100_0000) else x, 0xffff_ffff - g)
  }

  function AbiHash(name: Name): nat {
    if name == [] then 0 else AbiStep(AbiHash(name[..|name| - 1]), name[|name| - 1])
  }

  lemma NibbleMasks(n: nat)
    requires n < 16
    ensures And(n, 15) == n && And(n, 15 - n) == 0
  {
    assert Pow2(4) == 16;
    AndOnes(n, 4);
    AndComplement(n, 4);
  }

  lemma Places()
    ensures Pow2(28) == 0x1000_0000 && Pow2(32) == 0x1_0000_0000
  {
    assert Pow2(4) == 16;
    assert Pow2(8) == 256;
    Pow2Add(8, 8);
    Pow2Add(16, 8);
    Pow2Add(24, 4);
    Pow2Add(28, 4);
  }

  lemma TopIs(x: nat)
    requires x < 0x1_0000_0000
    ensures Top(x) == x / 0x1000_0000 * 0x1000_0000
  {
    hide And, Pow2;
    var low, n := x % 0x1000_0000, x / 0x1000_0000;
    Places();
    NibbleMasks(n);
    AndParts(low, 0, n, 15, 28);
    AndNothing(low);
  }

  /** Exclusive-or with the top bits clears them just as the ABI's mask does: what is left is the low
      28 bits, with the top ones brought in above the lowest four. */
  lemma TopBitsDropped(x: nat)
    requires x < 0x1_0000_0000
    ensures var g := Top(x);
      && Xor(Xor(x, g), g / 0x100_0000) == Xor(x % 0x1000_0000, x / 0x1000_0000 * 16)
      && And(if g != 0 then Xor(x, g / 0x100_0000) else x, 0xffff_ffff - g) == Xor(x % 0x1000_0000, x / 0x1000_0000 * 16)
  {
    hide And, Xor, Pow2, Top;
    var low, n := x % 0x1000_0000, x / 0x1000_0000;
    var g, y := Top(x), Xor(low, n * 16);
    Places();
    TopIs(x);
    assert g / 0x100_0000 == n * 16;
    XorParts(low, 0, n, n, 28);
    XorZero(low);
    XorItself(n);
    XorParts(low, n * 16, n, 0, 28);
    XorZero(n);
    assert Xor(x, g / 0x100_0000) == y + n * 0x1000_0000;
    XorBelow(low, n * 16, 28);
    NibbleMasks(n);
    AndOnes(y, 28);
    AndParts(y, 0xfff_ffff, n, 15 - n, 28);
    XorZero(x);
  }

  /** xh_elf_hash. */
  method ElfHash(name: Name) returns (h: nat)
    ensures h == AbiHash(name)
  {
    hide Top, Xor, And;
    h := 0;
    var k := 0;
    while k < |name|
      invariant k <= |name| && h == AbiHash(name[..k])
    {
      assert name[..k + 1][..k] == name[..k];
      h := (h * 16 + name[k]) % 0x1_0000_0000;
      TopBitsDropped(h);
      var g := Top(h);
      h := Xor(h, g);
      h := Xor(h, g / 0x100_0000);
      k := k + 1;
    }
    assert name[..k] == name;
  }

  /** The hash of a name with one byte more, on natural numbers; it stays below 2^28. */
  lemma AbiHashStep(name: Name, c: Char)
    ensures var x := (16 * AbiHash(name) + c) % 0x1_0000_0000;
      AbiHash(name + [c]) == Xor(x % 0x1000_0000, x / 0x1000_0000 * 16) < 0x1000_0000
  {
    hide Top, Xor, And, Pow2;
    assert (name + [c])[..|name|] == name;
    var x := (16 * AbiHash(name) + c) % 0x1_0000_0000;
    TopBitsDropped(x);
    Places();
    XorBelow(x % 0x1000_0000, x / 0x1000_0000 * 16, 28);
  }

  /** The hash of a name is the name as a number to base 16 exactly when that is below 2^28. */
  lemma {:induction false} AbiHashIsNumber(name: Name)
    ensures AbiHash(name) < 0x1000_0000
    ensures AbiHash(name) == Weighted(name, 16) <==> Weighted(name, 16) < 0x1000_0000
  {
    hide AbiStep, Xor, Weighted;
    if name == [] {
      NoName(16);
    } else {
      var front, c := name[..|name| - 1], name[|name| - 1];
      assert name == front + [c];
      AbiHashIsNumber(front);
      AbiHashStep(front, c);
      OneByteMore(front, c, 16);
      if Weighted(name, 16) < 0x1000_0000 { XorZero(Weighted(name, 16)); }
    }
  }

  lemma {:induction false} WeightedBound(name: Name, base: nat)
    requires base > 1
    ensures (base - 1) * Weighted(name, base) <= 255 * (Pow(base, |name|) - 1)
  {
    if name != [] {
      var rest := name[1..];
      WeightedBound(rest, base);
      BoundStep(name[0], base - 1, Pow(base, |rest|), Weighted(rest, base));
    }
  }

  lemma BoundStep(a: nat, b: nat, p: nat, w: nat)
    requires a <= 255 && b * w <= 255 * (p - 1)
    ensures b * (a * p + w) <= 255 * ((b + 1) * p - 1)
  {
    assert b * (a * p + w) == a * (b * p) + b * w;
    assert a * (b * p) <= 255 * (b * p) by { MulMinus(255, a, b * p); }
    assert (b + 1) * p == b * p + p;
  }

  /** In particular for names of up to five bytes: nothing reaches the top four bits. */
  lemma ShortNames(name: Name)
    requires |name| <= 5
    ensures AbiHash(name) == Weighted(name, 16)
  {
    hide AbiHash;
    AbiHashIsNumber(name);
    WeightedBound(name, 16);
    assert Pow(16, 0) == 1 && Pow(16, 1) == 16 && Pow(16, 2) == 0x100;
    assert Pow(16, 3) == 0x1000 && Pow(16, 4) == 0x1_0000 && Pow(16, 5) == 0x10_0000;
  }

  // ---- the GNU hash ----

  /** Bernstein's hash in 32 bits, from 5381. */
  function DjbHash(name: Name): nat {
    if name == [] then 5381 else Word(32, DjbHash(name[..|name| - 1]) * 33 + name[|name| - 1])
  }

  /** The hash of a name is the name as a number to base 33, with 5381 before its first byte, modulo 2^32. */
  lemma {:induction false} DjbHashIsNumber(name: Name)
    ensures DjbHash(name) == (5381 * Pow(33, |name|) + Weighted(name, 33)) % 0x1_0000_0000
  {
    hide Word, Pow2, Weighted, Pow;
    if name == [] {
      NoName(33);
    } else {
      var n := |name| - 1;
      var front, c := name[..n], name[n];
      assert name == front + [c];
      DjbHashIsNumber(front);
      OneByteMore(front, c, 33);
      var x := 5381 * Pow(33, n) + Weighted(front, 33);
      PowStep(33, n);
      assert Pow2(32) == 0x1_0000_0000 by { Places(); }
      WordIsRemainder(32, DjbHash(front) * 33 + c);
      RemainderThrough(x, c);
    }
  }

  lemma RemainderThrough(x: nat, c: nat)
    ensures (x % 0x1_0000_0000 * 33 + c) % 0x1_0000_0000 == (33 * x + c) % 0x1_0000_0000
  {}

  lemma TimesThirtyThree(h: nat, c: nat)
    ensures Word(32, h + Word(32, Word(32, h * 32) + c)) == Word(32, h * 33 + c)
  {
    hide Word;
    WordAdd(32, h * 32, c);
    WordAdd(32, h * 32 + c, h);
  }

  /** xh_elf_gnu_hash. */
  method GnuHash(name: Name) returns (h: nat)
    ensures h == DjbHash(name)
  {
    hide Word;
    h := 5381;
    var k := 0;
    while k < |name|
      invariant k <= |name| && h == DjbHash(name[..k])
    {
      assert name[..k + 1][..k] == name[..k];
      TimesThirtyThree(h, name[k]);
      h := Word(32, h + Word(32, Word(32, h * 32) + name[k]));
      k := k + 1;
    }
    assert name[..k] == name;
  }

  /** "ab" hashes to 0x672 and 0x597728. */
  lemma HashesOfAb()
    ensures AbiHash([97, 98]) == 0x672 && DjbHash([97, 98]) == 0x597728
  {
    hide AbiHash, DjbHash;
    var ab: Name := [97, 98];
    var b: Name := [98];
    assert ab[1..] == b && b[1..] == [];
    assert forall base: nat :: Pow(base, 0) == 1 && Pow(base, 1) == base;
    assert forall base: nat :: Weighted(b, base) == 98;
    assert Pow(33, 2) == 1089;
    ShortNames(ab);
    DjbHashIsNumber(ab);
  }

  // ---- the linear scan ----

  /** The first index from lo on that bears the name. */
  function LinearScan(names: seq<Name>, lo: nat, hi: nat, symbol: Name): (r: Option<nat>)
    requires lo <= hi <= |names|
    ensures r.Some? ==> lo <= r.value < hi && names[r.value] == symbol && forall i :: lo <= i < r.value ==> names[i] != symbol
    ensures r.None? ==> forall i :: lo <= i < hi ==> names[i] != symbol
    decreases hi - lo
  {
    if lo == hi then None else if names[lo] == symbol then Some(lo) else LinearScan(names, lo + 1, hi, symbol)
  }

  lemma ScanFinds(names: seq<Name>, lo: nat, hi: nat, symbol: Name, i: nat)
    requires lo <= i < hi <= |names| && names[i] == symbol && forall j :: lo <= j < i ==> names[j] != symbol
    ensures LinearScan(names, lo, hi, symbol) == Some(i)
  {}

  // ---- the System V table ----

  datatype SysVTable = SysVTable(names: seq<Name>, bucket: seq<nat>, chain: seq<nat>)

  ghost predicate Closed(chain: seq<nat>) {
    forall k :: 0 <= k < |chain| ==> chain[k] < |chain|
  }

  /** Where n steps along the chain lead. */
  ghost function Along(chain: seq<nat>, i: nat, n: nat): (r: nat)
    requires Closed(chain) && i < |chain|
    ensures r < |chain|
  {
    if n == 0 then i else var j := Along(chain, i, n - 1); chain[j]
  }

  /** Every index is one of the table, and no chain returns to a symbol. */
  ghost predicate SysVSafe(t: SysVTable) {
    && t.bucket != [] && |t.chain| == |t.names| > 0 && Closed(t.chain)
    && (forall b :: 0 <= b < |t.bucket| ==> t.bucket[b] < |t.names|)
    && forall i, n {:trigger Along(t.chain, i, n)} :: 0 < i < |t.chain| && n > 0 ==> Along(t.chain, i, n) != i
  }

  function SysVBucket(t: SysVTable, name: Name): nat
    requires t.bucket != []
  {
    t.bucket[AbiHash(name) % |t.bucket|]
  }

  /** The chain from an index comes to i before it ends at 0. */
  ghost predicate OnChain(t: SysVTable, from: nat, i: nat)
    requires SysVSafe(t) && from < |t.chain|
  {
    exists n :: Along(t.chain, from, n) == i && Unended(t, from, n)
  }

  ghost predicate Unended(t: SysVTable, from: nat, n: nat)
    requires SysVSafe(t) && from < |t.chain|
  {
    forall k :: 0 <= k < n ==> Along(t.chain, from, k) != 0
  }

  /** Every symbol but the first is on the chain of its hash. */
  ghost predicate SysVIndexed(t: SysVTable)
    requires SysVSafe(t)
  {
    forall i :: 0 < i < |t.names| ==> OnChain(t, SysVBucket(t, t.names[i]), i)
  }

  lemma {:induction false} AlongAdd(chain: seq<nat>, i: nat, m: nat, n: nat)
    requires Closed(chain) && i < |chain|
    ensures Along(chain, i, m + n) == Along(chain, Along(chain, i, m), n)
  {
    if n > 0 { AlongAdd(chain, i, m, n - 1); }
  }

  ghost predicate MetBefore(t: SysVTable, from: nat, n: nat, x: nat)
    requires SysVSafe(t) && from < |t.chain|
  {
    exists k :: 0 <= k < n && Along(t.chain, from, k) == x
  }

  /** The symbols met in n steps; no chain meets one twice. */
  lemma {:induction false} Met(t: SysVTable, from: nat, n: nat) returns (s: set<nat>)
    requires SysVSafe(t) && from < |t.chain| && Unended(t, from, n)
    ensures |s| == n && forall x <- s :: 0 < x < |t.chain|
    ensures forall x <- s :: MetBefore(t, from, n, x)
  {
    if n == 0 {
      s := {};
    } else {
      var before := Met(t, from, n - 1);
      var x := Along(t.chain, from, n - 1);
      forall k | 0 <= k < n - 1 ensures Along(t.chain, from, k) != x {
        AlongAdd(t.chain, from, k, n - 1 - k);
      }
      s := before + {x};
      assert MetBefore(t, from, n, x);
    }
  }

  lemma {:induction false} FewBelow(s: set<nat>, n: nat)
    requires forall x <- s :: 0 < x < n
    ensures n > 0 ==> |s| < n
    ensures n == 0 ==> s == {}
  {
    if n <= 1 {
      assert s == {} by { if x :| x in s { assert false; } }
    } else {
      FewBelow(s - {n - 1}, n - 1);
      if n - 1 in s { assert s == (s - {n - 1}) + {n - 1}; } else { assert s == s - {n - 1}; }
    }
  }

  /** A chain without cycles ends in fewer steps than the table has entries. */
  lemma ChainEnds(t: SysVTable, from: nat, n: nat)
    requires SysVSafe(t) && from < |t.chain| && Unended(t, from, n)
    ensures n < |t.chain|
  {
    var s := Met(t, from, n);
    FewBelow(s, |t.chain|);
  }

  /** The first symbol of the name along the chain from i. */
  ghost function Walk(t: SysVTable, i: nat, symbol: Name, fuel: nat): (r: Option<nat>)
    requires SysVSafe(t) && i < |t.chain|
    ensures r.Some? ==> 0 < r.value < |t.names| && t.names[r.value] == symbol
    decreases fuel
  {
    if i == 0 || fuel == 0 then None
    else if t.names[i] == symbol then Some(i)
    else Walk(t, t.chain[i], symbol, fuel - 1)
  }

  /** What a lookup finds: the first of the name on the chain of its hash. */
  ghost function SysVFind(t: SysVTable, symbol: Name): Option<nat>
    requires SysVSafe(t)
  {
    Walk(t, SysVBucket(t, symbol), symbol, |t.chain|)
  }

  /** A walk that has met neither the name nor the end in n steps goes on from where it is. */
  lemma {:induction false} WalkOn(t: SysVTable, from: nat, symbol: Name, n: nat)
    requires SysVSafe(t) && from < |t.chain| && n <= |t.chain| && Unended(t, from, n)
    requires forall k :: 0 <= k < n ==> t.names[Along(t.chain, from, k)] != symbol
    ensures Walk(t, from, symbol, |t.chain|) == Walk(t, Along(t.chain, from, n), symbol, |t.chain| - n)
  {
    if n > 0 {
      WalkOn(t, from, symbol, n - 1);
      assert Along(t.chain, from, n - 1) != 0;
    }
  }

  /** A chain that comes to the name is walked to its first occurrence. */
  lemma {:induction false} WalkMeets(t: SysVTable, from: nat, symbol: Name, n: nat)
    requires SysVSafe(t) && from < |t.chain| && Unended(t, from, n)
    requires Along(t.chain, from, n) != 0 && t.names[Along(t.chain, from, n)] == symbol
    ensures Walk(t, from, symbol, |t.chain|).Some?
    decreases n
  {
    if k :| 0 <= k < n && t.names[Along(t.chain, from, k)] == symbol {
      WalkMeets(t, from, symbol, k);
    } else {
      ChainEnds(t, from, n);
      WalkOn(t, from, symbol, n);
    }
  }

  /** On a complete table a name is found exactly when a scan of the symbols from 1 on finds it. */
  lemma SysVFindComplete(t: SysVTable, symbol: Name)
    requires SysVSafe(t) && SysVIndexed(t)
    ensures SysVFind(t, symbol).Some? <==> LinearScan(t.names, 1, |t.names|, symbol).Some?
  {
    hide AbiHash, Walk, LinearScan;
    var scan := LinearScan(t.names, 1, |t.names|, symbol);
    if scan.Some? {
      var from := SysVBucket(t, symbol);
      assert OnChain(t, SysVBucket(t, t.names[scan.value]), scan.value);
      var n: nat :| Along(t.chain, from, n) == scan.value && Unended(t, from, n);
      WalkMeets(t, from, symbol, n);
    }
  }

  /** xh_elf_hash_lookup. */
  method HashLookup(t: SysVTable, symbol: Name) returns (r: Option<nat>)
    requires SysVSafe(t)
    ensures r == SysVFind(t, symbol)
    ensures r.Some? ==> 0 < r.value < |t.names| && t.names[r.value] == symbol
    ensures SysVIndexed(t) ==> (r.Some? <==> LinearScan(t.names, 1, |t.names|, symbol).Some?)
  {
    hide AbiHash, LinearScan;
    var hash := ElfHash(symbol);
    var i := t.bucket[hash % |t.bucket|];
    ghost var from, n := i, 0;
    while i != 0
      invariant i < |t.chain| && n <= |t.chain| && i == Along(t.chain, from, n) && Unended(t, from, n)
      invariant forall k :: 0 <= k < n ==> t.names[Along(t.chain, from, k)] != symbol
      decreases |t.chain| - n
    {
      assert Unended(t, from, n + 1);
      ChainEnds(t, from, n + 1);
      if symbol == t.names[i] {
        WalkOn(t, from, symbol, n);
        return Some(i);
      }
      n := n + 1;
      i := t.chain[i];
    }
    WalkOn(t, from, symbol, n);
    return None;
  }

  /** The table a linker writes for "ab": its hash 1650 belongs in bucket 0 of 3. */
  lemma SysVFindsAb()
    ensures SysVSafe(SysVTable([[], [97, 98]], [1, 0, 0], [0, 0]))
    ensures SysVFind(SysVTable([[], [97, 98]], [1, 0, 0], [0, 0]), [97, 98]) == Some(1)
  {
    hide AbiHash;
    HashesOfAb();
    var t := SysVTable([[], [97, 98]], [1, 0, 0], [0, 0]);
    forall i, n {:trigger Along(t.chain, i, n)} | 0 < i < 2 && n > 0 ensures Along(t.chain, i, n) != i {
      assert t.chain[Along(t.chain, i, n - 1)] == 0;
    }
    assert SysVBucket(t, [97, 98]) == 1;
  }

  // ---- the GNU table ----

  /** bloomBits is the word size of the bloom filter: 32 or 64. */
  datatype GnuTable = GnuTable(names: seq<Name>, symoffset: nat, bloom: seq<nat>, bloomBits: nat, bloomShift: nat,
                               bucket: seq<nat>, chain: seq<nat>)

  /** The bloom filter's word and its two bits for a hash. */
  function BloomWord(t: GnuTable, h: nat): nat
    requires GnuShape(t)
  {
    t.bloom[h / t.bloomBits % |t.bloom|]
  }

  function FirstBit(t: GnuTable, h: nat): nat
    requires GnuShape(t)
  {
    Pow2(h % t.bloomBits)
  }

  function SecondBit(t: GnuTable, h: nat): nat
    requires GnuShape(t)
  {
    Pow2(h / Pow2(t.bloomShift) % t.bloomBits)
  }

  predicate GnuShape(t: GnuTable) {
    && t.bloom != [] && t.bucket != [] && (t.bloomBits == 32 || t.bloomBits == 64)
    && t.symoffset <= |t.names| && |t.chain| == |t.names| - t.symoffset
  }

  /** The lowest bit of a chain word ends the chain. */
  predicate Last(t: GnuTable, i: nat)
    requires GnuShape(t) && t.symoffset <= i < |t.names|
  {
    t.chain[i - t.symoffset] % 2 == 1
  }

  /** A bucket is empty or starts at a symbol whose chain ends inside the table. */
  ghost predicate GnuSafe(t: GnuTable) {
    && GnuShape(t)
    && forall b :: 0 <= b < |t.bucket| && t.bucket[b] >= t.symoffset ==>
         exists e :: t.bucket[b] <= e < |t.names| && Last(t, e)
  }

  /** Symbol i is in the filter, has its hash in the chain, and the chain of its bucket comes to it. */
  ghost predicate GnuListed(t: GnuTable, i: nat)
    requires GnuShape(t) && t.symoffset <= i < |t.names|
  {
    var h := DjbHash(t.names[i]);
    var start := t.bucket[h % |t.bucket|];
    && And(BloomWord(t, h), FirstBit(t, h)) == FirstBit(t, h)
    && And(BloomWord(t, h), SecondBit(t, h)) == SecondBit(t, h)
    && t.chain[i - t.symoffset] / 2 == h / 2
    && t.symoffset <= start <= i
    && forall k :: start <= k < i ==> !Last(t, k)
  }

  ghost predicate GnuIndexed(t: GnuTable)
    requires GnuShape(t)
  {
    forall i :: t.symoffset <= i < |t.names| ==> GnuListed(t, i)
  }

  lemma AllListed(t: GnuTable, symbol: Name)
    requires GnuShape(t) && GnuIndexed(t)
    ensures forall i :: t.symoffset <= i < |t.names| && t.names[i] == symbol ==> GnuListed(t, i)
  {}

  /** The first symbol of the name from i on, up to the end of the chain. */
  function GnuWalk(t: GnuTable, i: nat, symbol: Name): (r: Option<nat>)
    requires GnuShape(t) && t.symoffset <= i
    ensures r.Some? ==> t.symoffset <= r.value < |t.names| && t.names[r.value] == symbol
    decreases |t.names| - i
  {
    if i >= |t.names| then None
    else if DjbHash(symbol) / 2 == t.chain[i - t.symoffset] / 2 && t.names[i] == symbol then Some(i)
    else if Last(t, i) then None
    else GnuWalk(t, i + 1, symbol)
  }

  predicate InBloom(t: GnuTable, h: nat)
    requires GnuShape(t)
  {
    And(BloomWord(t, h), FirstBit(t, h)) == FirstBit(t, h) && And(BloomWord(t, h), SecondBit(t, h)) == SecondBit(t, h)
  }

  /** The filter lets a hash through when two bits of one of its words are set. */
  lemma InBloomMeans(t: GnuTable, h: nat)
    requires GnuShape(t)
    ensures var word := t.bloom[h / t.bloomBits % |t.bloom|];
      InBloom(t, h) <==> Bit(word, h % t.bloomBits) && Bit(word, h / Pow2(t.bloomShift) % t.bloomBits)
  {
    hide Bit, And, Pow2;
    var word := t.bloom[h / t.bloomBits % |t.bloom|];
    BitTest(word, h % t.bloomBits);
    BitTest(word, h / Pow2(t.bloomShift) % t.bloomBits);
  }

  /** What a lookup of a defined symbol finds. */
  function GnuFindDef(t: GnuTable, symbol: Name): Option<nat>
    requires GnuShape(t)
  {
    var h := DjbHash(symbol);
    var i := t.bucket[h % |t.bucket|];
    if InBloom(t, h) && i >= t.symoffset then GnuWalk(t, i, symbol) else None
  }

  /** What a lookup finds: a defined symbol before an undefined one. */
  function GnuFind(t: GnuTable, symbol: Name): Option<nat>
    requires GnuShape(t)
  {
    if GnuFindDef(t, symbol).Some? then GnuFindDef(t, symbol) else LinearScan(t.names, 0, t.symoffset, symbol)
  }

  /** On a complete table the walk along the bucket's chain is a scan of the defined symbols. */
  lemma {:induction false} WalkScans(t: GnuTable, i: nat, symbol: Name)
    requires GnuShape(t) && GnuIndexed(t)
    requires t.symoffset <= t.bucket[DjbHash(symbol) % |t.bucket|] <= i <= |t.names|
    requires forall k :: t.symoffset <= k < i ==> t.names[k] != symbol
    ensures GnuWalk(t, i, symbol) == LinearScan(t.names, t.symoffset, |t.names|, symbol)
    decreases |t.names| - i
  {
    hide DjbHash, LinearScan, GnuIndexed, FirstBit, SecondBit, BloomWord, And, Pow2;
    AllListed(t, symbol);
    if i < |t.names| {
      if t.names[i] == symbol {
        ScanFinds(t.names, t.symoffset, |t.names|, symbol, i);
      } else if !Last(t, i) {
        WalkScans(t, i + 1, symbol);
      }
    }
  }

  /** On a complete table a lookup of a defined symbol is a scan of the defined symbols. */
  lemma FindDefScans(t: GnuTable, symbol: Name)
    requires GnuShape(t) && GnuIndexed(t)
    ensures GnuFindDef(t, symbol) == LinearScan(t.names, t.symoffset, |t.names|, symbol)
  {
    hide DjbHash, LinearScan, GnuIndexed, FirstBit, SecondBit, BloomWord, And, Pow2;
    AllListed(t, symbol);
    var start := t.bucket[DjbHash(symbol) % |t.bucket|];
    if t.symoffset <= start <= |t.names| && InBloom(t, DjbHash(symbol)) {
      WalkScans(t, start, symbol);
    }
  }

  /** On a complete table a name is found exactly when a scan of all symbols finds it. */
  lemma GnuFindComplete(t: GnuTable, symbol: Name)
    requires GnuShape(t) && GnuIndexed(t)
    ensures GnuFind(t, symbol).Some? <==> LinearScan(t.names, 0, |t.names|, symbol).Some?
    ensures GnuFind(t, symbol).Some? ==> GnuFind(t, symbol).value < |t.names| && t.names[GnuFind(t, symbol).value] == symbol
  {
    hide LinearScan, GnuIndexed, GnuFindDef;
    FindDefScans(t, symbol);
  }

  /** The table a linker writes for "ab" with eight 64-bit filter words: bits 40 and 28 of word 4,
      bucket 2 of 3, and the hash with its lowest bit set at the end of the chain. */
  lemma GnuFindsAb()
    ensures var t := GnuTable([[], [97, 98]], 1, [0, 0, 0, 0, 0x100_1000_0000, 0, 0, 0], 64, 6, [0, 0, 1], [0x597729]);
      GnuShape(t) && GnuFind(t, [97, 98]) == Some(1)
  {
    hide *;
    HashesOfAb();
    AbLookup(GnuTable([[], [97, 98]], 1, [0, 0, 0, 0, 0x100_1000_0000, 0, 0, 0], 64, 6, [0, 0, 1], [0x597729]), [97, 98], 0x597728);
  }

  lemma AbLookup(t: GnuTable, symbol: Name, h: nat)
    requires DjbHash(symbol) == h == 0x597728 && |t.names| == 2 && t.names[1] == symbol && t.symoffset == 1
    requires |t.bloom| == 8 && t.bloom[4] == 0x100_1000_0000 && t.bloomBits == 64 && t.bloomShift == 6
    requires |t.bucket| == 3 && t.bucket[2] == 1 && |t.chain| == 1 && t.chain[0] == 0x597729
    ensures GnuShape(t) && GnuFind(t, symbol) == Some(1)
  {
    hide DjbHash, Bit, Pow2, InBloom, LinearScan;
    AbBits();
    InBloomMeans(t, h);
    assert GnuWalk(t, 1, symbol) == Some(1);
  }

  lemma AbBits()
    ensures Bit(0x100_1000_0000, 40) && Bit(0x100_1000_0000, 28) && Pow2(6) == 64
  {
    Places();
    assert Pow2(12) == 4096;
    Pow2Add(28, 12);
  }

  /** xh_elf_gnu_hash_lookup_def. The lowest bits of the hashes are not compared. */
  method GnuLookupDef(t: GnuTable, symbol: Name) returns (r: Option<nat>)
    requires GnuSafe(t)
    ensures r == GnuFindDef(t, symbol)
    ensures r.Some? ==> t.symoffset <= r.value < |t.names| && t.names[r.value] == symbol
    ensures GnuIndexed(t) ==> r == LinearScan(t.names, t.symoffset, |t.names|, symbol)
  {
    hide DjbHash, LinearScan, And, Or, FirstBit, SecondBit, BloomWord, Pow2, GnuIndexed;
    if GnuIndexed(t) { FindDefScans(t, symbol); }
    var hash := GnuHash(symbol);
    var word := BloomWord(t, hash);
    var mask := Or(FirstBit(t, hash), SecondBit(t, hash));
    MaskSplit(word, FirstBit(t, hash), SecondBit(t, hash));
    if And(word, mask) != mask { return None; }
    var i := t.bucket[hash % |t.bucket|];
    if i < t.symoffset { return None; }
    ghost var start := i;
    ghost var e :| start <= e < |t.names| && Last(t, e);
    while true
      invariant start <= i <= e && GnuWalk(t, start, symbol) == GnuWalk(t, i, symbol)
      decreases e - i
    {
      var symhash := t.chain[i - t.symoffset];
      if hash / 2 == symhash / 2 && symbol == t.names[i] { return Some(i); }
      if symhash % 2 == 1 { break; }
      i := i + 1;
    }
    return None;
  }

  /** xh_elf_gnu_hash_lookup_undef. */
  method GnuLookupUndef(t: GnuTable, symbol: Name) returns (r: Option<nat>)
    requires GnuShape(t)
    ensures r == LinearScan(t.names, 0, t.symoffset, symbol)
  {
    var i := 0;
    while i < t.symoffset
      invariant i <= t.symoffset && LinearScan(t.names, 0, t.symoffset, symbol) == LinearScan(t.names, i, t.symoffset, symbol)
    {
      if t.names[i] == symbol { return Some(i); }
      i := i + 1;
    }
    return None;
  }

  /** xh_elf_gnu_hash_lookup: a defined symbol goes before an undefined one. */
  method GnuLookup(t: GnuTable, symbol: Name) returns (r: Option<nat>)
    requires GnuSafe(t)
    ensures r == GnuFind(t, symbol)
    ensures r.Some? ==> r.value < |t.names| && t.names[r.value] == symbol
    ensures GnuIndexed(t) ==> (r.Some? <==> LinearScan(t.names, 0, |t.names|, symbol).Some?)
    ensures GnuIndexed(t) && LinearScan(t.names, t.symoffset, |t.names|, symbol).Some? ==>
      r == LinearScan(t.names, t.symoffset, |t.names|, symbol)
    ensures GnuIndexed(t) && LinearScan(t.names, t.symoffset, |t.names|, symbol).None? ==>
      r == LinearScan(t.names, 0, t.symoffset, symbol)
  {
    hide LinearScan, GnuIndexed, GnuFindDef;
    r := GnuLookupDef(t, symbol);
    if r.Some? { return; }
    r := GnuLookupUndef(t, symbol);
  }
}
