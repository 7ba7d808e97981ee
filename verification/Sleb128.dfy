/** The SLEB128 decoder of xh_elf.c (section 7.6 of DWARF Version 4). */
module Sleb128 {
  import opened Bits
  import opened Wrappers

  /** How many bytes the value at the front of s takes, if it ends. */
  function Span(s: seq<byte>): (n: Option<nat>)
    ensures n.Some? ==> 0 < n.value <= |s| && s[n.value - 1] < 128 && forall i :: 0 <= i < n.value - 1 ==> s[i] >= 128
    ensures n.None? ==> forall i :: 0 <= i < |s| ==> s[i] >= 128
  {
    if s == [] then None
    else if s[0] < 128 then Some(1)
    else match Span(s[1..]) case None => None case Some(n) => Some(n + 1)
  }

  /** The unsigned value of the 7-bit groups, least significant first. */
  ghost function Groups(s: seq<byte>): (r: nat)
  {
    if s == [] then 0 else s[0] % 128 + 128 * Groups(s[1..])
  }

  lemma Pow7(n: nat)
    ensures Pow2(7 * (n + 1)) == 128 * Pow2(7 * n)
  {
    Pow2Add(7, 7 * n);
    assert Pow2(7) == 128;
  }

  lemma {:induction false} GroupsBound(s: seq<byte>)
    ensures Groups(s) < Pow2(7 * |s|)
  {
    if s != [] {
      GroupsBound(s[1..]);
      Pow7(|s| - 1);
    }
  }

  lemma {:induction false} GroupsSnoc(s: seq<byte>, b: byte)
    ensures Groups(s + [b]) == Groups(s) + (b % 128) * Pow2(7 * |s|)
  {
    if s == [] {
      assert s + [b] == [b] && [b][1..] == [];
    } else {
      assert (s + [b])[1..] == s[1..] + [b];
      GroupsSnoc(s[1..], b);
      Pow7(|s| - 1);
      var p := Pow2(7 * (|s| - 1));
      assert 128 * ((b % 128) * p) == (b % 128) * (128 * p);
    }
  }

  /** The signed value of an encoded number: bit 6 of the last byte is the sign. */
  ghost function Signed(s: seq<byte>): int
    requires s != []
  {
    Groups(s) - if s[|s| - 1] / 64 % 2 == 1 then Pow2(7 * |s|) else 0
  }

  /** The word sizes the reader is compiled for. */
  ghost predicate WordSize(w: nat) {
    w == 32 || w == 64
  }

  /** An encoding of at most this many bytes shifts by less than the word size. */
  function MaxBytes(w: nat): nat {
    (w + 6) / 7
  }

  /** One more group, while the groups so far fit below the shift. */
  lemma OneMore(w: nat, s: seq<byte>, b: byte)
    requires 7 * |s| < w
    ensures Word(w, Groups(s)) == Groups(s) < Pow2(7 * |s|)
    ensures Word(w, Groups(s) + (b % 128) * Pow2(7 * |s|)) == Word(w, Groups(s + [b]))
  {
    hide Groups, Pow2, Word;
    GroupsSnoc(s, b);
    SmallGroups(w, s);
  }

  lemma SmallGroups(w: nat, s: seq<byte>)
    requires 7 * |s| < w
    ensures Word(w, Groups(s)) == Groups(s) < Pow2(7 * |s|)
  {
    hide Groups, Pow2, Word;
    GroupsBound(s);
    Pow2Mono(7 * |s|, w);
    WordSmall(w, Groups(s));
  }

  /** Setting every bit from shift upwards subtracts 2^shift. */
  lemma Extended(w: nat, value: nat, shift: nat)
    requires shift < w && value < Pow2(shift)
    ensures Pow2(shift) <= Pow2(w)
    ensures Or(value, Pow2(w) - Pow2(shift)) == Word(w, value - Pow2(shift))
  {
    hide Or, Pow2, Word;
    var m, p := Pow2(w - shift) - 1, Pow2(shift);
    Pow2Add(w - shift, shift);
    MulMinus(Pow2(w - shift), 1, p);
    OrAdds(value, shift, m);
    Pow2Mono(shift, w);
    WordTurn(w, value - p, 1);
    WordSmall(w, value - p + Pow2(w));
  }

  /** Past the word size the sign no longer matters. */
  lemma NoSignLeft(w: nat, g: int, shift: nat)
    requires shift >= w
    ensures Word(w, g - Pow2(shift)) == Word(w, g)
  {
    hide Pow2, Word;
    Pow2Add(shift - w, w);
    MulMinus(0, Pow2(shift - w), Pow2(w));
    WordTurn(w, g, -Pow2(shift - w));
  }

  /** xh_elf_sleb128_decoder_t: a cursor over the section. */
  class Decoder {
    const w: nat
    const data: seq<byte>
    var cur: nat

    constructor (w: nat, data: seq<byte>)
      requires WordSize(w)
      ensures this.w == w && this.data == data && cur == 0
    {
      this.w, this.data, cur := w, data, 0;
    }

    /** xh_elf_sleb128_decoder_next. */
    method Next() returns (ret: Option<nat>)
      requires WordSize(w) && cur <= |data|
      modifies this
      ensures old(cur) <= cur <= |data|
      ensures ret.None? <==> Span(data[old(cur)..]).None?
      ensures ret.None? ==> cur == |data|
      ensures ret.Some? ==> cur == old(cur) + Span(data[old(cur)..]).value && ret.value < Pow2(w)
      ensures ret.Some? && cur - old(cur) <= MaxBytes(w) ==> ret.value == Word(w, Signed(data[old(cur)..cur]))
    {
      hide Groups, Pow2, Span, Or, Word, Signed;
      ghost var start := cur;
      var value: nat, shift: nat := 0, 0;
      var b: byte := 128;
      assert data[start..start] == [];
      SmallGroups(w, []);
      Zero();
      while b >= 128
        invariant start <= cur <= |data| && shift == 7 * (cur - start) && value < Pow2(w)
        invariant if cur == start then b == 128 else b == data[cur - 1]
        invariant forall i :: start <= i < cur - 1 ==> data[i] >= 128
        invariant cur - start <= MaxBytes(w) ==> value == Word(w, Groups(data[start..cur]))
        decreases |data| - cur, b
      {
        if cur >= |data| {
          Unended(data[start..]);
          return None;
        }
        ghost var before := data[start..cur];
        b := data[cur];
        cur := cur + 1;
        assert data[start..cur] == before + [b];
        if cur - start <= MaxBytes(w) { OneMore(w, before, b); }
        value := OrShifted(w, value, b % 128, shift);
        shift := shift + 7;
      }
      ghost var s := data[start..cur];
      Ended(data[start..], cur - start);
      SignExtended(w, s);
      if shift < w && b / 64 % 2 == 1 {
        value := Or(value, Pow2(w) - Pow2(shift));
      }
      return Some(value);
    }
  }

  /** The last step: the sign is extended if there is room above the groups, and cannot matter otherwise. */
  lemma SignExtended(w: nat, s: seq<byte>)
    requires s != []
    ensures var shift := 7 * |s|;
      if shift < w && s[|s| - 1] / 64 % 2 == 1
      then Pow2(shift) <= Pow2(w) && Or(Word(w, Groups(s)), Pow2(w) - Pow2(shift)) == Word(w, Signed(s))
      else Word(w, Groups(s)) == Word(w, Signed(s))
  {
    hide Groups, Pow2, Or, Word;
    var shift := 7 * |s|;
    if shift < w {
      SmallGroups(w, s);
      Extended(w, Groups(s), shift);
    } else {
      NoSignLeft(w, Groups(s), shift);
    }
  }

  lemma Zero()
    ensures Groups([]) == 0
  {}

  lemma {:induction false} Unended(s: seq<byte>)
    requires forall i :: 0 <= i < |s| - 1 ==> s[i] >= 128
    requires s != [] ==> s[|s| - 1] >= 128
    ensures Span(s).None?
  {
    if s != [] { Unended(s[1..]); }
  }

  lemma {:induction false} Ended(s: seq<byte>, n: nat)
    requires 0 < n <= |s| && s[n - 1] < 128 && forall i :: 0 <= i < n - 1 ==> s[i] >= 128
    ensures Span(s) == Some(n)
  {
    if n > 1 { Ended(s[1..], n - 1); }
  }

  /** value |= (size_t)bits << shift. A shift by the word size or more is undefined in C: the
      result is then some word. */
  method OrShifted(w: nat, value: nat, bits: nat, shift: nat) returns (r: nat)
    requires value < Pow2(w)
    ensures r < Pow2(w)
    ensures shift < w && value < Pow2(shift) ==> r == Word(w, value + bits * Pow2(shift))
  {
    hide Pow2, Or, Word;
    if shift >= w {
      assert 0 <= 0 < Pow2(w);
      r :| 0 <= r < Pow2(w);
    } else {
      r := Word(w, Or(value, Word(w, bits * Pow2(shift))));
      if value < Pow2(shift) { OrInWord(w, value, bits, shift); }
    }
  }

  lemma OrInWord(w: nat, value: nat, bits: nat, shift: nat)
    requires shift < w && value < Pow2(shift)
    ensures Word(w, Or(value, Word(w, bits * Pow2(shift)))) == Word(w, value + bits * Pow2(shift))
  {
    hide Pow2, Or, Word;
    ShiftInWord(bits, shift, w);
    OrAdds(value, shift, Word(w - shift, bits));
    WordAdd(w, bits * Pow2(shift), value);
  }

  // ---- the inverse: encoding ----

  /** The shortest encoding of v. */
  function Encode(v: int): (s: seq<byte>)
    ensures s != []
    decreases if v < 0 then -v else v
  {
    var b, rest := v % 128, v / 128;
    if rest == (if b < 64 then 0 else -1) then [b] else [b + 128] + Encode(rest)
  }

  lemma {:induction false} EncodeSigned(v: int)
    ensures Signed(Encode(v)) == v
    decreases if v < 0 then -v else v
  {
    hide Signed;
    var b, rest := v % 128, v / 128;
    if rest == (if b < 64 then 0 else -1) {
      SignedOne(b);
    } else {
      EncodeSigned(rest);
      SignedCons(b + 128, Encode(rest));
    }
  }

  lemma SignedOne(b: byte)
    requires b < 128
    ensures Signed([b]) == if b < 64 then b else b - 128
  {
    assert [b][1..] == [];
    assert Groups([b]) == b;
    assert Pow2(7 * |[b]|) == 128 by { assert Pow2(7) == 128; }
  }

  lemma SignedCons(b: byte, s: seq<byte>)
    requires s != []
    ensures Signed([b] + s) == b % 128 + 128 * Signed(s)
  {
    hide Pow2;
    assert ([b] + s)[1..] == s;
    Pow7(|s|);
  }

  /** The encoding ends where it should, whatever follows. */
  lemma {:induction false} EncodeSpan(v: int, rest: seq<byte>)
    ensures Span(Encode(v) + rest) == Some(|Encode(v)|)
    decreases if v < 0 then -v else v
  {
    var b, high := v % 128, v / 128;
    if high != (if b < 64 then 0 else -1) {
      EncodeSpan(high, rest);
      assert (Encode(v) + rest)[1..] == Encode(high) + rest;
    }
  }

  /** A number of 7n bits takes at most n bytes. */
  lemma {:induction false} EncodeLength(v: int, n: nat)
    requires n > 0 && -Pow2(7 * n - 1) <= v < Pow2(7 * n - 1)
    ensures |Encode(v)| <= n
    decreases n
  {
    hide Pow2;
    var b, rest := v % 128, v / 128;
    if n == 1 {
      Pow2Six();
    } else if rest != (if b < 64 then 0 else -1) {
      Pow2Seven(7 * (n - 1) - 1);
      EncodeLength(rest, n - 1);
    }
  }

  lemma Pow2Six()
    ensures Pow2(6) == 64
  {}

  lemma Pow2Seven(k: nat)
    ensures Pow2(7 + k) == 128 * Pow2(k)
  {
    Pow2Add(7, k);
    assert Pow2(7) == 128;
  }

  /** Every signed word is encoded within the decoder's bound, and read back as itself. */
  lemma EncodeFits(w: nat, v: int)
    requires WordSize(w) && -Pow2(w - 1) <= v < Pow2(w - 1)
    ensures |Encode(v)| <= MaxBytes(w)
  {
    hide Encode, Pow2;
    Pow2Mono(w - 1, 7 * MaxBytes(w) - 1);
    EncodeLength(v, MaxBytes(w));
  }
}
