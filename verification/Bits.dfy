/** Powers of two and bitwise operations on natural numbers. */
module Bits {

  type byte = x: int | 0 <= x < 256

  function Pow2(k: nat): (r: int)
    ensures r >= 1
  {
    if k == 0 then 1 else 2 * Pow2(k - 1)
  }

  lemma {:induction false} Pow2Mono(j: nat, k: nat)
    requires j <= k
    ensures Pow2(j) <= Pow2(k)
  {
    if k == 0 {
    } else if j == k {
    } else {
      Pow2Mono(j, k - 1);
    }
  }

  lemma {:induction false} Pow2Add(j: nat, k: nat)
    ensures Pow2(j + k) == Pow2(j) * Pow2(k)
  {
    if k > 0 {
      Pow2Add(j, k - 1);
      assert Pow2(j + k) == 2 * Pow2(j + (k - 1));
      assert Pow2(j) * (2 * Pow2(k - 1)) == 2 * (Pow2(j) * Pow2(k - 1));
    }
  }

  /** Bitwise or. */
  function Or(a: nat, b: nat): nat
    decreases a + b
  {
    if a == 0 then b else if b == 0 then a
    else (if a % 2 == 1 || b % 2 == 1 then 1 else 0) + 2 * Or(a / 2, b / 2)
  }

  /** Or adds when the second operand starts above the bits of the first. */
  lemma {:induction false} OrAdds(a: nat, k: nat, m: nat)
    requires a < Pow2(k)
    ensures Or(a, m * Pow2(k)) == a + m * Pow2(k)
  {
    if k == 0 {
    } else {
      var p := Pow2(k - 1);
      var b := m * Pow2(k);
      assert b == 2 * (m * p) by { assert m * (2 * p) == 2 * (m * p); }
      assert b / 2 == m * p && b % 2 == 0;
      OrAdds(a / 2, k - 1, m);
    }
  }

  // ---- division with remainder, for either sign of the dividend ----

  lemma MulAtLeast(k: int, d: int)
    requires k >= 1 && d > 0
    ensures k * d >= d
  {}

  lemma MulMinus(a: int, b: int, d: int)
    ensures (a - b) * d == a * d - b * d
  {}

  lemma MulAssoc(a: int, b: int, c: int)
    ensures (a * b) * c == a * (b * c)
  {}

  lemma QuotientUnique(q: int, r: int, q': int, r': int, d: int)
    requires 0 <= r < d && 0 <= r' < d && q * d + r == q' * d + r'
    ensures q == q' && r == r'
  {
    MulMinus(q, q', d);
    MulMinus(q', q, d);
    if q > q' { MulAtLeast(q - q', d); }
    if q < q' { MulAtLeast(q' - q, d); }
  }

  lemma ModUnique(x: int, q: int, d: int, r: int)
    requires d > 0 && x == q * d + r && 0 <= r < d
    ensures x / d == q && x % d == r
  {
    QuotientUnique(x / d, x % d, q, r, d);
  }

  /** The low w bits of x, as an unsigned word. */
  function Word(w: nat, x: int): (r: nat)
    ensures r < Pow2(w)
  {
    if w == 0 then 0 else x % 2 + 2 * Word(w - 1, x / 2)
  }

  /** The word is the remainder modulo 2^w. */
  lemma {:induction false} WordIsRemainder(w: nat, x: int)
    ensures Word(w, x) == x % Pow2(w)
  {
    if w > 0 {
      WordIsRemainder(w - 1, x / 2);
      var d := Pow2(w - 1);
      var q, r := x / 2 / d, x / 2 % d;
      HalfParts(x, q, r, d);
      ModUnique(x, q, 2 * d, x % 2 + 2 * r);
    }
  }

  lemma HalfParts(x: int, q: int, r: int, d: int)
    requires x / 2 == q * d + r && 0 <= r < d
    ensures x == q * (2 * d) + (x % 2 + 2 * r) && x % 2 + 2 * r < 2 * d
  {
    assert q * (2 * d) == 2 * (q * d);
  }

  lemma WordSmall(w: nat, x: nat)
    requires x < Pow2(w)
    ensures Word(w, x) == x
  {
    hide Word;
    WordIsRemainder(w, x);
    ModUnique(x, 0, Pow2(w), x);
  }

  /** Adding a multiple of 2^w changes nothing. */
  lemma WordTurn(w: nat, x: int, k: int)
    ensures Word(w, x + k * Pow2(w)) == Word(w, x)
  {
    hide Word;
    WordIsRemainder(w, x);
    WordIsRemainder(w, x + k * Pow2(w));
    var d := Pow2(w);
    var q, r := x / d, x % d;
    MulMinus(q, -k, d);
    MulMinus(0, k, d);
    ModUnique(x + k * d, q + k, d, r);
  }

  /** Wrapping a summand first makes no difference. */
  lemma WordAdd(w: nat, x: int, y: int)
    ensures Word(w, Word(w, x) + y) == Word(w, x + y)
  {
    hide Word;
    WordIsRemainder(w, x);
    var q, r := x / Pow2(w), x % Pow2(w);
    assert r == Word(w, x) && x == q * Pow2(w) + r;
    WordTurn(w, r + y, q);
  }

  /** Shifting left by s bits in a word of w bits keeps the low w - s bits. */
  lemma ShiftInWord(m: nat, s: nat, w: nat)
    requires s <= w
    ensures Word(w, m * Pow2(s)) == Word(w - s, m) * Pow2(s)
  {
    hide Pow2, Word;
    WordIsRemainder(w, m * Pow2(s));
    WordIsRemainder(w - s, m);
    Pow2Add(w - s, s);
    Scaled(m, Pow2(w - s), Pow2(s));
  }

  lemma Scaled(m: int, d: int, p: int)
    requires d > 0 && p > 0 && d * p > 0
    ensures m * p % (d * p) == (m % d) * p
  {
    var q, r := m / d, m % d;
    ScaledParts(q, r, d, p);
    ModUnique(m * p, q, d * p, r * p);
  }

  lemma ScaledParts(q: int, r: int, d: int, p: int)
    requires 0 <= r < d && p > 0
    ensures (q * d + r) * p == q * (d * p) + r * p && 0 <= r * p < d * p
  {
    MulMinus(q * d, -r, p);
    MulMinus(0, r, p);
    MulAssoc(q, d, p);
    MulMinus(d, r, p);
    MulAtLeast(d - r, p);
    if r > 0 { MulAtLeast(r, p); }
  }

  /** Or works on high and low bits apart. */
  lemma {:induction false} OrParts(a: nat, b: nat, c: nat, d: nat, k: nat)
    requires a < Pow2(k) && b < Pow2(k)
    ensures Or(a + c * Pow2(k), b + d * Pow2(k)) == Or(a, b) + Or(c, d) * Pow2(k)
  {
    hide Or;
    if k == 0 {
      OrZero(0);
    } else {
      var p := Pow2(k - 1);
      Twice(c, p);
      Twice(d, p);
      Twice(Or(c, d), p);
      OrParts(a / 2, b / 2, c, d, k - 1);
      OrDoubled(a, b, c * p, d * p, Or(c, d) * p);
    }
  }

  lemma Twice(c: nat, p: nat)
    ensures c * (2 * p) == 2 * (c * p)
  {}

  lemma OrDoubled(a: nat, b: nat, c: nat, d: nat, e: nat)
    requires Or(a / 2 + c, b / 2 + d) == Or(a / 2, b / 2) + e
    ensures Or(a + 2 * c, b + 2 * d) == Or(a, b) + 2 * e
  {
    assert (a + 2 * c) / 2 == a / 2 + c && (a + 2 * c) % 2 == a % 2;
    assert (b + 2 * d) / 2 == b / 2 + d && (b + 2 * d) % 2 == b % 2;
    OrHalves(a + 2 * c, b + 2 * d);
    OrHalves(a, b);
  }

  lemma OrHalves(a: nat, b: nat)
    ensures Or(a, b) == (if a % 2 == 1 || b % 2 == 1 then 1 else 0) + 2 * Or(a / 2, b / 2)
  {
    OrZero(a / 2);
    OrZero(b / 2);
  }

  lemma OrZero(a: nat)
    ensures Or(a, 0) == a == Or(0, a)
  {}

  // ---- bitwise and, exclusive or ----

  /** Bit k of a number. */
  predicate Bit(a: nat, k: nat) { a / Pow2(k) % 2 == 1 }

  /** Bitwise and. */
  function And(a: nat, b: nat): (r: nat)
    ensures r <= a && r <= b
  {
    if a == 0 || b == 0 then 0
    else (if a % 2 == 1 && b % 2 == 1 then 1 else 0) + 2 * And(a / 2, b / 2)
  }

  /** Bitwise exclusive or. */
  function Xor(a: nat, b: nat): nat
    decreases a + b
  {
    if a == 0 then b else if b == 0 then a
    else (if a % 2 != b % 2 then 1 else 0) + 2 * Xor(a / 2, b / 2)
  }

  lemma AndHalves(a: nat, b: nat)
    ensures And(a, b) == (if a % 2 == 1 && b % 2 == 1 then 1 else 0) + 2 * And(a / 2, b / 2)
  {}

  lemma XorZero(a: nat)
    ensures Xor(a, 0) == a == Xor(0, a)
  {}

  lemma XorHalves(a: nat, b: nat)
    ensures Xor(a, b) == (if a % 2 != b % 2 then 1 else 0) + 2 * Xor(a / 2, b / 2)
  {
    XorZero(a / 2);
    XorZero(b / 2);
  }

  lemma DivDiv(a: int, d: int)
    requires d > 0
    ensures a / (2 * d) == a / 2 / d
  {
    var q, r := a / 2 / d, a / 2 % d;
    HalfParts(a, q, r, d);
    ModUnique(a, q, 2 * d, a % 2 + 2 * r);
  }

  lemma BitHalf(a: nat, k: nat)
    ensures Bit(a, 0) <==> a % 2 == 1
    ensures Bit(a, k + 1) <==> Bit(a / 2, k)
  {
    DivDiv(a, Pow2(k));
  }

  /** Each operation works on every bit by itself. */
  lemma {:induction false} BitwiseAt(a: nat, b: nat, k: nat)
    ensures Bit(And(a, b), k) <==> Bit(a, k) && Bit(b, k)
    ensures Bit(Or(a, b), k) <==> Bit(a, k) || Bit(b, k)
    ensures Bit(Xor(a, b), k) <==> Bit(a, k) != Bit(b, k)
    decreases k
  {
    hide Bit, And, Or, Xor;
    AndHalves(a, b);
    OrHalves(a, b);
    XorHalves(a, b);
    if k == 0 {
      BitHalf(a, 0);
      BitHalf(b, 0);
      BitHalf(And(a, b), 0);
      BitHalf(Or(a, b), 0);
      BitHalf(Xor(a, b), 0);
    } else {
      BitwiseAt(a / 2, b / 2, k - 1);
      BitHalf(a, k - 1);
      BitHalf(b, k - 1);
      BitHalf(And(a, b), k - 1);
      BitHalf(Or(a, b), k - 1);
      BitHalf(Xor(a, b), k - 1);
    }
  }

  /** A number has the bits of a mask exactly when it has those of both parts. */
  lemma {:induction false} MaskSplit(w: nat, a: nat, b: nat)
    ensures And(w, Or(a, b)) == Or(a, b) <==> And(w, a) == a && And(w, b) == b
    decreases a + b
  {
    hide And, Or;
    OrHalves(a, b);
    AndHalves(w, a);
    AndHalves(w, b);
    AndHalves(w, Or(a, b));
    if a == 0 || b == 0 {
      OrZero(a);
      OrZero(b);
      AndNothing(w);
    } else {
      MaskSplit(w / 2, a / 2, b / 2);
    }
  }

  lemma AndNothing(a: nat)
    ensures And(a, 0) == 0 == And(0, a)
  {}

  /** Masking with a power of two tests one bit. */
  lemma {:induction false} BitTest(w: nat, k: nat)
    ensures And(w, Pow2(k)) == Pow2(k) <==> Bit(w, k)
  {
    hide And, Bit;
    AndHalves(w, Pow2(k));
    if k == 0 {
      BitHalf(w, 0);
      AndNothing(w / 2);
    } else {
      BitTest(w / 2, k - 1);
      BitHalf(w, k - 1);
    }
  }

  lemma {:induction false} XorItself(a: nat)
    ensures Xor(a, a) == 0
  {
    if a > 0 { XorItself(a / 2); }
  }

  lemma Pow2Half(k: nat)
    requires k > 0
    ensures Pow2(k) == 2 * Pow2(k - 1)
  {}

  lemma {:induction false} AndOnes(a: nat, k: nat)
    requires a < Pow2(k)
    ensures And(a, Pow2(k) - 1) == a
  {
    hide And, Pow2;
    AndHalves(a, Pow2(k) - 1);
    if k == 0 {
      Pow2Nought();
      AndNothing(0);
    } else {
      Pow2Half(k);
      AndOnes(a / 2, k - 1);
    }
  }

  lemma {:induction false} AndComplement(a: nat, k: nat)
    requires a < Pow2(k)
    ensures And(a, Pow2(k) - 1 - a) == 0
  {
    hide And, Pow2;
    AndHalves(a, Pow2(k) - 1 - a);
    if k == 0 {
      Pow2Nought();
      AndNothing(0);
    } else {
      Pow2Half(k);
      assert (Pow2(k) - 1 - a) / 2 == Pow2(k - 1) - 1 - a / 2;
      AndComplement(a / 2, k - 1);
    }
  }

  lemma {:induction false} XorBelow(a: nat, b: nat, k: nat)
    requires a < Pow2(k) && b < Pow2(k)
    ensures Xor(a, b) < Pow2(k)
  {
    hide Xor;
    XorHalves(a, b);
    if k == 0 {
      XorZero(0);
    } else {
      XorBelow(a / 2, b / 2, k - 1);
    }
  }

  /** Both work on high and low bits apart. */
  lemma {:induction false} AndParts(a: nat, b: nat, c: nat, d: nat, k: nat)
    requires a < Pow2(k) && b < Pow2(k)
    ensures And(a + c * Pow2(k), b + d * Pow2(k)) == And(a, b) + And(c, d) * Pow2(k)
  {
    hide And;
    if k == 0 {
      AndNothing(0);
    } else {
      var p := Pow2(k - 1);
      Twice(c, p);
      Twice(d, p);
      Twice(And(c, d), p);
      AndParts(a / 2, b / 2, c, d, k - 1);
      Doubled(a, c * p);
      Doubled(b, d * p);
      AndHalves(a + 2 * (c * p), b + 2 * (d * p));
      AndHalves(a, b);
    }
  }

  lemma Doubled(a: nat, c: nat)
    ensures (a + 2 * c) / 2 == a / 2 + c && (a + 2 * c) % 2 == a % 2
  {}

  lemma {:induction false} XorParts(a: nat, b: nat, c: nat, d: nat, k: nat)
    requires a < Pow2(k) && b < Pow2(k)
    ensures Xor(a + c * Pow2(k), b + d * Pow2(k)) == Xor(a, b) + Xor(c, d) * Pow2(k)
  {
    hide Xor;
    if k == 0 {
      XorZero(0);
    } else {
      var p := Pow2(k - 1);
      Twice(c, p);
      Twice(d, p);
      Twice(Xor(c, d), p);
      XorParts(a / 2, b / 2, c, d, k - 1);
      Doubled(a, c * p);
      Doubled(b, d * p);
      XorHalves(a + 2 * (c * p), b + 2 * (d * p));
      XorHalves(a, b);
    }
  }

  // ---- words in memory, least significant byte first ----

  function Le(x: nat, n: nat): (s: seq<byte>)
    ensures |s| == n
  {
    if n == 0 then [] else [x % 256] + Le(x / 256, n - 1)
  }

  lemma Pow2Nought()
    ensures Pow2(0) == 1
  {}

  lemma Pow2Eight()
    ensures Pow2(8) == 256
  {}

  function FromLe(s: seq<byte>): nat {
    if s == [] then 0 else s[0] + 256 * FromLe(s[1..])
  }

  lemma {:induction false} LeBack(x: nat, n: nat)
    requires x < Pow2(8 * n)
    ensures FromLe(Le(x, n)) == x
  {
    hide Pow2;
    if n == 0 {
      Pow2Nought();
    } else {
      Pow2Add(8, 8 * (n - 1));
      Pow2Eight();
      LeBack(x / 256, n - 1);
      assert Le(x, n)[1..] == Le(x / 256, n - 1);
    }
  }
}
