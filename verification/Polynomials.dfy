/**
 What the remainder of the checksum is a remainder of: the message, read as a polynomial over the two-element field,
 is divided by the CRC-32 polynomial.
 */
module Polynomials {
  import opened BufferUtils
  import opened Crc

  /** A polynomial over the two-element field: the exponents of its terms. */
  type Polynomial = set<nat>

  /** Terms that occur twice cancel. */
  function Plus(p: Polynomial, q: Polynomial): Polynomial { (p - q) + (q - p) }

  /** The polynomial times x to the power `n`. */
  function Shifted(p: Polynomial, n: nat): Polynomial { set i | i in p :: i + n }

  /** The polynomial with the given coefficients, the highest first. */
  function FromBits(bits: seq<bool>): Polynomial { Product(bits, {0}) }

  /** The product of the polynomial with the given coefficients, the highest first, and `p`. */
  function Product(bits: seq<bool>, p: Polynomial): Polynomial
  {
    if bits == [] then {}
    else Plus(Shifted(Product(bits[..|bits| - 1], p), 1), Scaled(bits[|bits| - 1], p))
  }

  function Scaled(coefficient: bool, p: Polynomial): Polynomial { if coefficient then p else {} }

  /** The coefficient of x^i in a register: the lowest place is that of x^31. */
  predicate Coefficient(w: bv32, i: nat) { i < 32 && BitOf(w, 31 - i) }

  function FromWord(w: bv32): Polynomial { set i: nat | i < 32 && Coefficient(w, i) }

  /** The CRC-32 polynomial. */
  const GENERATOR: Polynomial := {32, 26, 23, 22, 16, 12, 11, 10, 8, 7, 5, 4, 2, 1, 0}

  /** The first `n` bits of the message. */
  function MessageBits(data: seq<Byte>, n: nat): (bits: seq<bool>)
    requires n <= 8 * |data|
    ensures |bits| == n
  {
    if n == 0 then [] else MessageBits(data, n - 1) + [BitAt(data, n - 1)]
  }

  /** The coefficients of the quotient: the divisor is subtracted when a one falls out of the register. */
  function Quotient(c: bv32, data: seq<Byte>, n: nat): (bits: seq<bool>)
    requires n <= 8 * |data|
    ensures |bits| == n
  {
    if n == 0 then [] else Quotient(c, data, n - 1) + [Odd(Divide(c, data, n - 1)) != BitAt(data, n - 1)]
  }

  // ---------- arithmetic of polynomials ----------

  lemma InShifted(p: Polynomial, n: nat, k: nat)
    ensures k in Shifted(p, n) <==> k >= n && k - n in p
  {}

  lemma ShiftPlus(p: Polynomial, q: Polynomial, n: nat)
    ensures Shifted(Plus(p, q), n) == Plus(Shifted(p, n), Shifted(q, n))
  {
    hide Shifted;
    forall k: nat ensures k in Shifted(Plus(p, q), n) <==> k in Plus(Shifted(p, n), Shifted(q, n)) {
      InShifted(Plus(p, q), n, k);
      InShifted(p, n, k);
      InShifted(q, n, k);
    }
  }

  lemma ShiftTwice(p: Polynomial, m: nat, n: nat)
    ensures Shifted(Shifted(p, m), n) == Shifted(p, m + n)
  {
    hide Shifted;
    forall k: nat ensures k in Shifted(Shifted(p, m), n) <==> k in Shifted(p, m + n) {
      InShifted(Shifted(p, m), n, k);
      if k >= n { InShifted(p, m, k - n); }
      InShifted(p, m + n, k);
    }
  }

  lemma PlusRules(a: Polynomial, b: Polynomial, c: Polynomial)
    ensures Plus(a, b) == Plus(b, a) && Plus(Plus(a, b), c) == Plus(a, Plus(b, c))
  {}

  /** The sum of two sums, regrouped. */
  lemma PlusFour(a: Polynomial, b: Polynomial, c: Polynomial, d: Polynomial)
    ensures Plus(Plus(a, b), Plus(c, d)) == Plus(Plus(a, c), Plus(b, d))
  {}

  lemma ScaledPlus(x: bool, y: bool, p: Polynomial)
    ensures Plus(Scaled(x, p), Scaled(y, p)) == Scaled(x != y, p)
  {}

  // ---------- registers as polynomials ----------

  lemma {:induction false} BitOfXor(a: bv32, b: bv32, i: nat)
    ensures BitOf(Xor(a, b), i) == (BitOf(a, i) != BitOf(b, i))
    decreases i
  {
    hide Xor, Odd, Half;
    if i == 0 {
      OddXor(a, b);
    } else {
      HalfXor(a, b);
      BitOfXor(Half(a), Half(b), i - 1);
    }
  }

  lemma WordPlus(a: bv32, b: bv32)
    ensures FromWord(Xor(a, b)) == Plus(FromWord(a), FromWord(b))
  {
    hide Xor, BitOf;
    forall i: nat | i < 32 ensures Coefficient(Xor(a, b), i) == (Coefficient(a, i) != Coefficient(b, i)) {
      BitOfXor(a, b, 31 - i);
    }
  }

  lemma NoTop(w: bv32)
    ensures !BitOf(Half(w), 31)
  {
    hide BitOf, Half, Odd;
    hide Halves, Top;
    HalvesBit(Half(w), 31);
    ThirtyOneHalves(Half(w));
    HalfTop(w);
  }

  lemma HalfTop(w: bv32)
    ensures !Odd(Top(Half(w)))
  {}

  /** Moving the register one place is multiplying by x; the term that falls out is x^32. */
  lemma HalfShifts(w: bv32)
    ensures Shifted(FromWord(w), 1) == Plus(FromWord(Half(w)), Scaled(Odd(w), {32}))
  {
    hide Half, Odd, Shifted;
    NoTop(w);
    assert BitOf(w, 0) == Odd(w);
    forall k: nat
      ensures k in Shifted(FromWord(w), 1) <==> k in Plus(FromWord(Half(w)), Scaled(Odd(w), {32}))
    {
      InShifted(FromWord(w), 1, k);
      if 1 <= k < 32 {
        assert Coefficient(Half(w), k) == Coefficient(w, k - 1);
      } else if k == 32 {
        assert Coefficient(w, 31) == Odd(w);
      }
    }
  }

  lemma {:induction false} BitOfHalves(w: bv32, m: nat, i: nat)
    ensures BitOf(w, m + i) == BitOf(Halves(w, m), i)
  {
    hide Odd, Half;
    HalvesBit(w, m + i);
    HalvesBit(Halves(w, m), i);
    HalvesMore(w, m, i);
  }

  lemma LowBits(w: bv32)
    ensures BitOf(w, 0) == (w & 1 == 1) && BitOf(w, 1) == (w & 2 == 2) && BitOf(w, 2) == (w & 4 == 4)
    ensures BitOf(w, 3) == (w & 8 == 8) && BitOf(w, 4) == (w & 16 == 16) && BitOf(w, 5) == (w & 32 == 32)
    ensures BitOf(w, 6) == (w & 64 == 64) && BitOf(w, 7) == (w & 128 == 128)
  {
    HalvesBit(w, 1);
    HalvesBit(w, 2);
    HalvesBit(w, 3);
    HalvesBit(w, 4);
    HalvesBit(w, 5);
    HalvesBit(w, 6);
    HalvesBit(w, 7);
  }

  lemma HalvesOfGenerator()
    ensures Halves(POLYNOMIAL, 8) == 0xedb883 && Halves(POLYNOMIAL, 16) == 0xedb8 && Halves(POLYNOMIAL, 24) == 0xed
  {
    HalvesMore(POLYNOMIAL, 8, 8);
    HalvesMore(POLYNOMIAL, 16, 8);
    EightHalves(POLYNOMIAL);
    EightHalves(0xedb883);
    EightHalves(0xedb8);
    hide Halves;
  }

  /** The places below 8 at which a word has a one. */
  function Places(w: bv32): set<nat> { set i: nat | i < 8 && BitOf(w, i) }

  lemma LowPlaces()
    ensures Places(0xedb88320) == {5} && Places(0xedb883) == {0, 1, 7}
  {
    LowBits(0xedb88320);
    LowBits(0xedb883);
    hide BitOf;
  }

  lemma HighPlaces()
    ensures Places(0xedb8) == {3, 4, 5, 7} && Places(0xed) == {0, 2, 3, 5, 6, 7}
  {
    LowBits(0xedb8);
    LowBits(0xed);
    hide BitOf;
  }

  /** The register constant is the CRC-32 polynomial without its highest term. */
  lemma GeneratorWord()
    ensures GENERATOR == Plus({32}, FromWord(POLYNOMIAL))
  {
    hide BitOf, Places, Halves;
    forall i: nat | i < 32 ensures Coefficient(POLYNOMIAL, i) <==> i in GENERATOR {
      GeneratorBit(31 - i);
    }
  }

  lemma GeneratorBit(k: nat)
    requires k < 32
    ensures BitOf(POLYNOMIAL, k) <==> 31 - k in GENERATOR
  {
    LowPlaces();
    HighPlaces();
    HalvesOfGenerator();
    assert Halves(POLYNOMIAL, 0) == POLYNOMIAL;
    var m := if k < 8 then 0 else if k < 16 then 8 else if k < 24 then 16 else 24;
    PlaceOf(Halves(POLYNOMIAL, m), k - m);
    BitOfHalves(POLYNOMIAL, m, k - m);
    hide BitOf, Places, Halves;
  }

  lemma PlaceOf(w: bv32, i: nat)
    requires i < 8
    ensures BitOf(w, i) <==> i in Places(w)
  {}

  // ---------- the division ----------

  /**
   One step of the division: the register times x, plus the next bit times x^32, less the divisor if a one falls out.
   */
  lemma RegisterStep(r: bv32, bit: bool)
    ensures Plus(Shifted(FromWord(r), 1), Scaled(bit, {32}))
         == Plus(Scaled(Odd(r) != bit, GENERATOR), FromWord(DivideBit(r, bit)))
  {
    hide Odd, Half, FromWord, Shifted;
    HalfShifts(r);
    GeneratorWord();
    WordPlus(POLYNOMIAL, Half(r));
    var h, p := FromWord(Half(r)), FromWord(POLYNOMIAL);
    PlusRules(h, Scaled(Odd(r), {32}), Scaled(bit, {32}));
    ScaledPlus(Odd(r), bit, {32});
    PlusRules(h, {32}, {});
    StepRules(h, p);
  }

  lemma StepRules(h: Polynomial, p: Polynomial)
    ensures Plus(h, {32}) == Plus(Plus({32}, p), Plus(p, h)) && Plus(h, {}) == Plus({}, h) == h
  {}

  /**
   The equation of a division with remainder: the message times x^32, with `c` added to its first 32 bits, is the
   quotient times the CRC-32 polynomial plus `r`, which as a word has degree below 32.
   */
  predicate IsDivision(c: bv32, data: seq<Byte>, quotient: seq<bool>, r: bv32)
  {
    && |quotient| == 8 * |data|
    && Plus(Shifted(FromBits(MessageBits(data, 8 * |data|)), 32), Shifted(FromWord(c), 8 * |data|))
       == Plus(Product(quotient, GENERATOR), FromWord(r))
  }

  /** After any number of bits the register satisfies the equation of the division so far. */
  lemma {:induction false} DivisionIdentity(c: bv32, data: seq<Byte>, n: nat)
    requires n <= 8 * |data|
    ensures Plus(Shifted(FromBits(MessageBits(data, n)), 32), Shifted(FromWord(c), n))
         == Plus(Product(Quotient(c, data, n), GENERATOR), FromWord(Divide(c, data, n)))
  {
    hide Plus, Shifted, FromWord, Scaled, Odd, DivideBit, BitAt, Product;
    if n == 0 {
      NothingDivided(c);
      assert Product([], {0}) == {} && Product([], GENERATOR) == {} by { hide *; NoProduct(); }
    } else {
      DivisionIdentity(c, data, n - 1);
      var r, bit := Divide(c, data, n - 1), BitAt(data, n - 1);
      var m, q := FromBits(MessageBits(data, n - 1)), Product(Quotient(c, data, n - 1), GENERATOR);
      ProductStep(MessageBits(data, n - 1), bit, {0});
      ProductStep(Quotient(c, data, n - 1), Odd(r) != bit, GENERATOR);
      MessageStep(m, FromWord(c), bit, n - 1);
      QuotientStep(q, r, bit);
    }
  }

  lemma ProductStep(bits: seq<bool>, bit: bool, p: Polynomial)
    ensures Product(bits + [bit], p) == Plus(Shifted(Product(bits, p), 1), Scaled(bit, p))
  {
    assert (bits + [bit])[..|bits|] == bits;
  }

  /** One more bit of the quotient. */
  lemma QuotientStep(q: Polynomial, r: bv32, bit: bool)
    ensures Plus(Shifted(Plus(q, FromWord(r)), 1), Scaled(bit, {32}))
         == Plus(Plus(Shifted(q, 1), Scaled(Odd(r) != bit, GENERATOR)), FromWord(DivideBit(r, bit)))
  {
    hide Plus, Shifted, FromWord, Scaled, Odd, DivideBit;
    RegisterStep(r, bit);
    ShiftPlus(q, FromWord(r), 1);
    PlusRules(Shifted(q, 1), Shifted(FromWord(r), 1), Scaled(bit, {32}));
    PlusRules(Shifted(q, 1), Scaled(Odd(r) != bit, GENERATOR), FromWord(DivideBit(r, bit)));
  }

  lemma NoProduct()
    ensures forall p :: Product([], p) == {}
  {}

  lemma NothingDivided(c: bv32)
    ensures Plus(Shifted({}, 32), Shifted(FromWord(c), 0)) == Plus({}, FromWord(c))
  {}

  /** One more bit of the message. */
  lemma MessageStep(m: Polynomial, c: Polynomial, bit: bool, n: nat)
    ensures Plus(Shifted(Plus(Shifted(m, 1), Scaled(bit, {0})), 32), Shifted(c, n + 1))
         == Plus(Shifted(Plus(Shifted(m, 32), Shifted(c, n)), 1), Scaled(bit, {32}))
  {
    hide Plus, Shifted;
    var s, t := Shifted(m, 33), Shifted(c, n + 1);
    ShiftPlus(Shifted(m, 1), Scaled(bit, {0}), 32);
    ShiftPlus(Shifted(m, 32), Shifted(c, n), 1);
    ShiftTwice(m, 1, 32);
    ShiftTwice(m, 32, 1);
    ShiftTwice(c, n, 1);
    ShiftUnit(bit);
    PlusRules(s, Scaled(bit, {32}), t);
    PlusRules(Scaled(bit, {32}), t, {});
    PlusRules(s, t, Scaled(bit, {32}));
  }

  lemma ShiftUnit(bit: bool)
    ensures Shifted(Scaled(bit, {0}), 32) == Scaled(bit, {32})
  {}

  // ---------- the remainder is the only one ----------

  lemma {:induction false} ProductPlus(a: seq<bool>, b: seq<bool>, p: Polynomial)
    requires |a| == |b|
    ensures Product(seq(|a|, i requires 0 <= i < |a| => a[i] != b[i]), p) == Plus(Product(a, p), Product(b, p))
  {
    hide Plus, Shifted, Scaled;
    var n := |a|;
    var d := seq(n, i requires 0 <= i < n => a[i] != b[i]);
    if n == 0 {
      assert Plus({}, {}) == {} by { hide *; PlusEmpty(); }
    } else {
      ProductPlus(a[..n - 1], b[..n - 1], p);
      assert d[..n - 1] == seq(n - 1, i requires 0 <= i < n - 1 => a[..n - 1][i] != b[..n - 1][i]);
      var x, y := Product(a[..n - 1], p), Product(b[..n - 1], p);
      ShiftPlus(x, y, 1);
      ScaledPlus(a[n - 1], b[n - 1], p);
      PlusFour(Shifted(x, 1), Shifted(y, 1), Scaled(a[n - 1], p), Scaled(b[n - 1], p));
    }
  }

  lemma PlusEmpty()
    ensures Plus({}, {}) == {}
  {}

  predicate High(p: Polynomial) { exists k :: k in p && k >= 32 }

  predicate AllZero(bits: seq<bool>) { forall i :: 0 <= i < |bits| ==> !bits[i] }

  /** A multiple of the divisor other than zero has a term of degree at least 32. */
  lemma {:induction false} MultipleIsHigh(bits: seq<bool>)
    ensures AllZero(bits) || High(Product(bits, GENERATOR))
    ensures AllZero(bits) ==> Product(bits, GENERATOR) == {}
  {
    hide High, AllZero;
    if bits == [] {
      assert AllZero(bits) by { hide *; Zeros([], false); }
    } else {
      var n := |bits|;
      MultipleIsHigh(bits[..n - 1]);
      Zeros(bits[..n - 1], bits[n - 1]);
      assert bits == bits[..n - 1] + [bits[n - 1]];
      StaysHigh(Product(bits[..n - 1], GENERATOR), bits[n - 1]);
    }
  }

  lemma Zeros(bits: seq<bool>, bit: bool)
    ensures AllZero([]) && (AllZero(bits + [bit]) <==> AllZero(bits) && !bit)
  {
    assert AllZero(bits + [bit]) ==> !(bits + [bit])[|bits|];
    forall i | 0 <= i < |bits| && AllZero(bits + [bit]) ensures !bits[i] { assert !(bits + [bit])[i]; }
  }

  lemma StaysHigh(p: Polynomial, bit: bool)
    ensures High(p) ==> High(Plus(Shifted(p, 1), Scaled(bit, GENERATOR)))
    ensures p == {} ==> Plus(Shifted(p, 1), Scaled(bit, GENERATOR)) == Scaled(bit, GENERATOR)
    ensures High(GENERATOR)
  {
    assert 32 in GENERATOR;
    if High(p) {
      var k :| k in p && k >= 32;
      InShifted(p, 1, k + 1);
      assert k + 1 in Plus(Shifted(p, 1), Scaled(bit, GENERATOR));
    }
  }

  lemma WordDegree(w: bv32, v: bv32)
    ensures forall k :: k in Plus(FromWord(w), FromWord(v)) ==> k < 32
    ensures FromWord(w) == FromWord(v) ==> w == v
  {
    if FromWord(w) == FromWord(v) {
      forall i: nat | i < 32 ensures BitOf(w, i) == BitOf(v, i) {
        assert 31 - i in FromWord(w) <==> 31 - i in FromWord(v);
      }
      AllHalves(w);
      AllHalves(v);
      SameBits(w, v, 32);
    }
  }

  lemma AllHalves(w: bv32)
    ensures Halves(w, 32) == 0
  {
    hide Halves, Half, Top;
    ThirtyOneHalves(w);
    HalvesStep(w);
    HalfOfTop(w);
  }

  lemma HalfOfTop(w: bv32)
    ensures Half(Top(w)) == 0
  {}

  lemma HalvesStep(w: bv32)
    ensures Halves(w, 32) == Half(Halves(w, 31))
  {}

  /** Whatever quotient and word satisfy the equation of the division: the word is the register. */
  lemma RemainderUnique(c: bv32, data: seq<Byte>, quotient: seq<bool>, r: bv32)
    requires IsDivision(c, data, quotient, r)
    ensures r == Divide(c, data, 8 * |data|) && quotient == Quotient(c, data, 8 * |data|)
  {
    hide Plus, Shifted, FromWord, FromBits, Product, Divide, High, AllZero;
    var n := 8 * |data|;
    var q, s := Quotient(c, data, n), Divide(c, data, n);
    DivisionIdentity(c, data, n);
    var d := seq(n, i requires 0 <= i < n => quotient[i] != q[i]);
    ProductPlus(quotient, q, GENERATOR);
    Cancel(Product(quotient, GENERATOR), FromWord(r), Product(q, GENERATOR), FromWord(s));
    MultipleIsHigh(d);
    WordDegree(r, s);
    assert !High(Product(d, GENERATOR)) by { hide *; NotHigh(r, s); }
    Zero(FromWord(r), FromWord(s));
    NoDifference(quotient, q);
  }

  lemma NotHigh(r: bv32, s: bv32)
    ensures !High(Plus(FromWord(r), FromWord(s)))
  {}

  lemma NoDifference(a: seq<bool>, b: seq<bool>)
    requires |a| == |b| && AllZero(seq(|a|, i requires 0 <= i < |a| => a[i] != b[i]))
    ensures a == b
  {
    var d := seq(|a|, i requires 0 <= i < |a| => a[i] != b[i]);
    forall i | 0 <= i < |a| ensures a[i] == b[i] { assert !d[i]; }
  }

  lemma Cancel(a: Polynomial, r: Polynomial, b: Polynomial, s: Polynomial)
    requires Plus(a, r) == Plus(b, s)
    ensures Plus(a, b) == Plus(r, s)
  {
    forall k: nat ensures k in Plus(a, b) <==> k in Plus(r, s) {
      assert k in Plus(a, r) <==> k in Plus(b, s);
    }
  }

  lemma Zero(r: Polynomial, s: Polynomial)
    ensures Plus(r, s) == {} ==> r == s
  {
    if Plus(r, s) == {} { assert forall k :: k in r <==> k in s; }
  }

  /**
   The checksum is the complement of the remainder of the message with its first 32 bits complemented, and of no
   other.
   */
  lemma CrcIsRemainder(data: seq<Byte>, r: bv32)
    ensures (exists quotient :: IsDivision(ALL_ONES, data, quotient, r)) <==> Crc32Of(data) == Xor(r, ALL_ONES) as int
  {
    hide IsDivision, Divide, Xor;
    var n := 8 * |data|;
    var s := Divide(ALL_ONES, data, n);
    CrcIsPolynomialDivision(data);
    assert IsDivision(ALL_ONES, data, Quotient(ALL_ONES, data, n), s) by { hide *; RegisterDividesMessage(data); }
    if quotient :| IsDivision(ALL_ONES, data, quotient, r) { RemainderUnique(ALL_ONES, data, quotient, r); }
    if Crc32Of(data) == Xor(r, ALL_ONES) as int {
      WordInt(Xor(r, ALL_ONES));
      WordInt(Xor(s, ALL_ONES));
      XorCancels(r, s, ALL_ONES);
    }
  }

  lemma RegisterDividesMessage(data: seq<Byte>)
    ensures var n := 8 * |data|; IsDivision(ALL_ONES, data, Quotient(ALL_ONES, data, n), Divide(ALL_ONES, data, n))
  {
    DivisionIdentity(ALL_ONES, data, 8 * |data|);
  }
}
