/**
 The CRC-32 of section 8 of RFC 1952 (src/utils/bufferUtils.ts).

 Three layers: the program's table-driven loop, the register that takes eight steps a byte
 (`Register`), and the reference definition that divides the message polynomial by the CRC polynomial
 one bit at a time (`Divide`). The last part proves which corruptions the checksum cannot miss.

 Words are added with `Xor` and shifted with named functions, so that most proofs can hide what these
 do to bits and use only their algebra.
 */
module Crc {
  import opened BufferUtils

  // ---------- words ----------

  function Xor(a: bv32, b: bv32): bv32 { a ^ b }

  function Half(a: bv32): bv32 { a >> 1 }

  predicate Odd(a: bv32) { a & 1 == 1 }

  function Up(a: bv32): bv32 { a << 8 }

  function Down(a: bv32): bv32 { a >> 8 }

  function Low(a: bv32): bv32 { a & 0xff }

  lemma XorAssoc(a: bv32, b: bv32, c: bv32)
    ensures Xor(Xor(a, b), c) == Xor(a, Xor(b, c))
  {
    assert (a ^ b) ^ c == a ^ (b ^ c);
  }

  lemma XorComm(a: bv32, b: bv32)
    ensures Xor(a, b) == Xor(b, a)
  {
    assert a ^ b == b ^ a;
  }

  lemma XorSelf(a: bv32, b: bv32)
    ensures Xor(a, Xor(a, b)) == b
  {
    assert a ^ (a ^ b) == b;
  }

  lemma XorCancels(a: bv32, b: bv32, c: bv32)
    requires Xor(a, c) == Xor(b, c)
    ensures a == b
  {
    hide Xor;
    XorComm(a, c);
    XorComm(b, c);
    XorSelf(c, a);
    XorSelf(c, b);
  }

  lemma HalfXor(a: bv32, b: bv32)
    ensures Half(Xor(a, b)) == Xor(Half(a), Half(b))
  {
    assert (a ^ b) >> 1 == (a >> 1) ^ (b >> 1);
  }

  lemma OddXor(a: bv32, b: bv32)
    ensures Odd(Xor(a, b)) == (Odd(a) != Odd(b))
  {}

  // ---------- definitions ----------

  const POLYNOMIAL: bv32 := 0xedb88320
  const ALL_ONES: bv32 := 0xffffffff

  function Narrow(b: Byte): bv8 { b as bv8 }

  function Value(b: bv8): Byte { b as int }

  /** A byte as a 32-bit word. */
  function Word(b: Byte): bv32 { Narrow(b) as bv32 }

  /** One step of the reflected shift register, no message bit fed in. */
  function BitStep(c: bv32): bv32 { if Odd(c) then Xor(POLYNOMIAL, Half(c)) else Half(c) }

  function BitSteps(c: bv32, n: nat): bv32 { if n == 0 then c else BitStep(BitSteps(c, n - 1)) }

  function ByteStep(c: bv32): bv32 { BitSteps(c, 8) }

  /** The register after the bytes of `data`, eight steps a byte. */
  function Register(c: bv32, data: seq<Byte>): bv32
  {
    if data == [] then c else ByteStep(Xor(Register(c, data[..|data| - 1]), Word(data[|data| - 1])))
  }

  function Crc32Of(data: seq<Byte>): (sum: nat)
    ensures sum < 0x1_0000_0000
  {
    Xor(Register(ALL_ONES, data), ALL_ONES) as int
  }

  /** Bit `i` of a byte, the least significant first. */
  predicate BitOf(w: bv32, i: nat)
  {
    if i == 0 then Odd(w) else BitOf(Half(w), i - 1)
  }

  /** One step of long division by the CRC polynomial: take in one message bit, subtract when a one falls out. */
  function DivideBit(remainder: bv32, bit: bool): bv32
  {
    if Odd(remainder) != bit then Xor(POLYNOMIAL, Half(remainder)) else Half(remainder)
  }

  /** Bit `n` of the message, in the order in which the bits are taken in. */
  predicate BitAt(data: seq<Byte>, n: nat)
    requires n < 8 * |data|
  {
    BitOf(Word(data[n / 8]), n % 8)
  }

  /** The remainder after the first `n` bits of the message. */
  function Divide(remainder: bv32, data: seq<Byte>, n: nat): bv32
    requires n <= 8 * |data|
  {
    if n == 0 then remainder
    else DivideBit(Divide(remainder, data, n - 1), BitAt(data, n - 1))
  }

  // ---------- the program's table and loop ----------

  ghost predicate IsCrcTable(table: seq<bv32>)
  {
    |table| == 256 && forall i :: 0 <= i < 256 ==> table[i] == ByteStep(Word(i))
  }

  /** The table the module fills once, when it is loaded. */
  method FillCrcTable() returns (filled: seq<bv32>)
    ensures IsCrcTable(filled)
  {
    hide Word;
    var table := new bv32[256];
    for i := 0 to 256
      invariant forall k :: 0 <= k < i ==> table[k] == ByteStep(Word(k))
    {
      var c := Word(i);
      for j := 0 to 8
        invariant c == BitSteps(Word(i), j)
      {
        c := if Odd(c) then Xor(0xedb88320, Half(c)) else Half(c);
      }
      table[i] := c;
    }
    filled := table[..];
  }

  method Crc32(table: seq<bv32>, buffer: array<Byte>) returns (sum: nat)
    requires IsCrcTable(table)
    ensures sum == Crc32Of(buffer[..])
  {
    hide Word, Xor, ByteStep, Down, Low, Index;
    var crc: bv32 := 0xffffffff;
    for i := 0 to buffer.Length
      invariant crc == Register(ALL_ONES, buffer[..i])
    {
      var byte := Word(buffer[i]);
      assert buffer[..i + 1][..i] == buffer[..i];
      TableStep(crc, buffer[i]);
      var index := Index(Xor(crc, byte));
      IndexWord(Xor(crc, byte));
      assert table[index] == ByteStep(Word(index));
      crc := Xor(table[index], Down(crc));
    }
    assert buffer[..] == buffer[..buffer.Length];
    sum := Xor(crc, 0xffffffff) as int;
  }

  /** The table index that a word selects: its low byte. */
  function Index(x: bv32): Byte { Value((x & 0xff) as bv8) }

  lemma NarrowValue(b: bv8)
    ensures Narrow(Value(b)) == b
  {
    assert (b as int) as bv8 == b;
  }

  lemma IndexWord(x: bv32)
    ensures Word(Index(x)) == Low(x)
  {
    NarrowValue((x & 0xff) as bv8);
    hide Narrow, Value;
    assert ((x & 0xff) as bv8) as bv32 == x & 0xff;
  }

  // ---------- the eight-step map is linear and loses nothing ----------

  lemma BitStepLinear(a: bv32, b: bv32)
    ensures BitStep(Xor(a, b)) == Xor(BitStep(a), BitStep(b))
  {
    hide Xor, Half, Odd;
    HalfXor(a, b);
    OddXor(a, b);
    var p, x, y := POLYNOMIAL, Half(a), Half(b);
    XorAssoc(p, x, y);
    XorAssoc(p, x, Xor(p, y));
    XorComm(x, Xor(p, y));
    XorAssoc(p, y, x);
    XorComm(x, y);
    XorSelf(p, Xor(y, x));
  }

  lemma {:induction false} BitStepsLinear(a: bv32, b: bv32, n: nat)
    ensures BitSteps(Xor(a, b), n) == Xor(BitSteps(a, n), BitSteps(b, n))
  {
    hide Xor, BitStep;
    if n > 0 {
      BitStepsLinear(a, b, n - 1);
      BitStepLinear(BitSteps(a, n - 1), BitSteps(b, n - 1));
    }
  }

  lemma BitStepInjective(a: bv32, b: bv32)
    requires BitStep(a) == BitStep(b)
    ensures a == b
  {}

  lemma {:induction false} BitStepsInjective(a: bv32, b: bv32, n: nat)
    requires BitSteps(a, n) == BitSteps(b, n)
    ensures a == b
  {
    hide BitStep;
    if n > 0 {
      BitStepInjective(BitSteps(a, n - 1), BitSteps(b, n - 1));
      BitStepsInjective(a, b, n - 1);
    }
  }

  function Halves(a: bv32, n: nat): bv32 { if n == 0 then a else Half(Halves(a, n - 1)) }

  /** A word without low byte is only shifted by the eight steps. */
  lemma ByteStepShifts(c: bv32)
    requires Low(c) == 0
    ensures ByteStep(c) == Down(c)
  {
    EvenHalves(c);
    EvenSteps(c, 8);
  }

  lemma EvenHalves(c: bv32)
    requires Low(c) == 0
    ensures forall i :: 0 <= i < 8 ==> !Odd(Halves(c, i))
    ensures Halves(c, 8) == Down(c)
  {
    assert !Odd(c) && !Odd(c >> 1) && !Odd(c >> 2) && !Odd(c >> 3);
    assert !Odd(c >> 4) && !Odd(c >> 5) && !Odd(c >> 6) && !Odd(c >> 7);
    assert Halves(c, 1) == c >> 1;
    assert Halves(c, 2) == c >> 2;
    assert Halves(c, 3) == c >> 3;
    assert Halves(c, 4) == c >> 4;
    assert Halves(c, 5) == c >> 5;
    assert Halves(c, 6) == c >> 6;
    assert Halves(c, 7) == c >> 7;
    assert Halves(c, 8) == c >> 8;
  }

  lemma {:induction false} EvenSteps(c: bv32, n: nat)
    requires forall i :: 0 <= i < n ==> !Odd(Halves(c, i))
    ensures BitSteps(c, n) == Halves(c, n)
  {
    hide Odd, Half, Xor;
    if n > 0 {
      EvenSteps(c, n - 1);
    }
  }

  lemma SplitWord(x: bv32)
    ensures x == Xor(Low(x), Up(Down(x)))
    ensures Low(Up(Down(x))) == 0 && Down(Up(Down(x))) == Down(x)
  {
    assert x == (x & 0xff) ^ ((x >> 8) << 8);
  }

  lemma DownXor(a: bv32, b: bv32)
    ensures Down(Xor(a, b)) == Xor(Down(a), Down(b))
  {
    assert (a ^ b) >> 8 == (a >> 8) ^ (b >> 8);
  }

  lemma XorZero(a: bv32)
    ensures Xor(a, 0) == a
  {}

  lemma WordIsByte(b: Byte)
    ensures Down(Word(b)) == 0 && Low(Word(b)) == Word(b)
  {}

  /** What the table look-up computes is eight steps of the register. */
  lemma TableStep(c: bv32, b: Byte)
    ensures var x := Xor(c, Word(b)); ByteStep(x) == Xor(ByteStep(Low(x)), Down(c))
  {
    hide Xor, Word, Low, Up, Down, BitSteps;
    var x := Xor(c, Word(b));
    SplitWord(x);
    DownXor(c, Word(b));
    WordIsByte(b);
    XorZero(Down(c));
    BitStepsLinear(Low(x), Up(Down(x)), 8);
    ByteStepShifts(Up(Down(x)));
  }

  // ---------- the checksum is polynomial division, bit by bit ----------

  lemma FeedBit(c: bv32, w: bv32)
    ensures BitStep(Xor(c, w)) == Xor(DivideBit(c, Odd(w)), Half(w))
  {
    hide Xor, Half, Odd;
    HalfXor(c, w);
    OddXor(c, w);
    XorAssoc(POLYNOMIAL, Half(c), Half(w));
  }

  lemma {:induction false} HalvesBit(w: bv32, n: nat)
    ensures Odd(Halves(w, n)) == BitOf(w, n)
    ensures Half(Halves(w, n)) == Halves(Half(w), n)
    decreases n
  {
    hide Odd, Half;
    if n > 0 {
      HalvesBit(w, n - 1);
      HalvesBit(Half(w), n - 1);
    }
  }

  /** After `n` of the steps of one byte, the register is the remainder plus what is left of the byte. */
  lemma {:induction false} FeedBits(c: bv32, data: seq<Byte>, k: nat, n: nat)
    requires k < |data| && n <= 8
    ensures var w := Word(data[k]);
            BitSteps(Xor(Divide(c, data, 8 * k), w), n) == Xor(Divide(c, data, 8 * k + n), Halves(w, n))
  {
    hide Xor, Half, Odd, Word, BitStep, DivideBit;
    if n > 0 {
      FeedBits(c, data, k, n - 1);
      var w := Word(data[k]);
      FeedBit(Divide(c, data, 8 * k + n - 1), Halves(w, n - 1));
      HalvesBit(w, n - 1);
      assert (8 * k + n - 1) / 8 == k && (8 * k + n - 1) % 8 == n - 1;
    }
  }

  lemma EightHalves(w: bv32)
    ensures Halves(w, 8) == Down(w)
  {
    assert Halves(w, 1) == w >> 1;
    assert Halves(w, 2) == w >> 2;
    assert Halves(w, 3) == w >> 3;
    assert Halves(w, 4) == w >> 4;
    assert Halves(w, 5) == w >> 5;
    assert Halves(w, 6) == w >> 6;
    assert Halves(w, 7) == w >> 7;
    assert Halves(w, 8) == w >> 8;
  }

  /** The register is the remainder of the division, at every byte boundary. */
  lemma {:induction false} RegisterDivides(c: bv32, data: seq<Byte>, k: nat)
    requires k <= |data|
    ensures Register(c, data[..k]) == Divide(c, data, 8 * k)
  {
    hide Xor, Word, BitSteps, Halves, Down, Low;
    if k > 0 {
      RegisterDivides(c, data, k - 1);
      assert data[..k][..k - 1] == data[..k - 1];
      FeedBits(c, data, k - 1, 8);
      EightHalves(Word(data[k - 1]));
      WordIsByte(data[k - 1]);
      XorZero(Divide(c, data, 8 * k));
    }
  }

  /** The checksum is the remainder of dividing the whole message, pre- and post-conditioned with ones. */
  lemma CrcIsPolynomialDivision(data: seq<Byte>)
    ensures Crc32Of(data) == Xor(Divide(ALL_ONES, data, 8 * |data|), ALL_ONES) as int
  {
    hide Xor;
    RegisterDivides(ALL_ONES, data, |data|);
    assert data[..|data|] == data;
  }

  // ---------- bursts ----------

  lemma {:induction false} ByteBits(n: nat)
    requires n < 256
    ensures (n as bv8) as int == n
  {
    if n > 0 {
      ByteBits(n - 1);
      NextByte((n - 1) as bv8);
    }
  }

  lemma NextByte(b: bv8)
    requires b != 255
    ensures (b + 1) as int == b as int + 1
  {}

  lemma WordInjective(a: Byte, b: Byte)
    requires Word(a) == Word(b)
    ensures a == b
  {
    assert Narrow(a) == Narrow(b);
    ByteBits(a);
    ByteBits(b);
  }

  lemma OneBit(a: bv32, b: bv32)
    requires Odd(a) == Odd(b) && Half(a) == Half(b)
    ensures a == b
  {
    assert a == ((a >> 1) << 1) ^ (a & 1) && b == ((b >> 1) << 1) ^ (b & 1);
  }

  /** Words with the same first `n` bits and the same rest. */
  lemma {:induction false} SameBits(a: bv32, b: bv32, n: nat)
    requires (forall i: nat :: i < n ==> BitOf(a, i) == BitOf(b, i)) && Halves(a, n) == Halves(b, n)
    ensures a == b
    decreases n
  {
    hide Odd, Half;
    if n > 0 {
      HalvesBit(a, n - 1);
      HalvesBit(b, n - 1);
      assert BitOf(a, 0) == BitOf(b, 0);
      forall i: nat | i < n - 1 ensures BitOf(Half(a), i) == BitOf(Half(b), i) {
        assert BitOf(a, i + 1) == BitOf(b, i + 1);
      }
      SameBits(Half(a), Half(b), n - 1);
      OneBit(a, b);
    }
  }

  /** A byte is its eight bits. */
  lemma SameByte(a: Byte, b: Byte)
    requires forall i: nat :: i < 8 ==> BitOf(Word(a), i) == BitOf(Word(b), i)
    ensures a == b
  {
    hide Word, BitOf, Halves, Down, Low;
    EightHalves(Word(a));
    EightHalves(Word(b));
    WordIsByte(a);
    WordIsByte(b);
    SameBits(Word(a), Word(b), 8);
    WordInjective(a, b);
  }

  /** Equally long buffers whose bits are equal, but perhaps for the 32 from `start` on. */
  predicate SameOutside(a: seq<Byte>, b: seq<Byte>, start: nat)
  {
    |a| == |b| && forall n :: 0 <= n < 8 * |a| && !(start <= n < start + 32) ==> BitAt(a, n) == BitAt(b, n)
  }

  /** The `k` bits from `start` on as one word, the first in the lowest place. */
  function Window(data: seq<Byte>, start: nat, k: nat): bv32
    requires start + k <= 8 * |data|
    decreases k
  {
    if k == 0 then 0 else Xor(Unit(BitAt(data, start)), Twice(Window(data, start + 1, k - 1)))
  }

  function Unit(bit: bool): bv32 { if bit then 1 else 0 }

  function Twice(a: bv32): bv32 { a << 1 }

  /** The lowest place is free after doubling, and nothing is lost if the highest was. */
  lemma PutBit(bit: bool, w: bv32)
    ensures Odd(Xor(Unit(bit), Twice(w))) == bit
    ensures Half(Xor(Unit(bit), Twice(w))) == Half(Twice(w))
  {}

  lemma TopFree(w: bv32)
    requires Halves(w, 31) == 0
    ensures Half(Twice(w)) == w
  {
    hide Halves, Top, Twice, Half;
    ThirtyOneHalves(w);
    TopZero(w);
  }

  lemma TopZero(w: bv32)
    requires Top(w) == 0
    ensures Half(Twice(w)) == w
  {}

  lemma {:induction false} HalvesMore(w: bv32, m: nat, n: nat)
    ensures Halves(Halves(w, m), n) == Halves(w, m + n)
  {
    hide Half;
    if n > 0 { HalvesMore(w, m, n - 1); }
  }

  function Top(w: bv32): bv32 { w >> 31 }

  lemma ThirtyOneHalves(w: bv32)
    ensures Halves(w, 31) == Top(w)
  {
    hide Halves, Down, Seventh, Top;
    HalvesMore(w, 8, 8);
    HalvesMore(w, 16, 8);
    HalvesMore(w, 24, 7);
    EightHalves(w);
    EightHalves(Down(w));
    EightHalves(Down(Down(w)));
    SevenHalves(Down(Down(Down(w))));
    ShiftSums(w);
  }

  function Seventh(w: bv32): bv32 { w >> 7 }

  lemma ShiftSums(w: bv32)
    ensures Seventh(Down(Down(Down(w)))) == Top(w)
  {
    assert ((w >> 8) >> 8) >> 8 == w >> 24;
    assert (w >> 24) >> 7 == w >> 31;
  }

  lemma SevenHalves(w: bv32)
    ensures Halves(w, 7) == Seventh(w)
  {
    assert Halves(w, 1) == w >> 1;
    assert Halves(w, 2) == w >> 2;
    assert Halves(w, 3) == w >> 3;
    assert Halves(w, 4) == w >> 4;
    assert Halves(w, 5) == w >> 5;
    assert Halves(w, 6) == w >> 6;
    assert Halves(w, 7) == w >> 7;
  }

  lemma {:induction false} HalvesZero(n: nat)
    ensures Halves(0, n) == 0
  {
    if n > 0 { HalvesZero(n - 1); }
  }

  /** A window of at most 32 bits loses none of them. */
  lemma {:induction false} WindowFits(data: seq<Byte>, start: nat, k: nat)
    requires start + k <= 8 * |data| && k <= 32
    ensures Halves(Window(data, start, k), k) == 0
    ensures k > 0 ==> var w := Window(data, start, k);
                      Odd(w) == BitAt(data, start) && Half(w) == Window(data, start + 1, k - 1)
    decreases k
  {
    hide Xor, Unit, Twice, Half, Odd, BitAt;
    if k > 0 {
      var rest, w := Window(data, start + 1, k - 1), Window(data, start, k);
      WindowFits(data, start + 1, k - 1);
      HalvesMore(rest, k - 1, 32 - k);
      HalvesZero(32 - k);
      TopFree(rest);
      PutBit(BitAt(data, start), rest);
      HalvesBit(w, k - 1);
    }
  }

  /** Taking in a window bit by bit is taking it in as one word. */
  lemma {:induction false} FeedWindow(c: bv32, data: seq<Byte>, start: nat, k: nat, n: nat)
    requires start + k <= 8 * |data| && n <= k <= 32
    ensures BitSteps(Xor(Divide(c, data, start), Window(data, start, k)), n)
         == Xor(Divide(c, data, start + n), Window(data, start + n, k - n))
  {
    hide Xor, Half, Odd, BitStep, DivideBit, Window, BitAt;
    if n > 0 {
      FeedWindow(c, data, start, k, n - 1);
      WindowFits(data, start + n - 1, k - n + 1);
      FeedBit(Divide(c, data, start + n - 1), Window(data, start + n - 1, k - n + 1));
    }
  }

  lemma {:induction false} WindowBits(a: seq<Byte>, b: seq<Byte>, start: nat, k: nat, n: nat)
    requires |a| == |b| && start + k <= 8 * |a| && n < k <= 32
    requires Window(a, start, k) == Window(b, start, k)
    ensures BitAt(a, start + n) == BitAt(b, start + n)
    decreases k
  {
    hide BitAt, Window, Odd, Half;
    WindowFits(a, start, k);
    WindowFits(b, start, k);
    if n > 0 { WindowBits(a, b, start + 1, k - 1, n - 1); }
  }

  /** Up to 32 bits are determined by what they do to the remainder. */
  lemma WindowInjective(c: bv32, a: seq<Byte>, b: seq<Byte>, start: nat, k: nat)
    requires |a| == |b| && start + k <= 8 * |a| && k <= 32
    requires Divide(c, a, start) == Divide(c, b, start) && Divide(c, a, start + k) == Divide(c, b, start + k)
    ensures Window(a, start, k) == Window(b, start, k)
  {
    hide Divide, BitSteps, Xor;
    var r := Divide(c, a, start);
    FeedWindow(c, a, start, k, k);
    FeedWindow(c, b, start, k, k);
    XorZero(Divide(c, a, start + k));
    BitStepsInjective(Xor(r, Window(a, start, k)), Xor(r, Window(b, start, k)), k);
    XorComm(r, Window(a, start, k));
    XorComm(r, Window(b, start, k));
    XorCancels(Window(a, start, k), Window(b, start, k), r);
  }

  lemma {:induction false} SamePrefix(c: bv32, a: seq<Byte>, b: seq<Byte>, n: nat)
    requires |a| == |b| && n <= 8 * |a| && forall i :: 0 <= i < n ==> BitAt(a, i) == BitAt(b, i)
    ensures Divide(c, a, n) == Divide(c, b, n)
  {
    hide BitAt, DivideBit;
    if n > 0 { SamePrefix(c, a, b, n - 1); }
  }

  lemma DivideBitInjective(a: bv32, b: bv32, bit: bool)
    requires DivideBit(a, bit) == DivideBit(b, bit)
    ensures a == b
  {}

  /** Bits that follow a difference never hide it. */
  lemma {:induction false} SameSuffix(c: bv32, a: seq<Byte>, b: seq<Byte>, m: nat, n: nat)
    requires |a| == |b| && m <= n <= 8 * |a| && forall i :: m <= i < n ==> BitAt(a, i) == BitAt(b, i)
    requires Divide(c, a, n) == Divide(c, b, n)
    ensures Divide(c, a, m) == Divide(c, b, m)
  {
    hide BitAt, DivideBit;
    if m < n {
      DivideBitInjective(Divide(c, a, n - 1), Divide(c, b, n - 1), BitAt(a, n - 1));
      SameSuffix(c, a, b, m, n - 1);
    }
  }

  lemma SumInjective(a: seq<Byte>, b: seq<Byte>)
    requires Crc32Of(a) == Crc32Of(b)
    ensures Divide(ALL_ONES, a, 8 * |a|) == Divide(ALL_ONES, b, 8 * |b|)
  {
    hide Register, Xor, Divide;
    RegisterDivides(ALL_ONES, a, |a|);
    RegisterDivides(ALL_ONES, b, |b|);
    assert a[..|a|] == a && b[..|b|] == b;
    WordInt(Xor(Register(ALL_ONES, a), ALL_ONES));
    WordInt(Xor(Register(ALL_ONES, b), ALL_ONES));
    XorCancels(Register(ALL_ONES, a), Register(ALL_ONES, b), ALL_ONES);
  }

  lemma WordInt(x: bv32)
    ensures (x as int) as bv32 == x
  {}

  lemma SameBuffer(a: seq<Byte>, b: seq<Byte>)
    requires |a| == |b| && forall n :: 0 <= n < 8 * |a| ==> BitAt(a, n) == BitAt(b, n)
    ensures a == b
  {
    hide BitOf, Word;
    forall k | 0 <= k < |a| ensures a[k] == b[k] {
      forall i: nat | i < 8 ensures BitOf(Word(a[k]), i) == BitOf(Word(b[k]), i) {
        assert BitAt(a, 8 * k + i) == BitAt(b, 8 * k + i);
        assert (8 * k + i) / 8 == k && (8 * k + i) % 8 == i;
      }
      SameByte(a[k], b[k]);
    }
  }

  /** Different buffers of one length that differ only within 32 consecutive bits have different checksums. */
  lemma CrcDetectsBurst(a: seq<Byte>, b: seq<Byte>, start: nat)
    requires a != b && SameOutside(a, b, start)
    ensures Crc32Of(a) != Crc32Of(b)
  {
    hide Divide, Crc32Of, BitAt, Window;
    if Crc32Of(a) == Crc32Of(b) {
      SumInjective(a, b);
      var from := Min(start, 8 * |a|);
      var to := Min(start + 32, 8 * |a|);
      SamePrefix(ALL_ONES, a, b, from);
      SameSuffix(ALL_ONES, a, b, to, 8 * |a|);
      WindowInjective(ALL_ONES, a, b, from, to - from);
      forall n | 0 <= n < 8 * |a| ensures BitAt(a, n) == BitAt(b, n) {
        if from <= n < to { WindowBits(a, b, from, to - from, n - from); }
      }
      SameBuffer(a, b);
    }
  }

  /** In particular those that differ only within four consecutive bytes. */
  lemma FourBytesAreBits(a: seq<Byte>, b: seq<Byte>, at: nat)
    requires |a| == |b| && forall k :: 0 <= k < |a| && !(at <= k < at + 4) ==> a[k] == b[k]
    ensures SameOutside(a, b, 8 * at)
  {
    hide BitOf, Word;
    forall n | 0 <= n < 8 * |a| && !(8 * at <= n < 8 * at + 32) ensures BitAt(a, n) == BitAt(b, n) {
      assert !(at <= n / 8 < at + 4);
    }
  }
}
