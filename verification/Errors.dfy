/**
 Which errors the checksum misses. An error is the difference between the datagram that was sent and the one that came
 in, byte by byte; whether it is detected depends on the error alone.
 */
module Errors {
  import opened BufferUtils
  import opened Crc
  import opened MessageBuffer

  function XorByte(a: Byte, b: Byte): Byte { Value(Narrow(a) ^ Narrow(b)) }

  /** `b` added to `a`: the datagram `a` with the error `b`, or the error that makes `a` into `b`. */
  function XorBytes(a: seq<Byte>, b: seq<Byte>): (c: seq<Byte>)
    requires |a| == |b|
    ensures |c| == |a|
  {
    seq(|a|, i requires 0 <= i < |a| => XorByte(a[i], b[i]))
  }

  /** Four bytes as a word, the first the highest. */
  function BigEndian(s: seq<Byte>): bv32
    requires |s| == 4
  {
    Xor(Up(Xor(Up(Xor(Up(Word(s[0])), Word(s[1]))), Word(s[2]))), Word(s[3]))
  }

  /** The error that the checksum of the other bytes would show is not the one in the checksum field. */
  predicate Detectable(error: seq<Byte>)
    requires |error| >= HEADER_SIZE
  {
    BigEndian(error[HEADER_SIZE - SUM_SIZE..HEADER_SIZE]) != Register(0, Zeroed(error))
  }

  // ---------- bytes and words ----------

  lemma WordXor(a: Byte, b: Byte)
    ensures Word(XorByte(a, b)) == Xor(Word(a), Word(b))
  {
    NarrowValue(Narrow(a) ^ Narrow(b));
    hide Narrow, Value;
    var x, y := Narrow(a), Narrow(b);
    assert (x ^ y) as bv32 == (x as bv32) ^ (y as bv32);
  }

  lemma XorByteTwice(a: Byte, b: Byte)
    ensures XorByte(a, XorByte(a, b)) == b
  {
    hide Word, XorByte, Xor;
    WordXor(a, b);
    WordXor(a, XorByte(a, b));
    XorSelf(Word(a), Word(b));
    WordInjective(XorByte(a, XorByte(a, b)), b);
  }

  lemma XorTwice(a: seq<Byte>, b: seq<Byte>)
    requires |a| == |b|
    ensures XorBytes(a, XorBytes(a, b)) == b
  {
    hide XorByte;
    forall i | 0 <= i < |a| ensures XorByte(a[i], XorByte(a[i], b[i])) == b[i] { XorByteTwice(a[i], b[i]); }
  }

  lemma UpXor(a: bv32, b: bv32)
    ensures Up(Xor(a, b)) == Xor(Up(a), Up(b))
  {
    assert (a ^ b) << 8 == (a << 8) ^ (b << 8);
  }

  /** The sum of two sums, regrouped. */
  lemma XorFour(a: bv32, b: bv32, c: bv32, d: bv32)
    ensures Xor(Xor(a, b), Xor(c, d)) == Xor(Xor(a, c), Xor(b, d))
  {
    hide Xor;
    XorAssoc(a, b, Xor(c, d));
    XorAssoc(b, c, d);
    XorComm(b, c);
    XorAssoc(c, b, d);
    XorAssoc(a, c, Xor(b, d));
  }

  lemma BigEndianXor(s: seq<Byte>, t: seq<Byte>)
    requires |s| == |t| == 4
    ensures BigEndian(XorBytes(s, t)) == Xor(BigEndian(s), BigEndian(t))
  {
    hide Xor, Up, Word, XorByte;
    var s1, t1 := Xor(Up(Word(s[0])), Word(s[1])), Xor(Up(Word(t[0])), Word(t[1]));
    var s2, t2 := Xor(Up(s1), Word(s[2])), Xor(Up(t1), Word(t[2]));
    WordXor(s[0], t[0]);
    WordXor(s[1], t[1]);
    WordXor(s[2], t[2]);
    WordXor(s[3], t[3]);
    UpXor(Word(s[0]), Word(t[0]));
    XorFour(Up(Word(s[0])), Up(Word(t[0])), Word(s[1]), Word(t[1]));
    UpXor(s1, t1);
    XorFour(Up(s1), Up(t1), Word(s[2]), Word(t[2]));
    UpXor(s2, t2);
    XorFour(Up(s2), Up(t2), Word(s[3]), Word(t[3]));
  }

  // ---------- words and integers ----------

  function Assemble(a: bv8, b: bv8, c: bv8, d: bv8): bv32
  {
    ((((((a as bv32) << 8) ^ (b as bv32)) << 8) ^ (c as bv32)) << 8) ^ (d as bv32)
  }

  lemma ShiftedInt(a: bv8, b: bv8, c: bv8, d: bv8)
    ensures (((((((a as bv32) << 8) ^ (b as bv32)) << 8) ^ (c as bv32)) << 8) ^ (d as bv32)) as int
         == 256 * (256 * (256 * (a as int) + b as int) + c as int) + d as int
  {}

  function Value32(w: bv32): (n: UInt32)
  {
    w as int
  }

  lemma AssembleInt(a: bv8, b: bv8, c: bv8, d: bv8)
    ensures Value32(Assemble(a, b, c, d))
         == 256 * (256 * (256 * Value(a) + Value(b)) + Value(c)) + Value(d)
  {
    ShiftedInt(a, b, c, d);
  }

  lemma BigEndianAssembles(s: seq<Byte>)
    requires |s| == 4
    ensures BigEndian(s) == Assemble(Narrow(s[0]), Narrow(s[1]), Narrow(s[2]), Narrow(s[3]))
  {
    hide Narrow;
  }

  lemma NarrowInt(b: Byte)
    ensures Value(Narrow(b)) == b
  {
    ByteBits(b);
  }

  /** The number in a field of four bytes is the value of the word they are. */
  lemma BigEndianInt(s: seq<Byte>)
    requires |s| == 4
    ensures GetUInt32(s) == Value32(BigEndian(s))
  {
    hide Narrow, Value, Value32, BigEndian, Assemble;
    BigEndianAssembles(s);
    AssembleInt(Narrow(s[0]), Narrow(s[1]), Narrow(s[2]), Narrow(s[3]));
    NarrowInt(s[0]);
    NarrowInt(s[1]);
    NarrowInt(s[2]);
    NarrowInt(s[3]);
    hide GetUInt;
    GetIsBigEndian(s);
  }

  // ---------- the error alone decides ----------

  /** The register is linear in what it starts from and what it takes in. */
  lemma {:induction false} RegisterLinear(c: bv32, a: seq<Byte>, e: bv32, b: seq<Byte>)
    requires |a| == |b|
    ensures Register(Xor(c, e), XorBytes(a, b)) == Xor(Register(c, a), Register(e, b))
  {
    hide Xor, Word, XorByte, BitSteps;
    if a != [] {
      var n := |a| - 1;
      RegisterLinear(c, a[..n], e, b[..n]);
      assert XorBytes(a, b)[..n] == XorBytes(a[..n], b[..n]);
      WordXor(a[n], b[n]);
      XorFour(Register(c, a[..n]), Register(e, b[..n]), Word(a[n]), Word(b[n]));
      BitStepsLinear(Xor(Register(c, a[..n]), Word(a[n])), Xor(Register(e, b[..n]), Word(b[n])), 8);
    }
  }

  lemma NoByte()
    ensures XorByte(0, 0) == 0
  {
    ByteBits(0);
    assert Value(0) == 0;
  }

  lemma ZeroedXor(a: seq<Byte>, b: seq<Byte>)
    requires |a| == |b| >= HEADER_SIZE
    ensures Zeroed(XorBytes(a, b)) == XorBytes(Zeroed(a), Zeroed(b))
  {
    hide XorByte;
    NoByte();
  }

  /** The words of a datagram's checksum field and of its other bytes. */
  function SumWord(d: seq<Byte>): bv32
    requires |d| >= HEADER_SIZE
  {
    BigEndian(d[HEADER_SIZE - SUM_SIZE..HEADER_SIZE])
  }

  lemma AcceptedWord(d: seq<Byte>)
    requires |d| >= HEADER_SIZE
    ensures Decode(d).Some? <==> SumWord(d) == Xor(Register(ALL_ONES, Zeroed(d)), ALL_ONES)
  {
    hide Register, Zeroed, BigEndian, Xor, GetUInt32;
    BigEndianInt(d[HEADER_SIZE - SUM_SIZE..HEADER_SIZE]);
    WordInt(SumWord(d));
    WordInt(Xor(Register(ALL_ONES, Zeroed(d)), ALL_ONES));
  }

  /**
   A valid datagram with an error in it is rejected if and only if the error is detectable: this depends on the error
   alone, not on the datagram.
   */
  lemma RejectedIffDetectable(d: seq<Byte>, error: seq<Byte>)
    requires Decode(d).Some? && |error| == |d|
    ensures Decode(XorBytes(d, error)).None? <==> Detectable(error)
  {
    hide Register, Zeroed, BigEndian, Xor, Decode, XorBytes;
    var e := XorBytes(d, error);
    assert |d| >= HEADER_SIZE by { hide *; LongEnough(d); }
    AcceptedWord(d);
    AcceptedWord(e);
    var x, y := Register(ALL_ONES, Zeroed(d)), Register(0, Zeroed(error));
    ZeroedXor(d, error);
    RegisterLinear(ALL_ONES, Zeroed(d), 0, Zeroed(error));
    XorZero(ALL_ONES);
    SumXor(d, error);
    // the datagram's own sum cancels
    XorAssoc(x, y, ALL_ONES);
    XorComm(y, ALL_ONES);
    XorAssoc(x, ALL_ONES, y);
    XorComm(SumWord(d), SumWord(error));
    XorComm(SumWord(d), y);
    if Xor(SumWord(d), SumWord(error)) == Xor(SumWord(d), y) { XorCancels(SumWord(error), y, SumWord(d)); }
  }

  lemma LongEnough(d: seq<Byte>)
    requires Decode(d).Some?
    ensures |d| >= HEADER_SIZE
  {}

  lemma SumXor(d: seq<Byte>, error: seq<Byte>)
    requires |error| == |d| >= HEADER_SIZE
    ensures SumWord(XorBytes(d, error)) == Xor(SumWord(d), SumWord(error))
  {
    hide XorByte, BigEndian, Xor;
    var from := HEADER_SIZE - SUM_SIZE;
    assert XorBytes(d, error)[from..HEADER_SIZE] == XorBytes(d[from..HEADER_SIZE], error[from..HEADER_SIZE]);
    BigEndianXor(d[from..HEADER_SIZE], error[from..HEADER_SIZE]);
  }

  /** A burst that stays on one side of the edges of the checksum field is detectable. */
  lemma BurstIsDetectable(d: seq<Byte>, e: seq<Byte>, start: nat)
    requires Decode(d).Some? && IsBurst(d, e, start)
    ensures Detectable(XorBytes(d, e))
  {
    hide Decode, Detectable, XorBytes, IsBurst, Zeroed;
    assert |d| == |e| by { hide *; BurstLength(d, e, start); }
    BurstRejected(d, e, start);
    RejectedIffDetectable(d, XorBytes(d, e));
    XorTwice(d, e);
  }

  lemma BurstLength(d: seq<Byte>, e: seq<Byte>, start: nat)
    requires IsBurst(d, e, start)
    ensures |d| == |e|
  {}
}
