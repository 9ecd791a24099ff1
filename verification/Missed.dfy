/**
 What an error that the checksum misses can do. One that reaches the total of a datagram and its checksum makes a
 sender finish with a message that is neither delivered nor evicted.
 */
module Missed {
  import opened BufferUtils
  import opened Crc
  import opened MessageBuffer
  import opened Errors
  import opened Protocol
  import opened Completion
  import E = Eviction
  import R = Receiver
  import S = Sender

  const LAST_OF_TOTAL: nat := HEADER_SIZE - SUM_SIZE - 1

  function Zeros(n: nat): (z: seq<Byte>)
    ensures |z| == n
  {
    seq(n, i => 0)
  }

  /** An error of 0x19 in the last byte of the total, and what makes up for it in the checksum. */
  function TotalError(payloadSize: nat): (error: seq<Byte>)
    ensures |error| == HEADER_SIZE + payloadSize
  {
    Zeros(LAST_OF_TOTAL) + [0x19] + PutUInt(Value32(Makeup(payloadSize)), SUM_SIZE) + Zeros(payloadSize)
  }

  /** The register that the error in the total leaves at the end of the datagram. */
  function Makeup(payloadSize: nat): bv32
  {
    Register(0, Zeros(LAST_OF_TOTAL) + [0x19] + Zeros(SUM_SIZE + payloadSize))
  }

  lemma SumOfMakeup(w: bv32)
    ensures BigEndian(PutUInt(Value32(w), SUM_SIZE)) == w
  {
    hide PutUInt, GetUInt32, BigEndian, Value32;
    var s := PutUInt(Value32(w), SUM_SIZE);
    GetPut32(Value32(w));
    BigEndianInt(s);
    SameValue(w, BigEndian(s));
  }

  lemma SameValue(a: bv32, b: bv32)
    requires Value32(a) == Value32(b)
    ensures a == b
  {
    WordInt(a);
    WordInt(b);
  }

  /** The error is one of those the checksum misses. */
  lemma TotalErrorIsMissed(payloadSize: nat)
    ensures !Detectable(TotalError(payloadSize))
  {
    hide Register, PutUInt, BigEndian, Value32;
    var error, w := TotalError(payloadSize), Makeup(payloadSize);
    SumOfMakeup(w);
    assert error[HEADER_SIZE - SUM_SIZE..HEADER_SIZE] == PutUInt(Value32(w), SUM_SIZE);
    assert Zeroed(error) == Zeros(LAST_OF_TOTAL) + [0x19] + Zeros(SUM_SIZE + payloadSize);
  }

  // ---------- the datagram that comes in ----------

  lemma NoError(b: Byte)
    ensures XorByte(b, 0) == b
  {
    hide Narrow, Value;
    NarrowValue(Narrow(b));
    NarrowInt(b);
    assert Narrow(0) == 0 by { hide *; NarrowZero(); }
    assert Narrow(b) ^ 0 == Narrow(b);
  }

  lemma NarrowZero()
    ensures Narrow(0) == 0
  {}

  lemma OneBecomes24()
    ensures XorByte(1, 0x19) == 24
  {
    assert Narrow(1) == 1 && Narrow(0x19) == 0x19;
    assert (1 as bv8) ^ 0x19 == 24;
    assert Value(24) == 24;
  }

  lemma OneInBytes(n: Byte)
    ensures PutUInt(n, 4) == [0, 0, 0, n]
  {
    assert PutUInt(0, 0) == [] && PutUInt(0, 1) == [0] && PutUInt(0, 2) == [0, 0] && PutUInt(0, 3) == [0, 0, 0];
  }

  /** The only datagram of a payload of one part, and what comes in instead. */
  function Sent(uid: UInt32, payload: seq<Byte>): seq<Byte> { Datagram(DATA, uid, 0, 0, 1, payload) }

  function CameIn(uid: UInt32, payload: seq<Byte>): seq<Byte> { XorBytes(Sent(uid, payload), TotalError(|payload|)) }

  lemma CameInFields(uid: UInt32, payload: seq<Byte>)
    ensures var e := CameIn(uid, payload);
            && e[..LAST_OF_TOTAL] == Sent(uid, payload)[..LAST_OF_TOTAL] && e[LAST_OF_TOTAL] == 24
            && e[HEADER_SIZE..] == payload
  {
    hide XorByte, PutUInt, Crc32Of, Value32;
    var d, x, e := Sent(uid, payload), TotalError(|payload|), CameIn(uid, payload);
    assert d[LAST_OF_TOTAL] == 1 by { OneInBytes(1); assert d[13..17] == PutUInt(1, 4); assert d[13..17][3] == d[16]; }
    assert x[LAST_OF_TOTAL] == 0x19;
    OneBecomes24();
    forall i | 0 <= i < LAST_OF_TOTAL ensures e[i] == d[i] { NoError(d[i]); }
    forall i | HEADER_SIZE <= i < |e| ensures e[i] == d[i] { assert x[i] == 0; NoError(d[i]); }
    assert d[HEADER_SIZE..] == payload;
  }

  /** It is accepted as the first part of a message of 24 parts. */
  lemma CameInDecodes(uid: UInt32, payload: seq<Byte>)
    ensures var got := Decode(CameIn(uid, payload));
            && got.Some? && got.value.kind == DATA && got.value.uid == uid && got.value.sequence == 0
            && got.value.total == 24 && got.value.payload == payload
  {
    hide XorBytes, PutUInt, GetUInt, GetUInt32, Crc32Of, Value32, TotalError, Detectable, Decode;
    var d, e := Sent(uid, payload), CameIn(uid, payload);
    DecodeDatagram(DATA, uid, 0, 0, 1, payload);
    TotalErrorIsMissed(|payload|);
    RejectedIffDetectable(d, TotalError(|payload|));
    CameInFields(uid, payload);
    FieldsOf(e);
    assert e[1..5] == e[..16][1..5] && e[5..9] == e[..16][5..9];
    assert d[..16][1..5] == PutUInt(uid, 4) && d[..16][5..9] == PutUInt(0, 4);
    assert e[0] == e[..16][0] && d[..16][0] == DATA;
    assert d[..16][13..16] == PutUInt(1, 4)[..3];
    assert e[13..17] == e[..16][13..16] + [e[16]];
    OneInBytes(1);
    OneInBytes(24);
    assert e[13..17] == PutUInt(24, 4);
    GetPut32(uid);
    GetPut32(0);
    GetPut32(24);
  }

  lemma FieldsOf(e: seq<Byte>)
    requires Decode(e).Some?
    ensures |e| >= HEADER_SIZE
    ensures var m := Decode(e).value;
            && m.kind == e[0] && m.uid == GetUInt32(e[1..5]) && m.sequence == GetUInt32(e[5..9])
            && m.total == GetUInt32(e[13..17]) && m.payload == e[HEADER_SIZE..]
  {
    hide Crc32Of, GetUInt32, Zeroed;
  }

  // ---------- a run in which it comes in ----------

  /** What the receiver does with a first part that claims a total of several. */
  lemma StrangerIsAcked(m: Message, now: int)
    requires R.IsValidDataMessage(m) && m.total >= 2
    ensures var o := R.Handle(map[], m, now); o.acked && o.received.None?
  {
    hide R.ConcatTo, R.InOrder;
  }

  /**
   After a payload of one part is sent, the damaged datagram comes in and its ack comes back: the sender has finished,
   nothing has been delivered, and nothing has been evicted. No error of more than five consecutive bytes is needed.
   */
  lemma FinishedByMissedError(uid: UInt32, payload: seq<Byte>, now: int)
    requires 1 <= |payload| <= MAX_PAYLOAD_SIZE
    ensures var s := Do(INITIAL, Send(uid, payload));
            && Sent(uid, payload) in s.toReceiver && Decode(CameIn(uid, payload)).Some?
            && var t := DoArrival(s, Decode(CameIn(uid, payload)).value, now);
               var ack := AckDatagram(Decode(CameIn(uid, payload)).value);
               ack in t.toSender && FinishedWithNothing(Do(t, DeliverAck(ack)), uid, payload)
  {
    hide Decode, CameIn, Sent, Chunks, AckDatagram, R.Handle, DoSend, DoAck, S.PartDatagrams;
    var send := Send(uid, payload);
    InitialInv();
    AfterOne(INITIAL, send);
    FirstSend(uid, payload);
    var s := Do(INITIAL, send);
    assert Count(payload) == 1 by { hide *; OnePart(payload); }
    E.FirstIsSent(uid, payload);
    assert S.PartDatagrams(uid, payload)[0] == Sent(uid, payload) by { hide *; OnlyPart(uid, payload); }
    CameInDecodes(uid, payload);
    var m := Decode(CameIn(uid, payload)).value;
    StrangerIsAcked(m, now);
    AckDecodes(m);
    var t := DoArrival(s, m, now);
    var a := Decode(AckDatagram(m)).value;
    assert s.sender.txs[uid] == t.sender.txs[uid];
    ReadyTx(s, uid);
    OnlyAck(t, uid, a);
  }

  /** The sender has finished, and the payload is lost without a trace. */
  ghost predicate FinishedWithNothing(s: Net, uid: UInt32, payload: seq<Byte>)
  {
    && uid in s.payloads && s.payloads[uid] == payload && uid in s.sender.txs && s.sender.txs[uid].fin
    && s.received == [] && s.evicted == {}
  }

  lemma OnePart(payload: seq<Byte>)
    requires 1 <= |payload| <= MAX_PAYLOAD_SIZE
    ensures Chunks(payload, MAX_PAYLOAD_SIZE) == [payload] && Count(payload) == 1
  {}

  lemma OnlyPart(uid: UInt32, payload: seq<Byte>)
    requires 1 <= |payload| <= MAX_PAYLOAD_SIZE && Count(payload) == 1
    ensures S.PartDatagrams(uid, payload) == [Sent(uid, payload)]
  {
    hide Datagram;
    OnePart(payload);
  }

  /** The first ack of a transmission of one datagram finishes it. */
  lemma OnlyAck(s: Net, uid: UInt32, m: Message)
    requires uid in s.sender.registry && uid in s.sender.txs && uid in s.payloads && !s.sender.disposed
    requires m.uid == uid && m.ack == 0
    requires var t := s.sender.txs[uid];
             S.TxInv(t) && !S.Stopped(t) && |t.buffers| == 1 && t.acks == {} && t.greatest == -1
    ensures var t := DoAck(s, m);
            && t.payloads == s.payloads && t.received == s.received && t.evicted == s.evicted
            && uid in t.sender.txs && t.sender.txs[uid].fin
  {
    hide S.CollectAck, S.TxInv;
    S.AckMeaning(s.sender.txs[uid], 0);
    var none: set<nat> := {};
    AllOfOne(none);
  }

  lemma AllOfOne(none: set<nat>)
    requires none == {}
    ensures S.AllBelow(none + {0}, 1) && 1 !in none + {0}
  {}

  // ---------- a burst of 32 bits that straddles the edge of the checksum field ----------

  lemma {:induction false} ZeroRegister(n: nat)
    ensures Register(0, Zeros(n)) == 0
  {
    if n > 0 {
      ZeroRegister(n - 1);
      assert Zeros(n)[..n - 1] == Zeros(n - 1);
      NoSteps();
    }
  }

  lemma NoSteps()
    ensures Word(0) == 0 && ByteStep(Xor(0, 0)) == 0
  {
    NarrowZero();
    assert BitSteps(0, 1) == 0 && BitSteps(0, 2) == 0 && BitSteps(0, 3) == 0 && BitSteps(0, 4) == 0;
    assert BitSteps(0, 5) == 0 && BitSteps(0, 6) == 0 && BitSteps(0, 7) == 0;
  }

  lemma FourSteps()
    ensures ByteStep(0x19) == 0x646ba8c0 && ByteStep(0x646ba8c0) == 0x9b00a918
    ensures ByteStep(0x9b00a918) == 0x13f798ff && ByteStep(0x13f798ff) == 0x2d111815
  {}

  lemma FourMoreSteps()
    ensures ByteStep(0x2d111815) == 0x6df0f5f3 && ByteStep(0x6df0f5f3) == 0x24d95353
    ensures ByteStep(0x24d95353) == 0xf246d91d && ByteStep(0xf246d91d) == 0x63f42a00
  {}

  /** The register after the error in the total and `k` more bytes without one. */
  function Trail(k: nat): bv32 { Register(0, Zeros(LAST_OF_TOTAL) + [0x19] + Zeros(k)) }

  lemma TrailStart()
    ensures Trail(0) == ByteStep(0x19)
  {
    hide BitSteps;
    var z := Zeros(LAST_OF_TOTAL) + [0x19];
    ZeroRegister(LAST_OF_TOTAL);
    assert z + Zeros(0) == z && z[..LAST_OF_TOTAL] == Zeros(LAST_OF_TOTAL);
    assert Xor(0, Word(0x19)) == 0x19;
  }

  lemma TrailStep(k: nat)
    ensures Trail(k + 1) == ByteStep(Trail(k))
  {
    hide BitSteps, Xor, Word;
    var z := Zeros(LAST_OF_TOTAL) + [0x19];
    assert (z + Zeros(k + 1))[..|z| + k] == z + Zeros(k);
    NoSteps();
    XorZero(Trail(k));
  }

  lemma TrailOfSeven()
    ensures Trail(7) == 0x63f42a00
  {
    hide Trail, ByteStep;
    FourSteps();
    FourMoreSteps();
    TrailStart();
    TrailStep(0);
    TrailStep(1);
    TrailStep(2);
    TrailStep(3);
    TrailStep(4);
    TrailStep(5);
    TrailStep(6);
  }

  lemma MakeupOfThree()
    ensures PutUInt(Value32(Makeup(3)), SUM_SIZE) == [0x63, 0xf4, 0x2a, 0]
  {
    hide Register, PutUInt, Value32;
    TrailOfSeven();
    SumInBytes();
  }

  lemma SumInBytes()
    ensures PutUInt(Value32(0x63f42a00), SUM_SIZE) == [0x63, 0xf4, 0x2a, 0]
  {
    assert Value32(0x63f42a00) == 0x63f42a00;
    assert PutUInt(0x63, 1) == [0x63] && PutUInt(0x63f4, 2) == [0x63, 0xf4];
    assert PutUInt(0x63f42a, 3) == [0x63, 0xf4, 0x2a];
  }

  /**
   So a burst of 32 bits that straddles the edge of the checksum field can be missed: for any payload of three bytes
   these four consecutive bytes, added from the last byte of the total on, give a datagram that is accepted.
   */
  lemma StraddlingBurstIsMissed(uid: UInt32, payload: seq<Byte>)
    requires |payload| == 3
    ensures TotalError(3) == Zeros(LAST_OF_TOTAL) + [0x19, 0x63, 0xf4, 0x2a] + Zeros(4)
    ensures var d, e := Sent(uid, payload), CameIn(uid, payload);
            && Decode(d).Some? && e == XorBytes(d, TotalError(3)) && e != d && SameOutside(d, e, 8 * LAST_OF_TOTAL)
            && Decode(e).Some? && Decode(e).value.total == 24
  {
    hide Decode, PutUInt, XorByte, SameOutside, Datagram;
    MakeupOfThree();
    DecodeDatagram(DATA, uid, 0, 0, 1, payload);
    CameInDecodes(uid, payload);
    var d, x, e := Sent(uid, payload), TotalError(3), CameIn(uid, payload);
    assert x == Zeros(LAST_OF_TOTAL) + [0x19, 0x63, 0xf4, 0x2a] + Zeros(4);
    forall k | 0 <= k < |d| && !(LAST_OF_TOTAL <= k < LAST_OF_TOTAL + 4) ensures d[k] == e[k] { NoError(d[k]); }
    FourBytesAreBits(d, e, LAST_OF_TOTAL);
  }
}
