/** The datagram format: a 21-byte header with an embedded checksum (src/transport/messageBuffer.ts). */
module MessageBuffer {
  import opened BufferUtils
  import opened Crc

  datatype Option<+T> = None | Some(value: T)

  type UInt32 = n: nat | n < 0x1_0000_0000

  const HELLO: Byte := 0
  const HELLO_ACK: Byte := 1
  const DATA: Byte := 2
  const DATA_ACK: Byte := 3
  const KEEP_ALIVE: Byte := 4
  const FIN: Byte := 5

  const TYPE_SIZE: nat := 1
  const UID_SIZE: nat := 4
  const SEQ_SIZE: nat := 4
  const TOTAL_SIZE: nat := 4
  const ACK_SIZE: nat := 4
  const SUM_SIZE: nat := 4
  const HEADER_SIZE: nat := TYPE_SIZE + UID_SIZE + SEQ_SIZE + TOTAL_SIZE + ACK_SIZE + SUM_SIZE
  const MAX_PAYLOAD_SIZE: nat := 800

  /** A decoded datagram. */
  datatype Message = Message(kind: Byte, uid: UInt32, sequence: UInt32, ack: UInt32, total: UInt32, checksum: UInt32,
                             payload: seq<Byte>)

  // ---------- big-endian integers ----------

  function Range(size: nat): nat { if size == 0 then 1 else 256 * Range(size - 1) }

  function PutUInt(value: nat, size: nat): (s: seq<Byte>)
    ensures |s| == size
  {
    if size == 0 then [] else PutUInt(value / 256, size - 1) + [value % 256]
  }

  function GetUInt(s: seq<Byte>): (n: nat)
    ensures n < Range(|s|)
  {
    if s == [] then 0 else 256 * GetUInt(s[..|s| - 1]) + s[|s| - 1] as int
  }

  lemma {:induction false} GetPut(n: nat, size: nat)
    requires n < Range(size)
    ensures GetUInt(PutUInt(n, size)) == n
  {
    if size > 0 {
      GetPut(n / 256, size - 1);
      assert PutUInt(n, size)[..size - 1] == PutUInt(n / 256, size - 1);
    }
  }

  lemma {:induction false} PutGet(s: seq<Byte>)
    ensures PutUInt(GetUInt(s), |s|) == s
  {
    if s != [] {
      var high, low := GetUInt(s[..|s| - 1]), s[|s| - 1];
      PutGet(s[..|s| - 1]);
      DivMod(high, low);
    }
  }

  lemma DivMod(high: nat, low: Byte)
    ensures (256 * high + low) / 256 == high && (256 * high + low) % 256 == low
  {}

  lemma RangeOfFour()
    ensures Range(4) == 0x1_0000_0000 && Range(1) == 256
  {
    assert Range(2) == 65536;
    assert Range(3) == 16777216;
  }

  function GetUInt32(s: seq<Byte>): UInt32
    requires |s| == 4
  {
    RangeOfFour();
    GetUInt(s)
  }

  // ---------- the format ----------

  function Header(kind: Byte, uid: UInt32, sequence: UInt32, ack: UInt32, total: UInt32): (h: seq<Byte>)
    ensures |h| == HEADER_SIZE - SUM_SIZE
  {
    [kind] + PutUInt(uid, UID_SIZE) + PutUInt(sequence, SEQ_SIZE) + PutUInt(ack, ACK_SIZE) + PutUInt(total, TOTAL_SIZE)
  }

  function ZeroSum(): (z: seq<Byte>) ensures |z| == SUM_SIZE { [0, 0, 0, 0] }

  /** A whole datagram: header, checksum of the datagram with a zero checksum, payload. */
  function Datagram(kind: Byte, uid: UInt32, sequence: UInt32, ack: UInt32, total: UInt32,
                    payload: seq<Byte>): (d: seq<Byte>)
    ensures |d| == HEADER_SIZE + |payload|
  {
    var h := Header(kind, uid, sequence, ack, total);
    h + PutUInt(Crc32Of(h + ZeroSum() + payload), SUM_SIZE) + payload
  }

  function Zeroed(d: seq<Byte>): (z: seq<Byte>)
    requires |d| >= HEADER_SIZE
    ensures |z| == |d|
  {
    d[..HEADER_SIZE - SUM_SIZE] + ZeroSum() + d[HEADER_SIZE..]
  }

  function SumField(d: seq<Byte>): UInt32
    requires |d| >= HEADER_SIZE
  {
    GetUInt32(d[HEADER_SIZE - SUM_SIZE..HEADER_SIZE])
  }

  function Decode(d: seq<Byte>): Option<Message>
  {
    if |d| < HEADER_SIZE then None
    else if SumField(d) != Crc32Of(Zeroed(d)) then None
    else Some(Message(d[0], GetUInt32(d[1..5]), GetUInt32(d[5..9]), GetUInt32(d[9..13]), GetUInt32(d[13..17]),
                      SumField(d), d[HEADER_SIZE..]))
  }

  // ---------- reading and writing buffers in place ----------

  method WriteUIntBE(buffer: array<Byte>, value: nat, offset: nat, size: nat)
    requires offset + size <= buffer.Length && value < Range(size)
    modifies buffer
    ensures buffer[..] == old(buffer[..offset]) + PutUInt(value, size) + old(buffer[offset + size..])
  {
    var v: nat := value;
    var k: nat := size;
    while k > 0
      invariant 0 <= k <= size && v < Range(k)
      invariant buffer[..offset + k] == old(buffer[..offset + k])
      invariant buffer[offset + size..] == old(buffer[offset + size..])
      invariant PutUInt(v, k) + buffer[offset + k..offset + size] == PutUInt(value, size)
    {
      ghost var tail := buffer[offset + k..offset + size];
      k := k - 1;
      buffer[offset + k] := v % 256;
      assert buffer[offset + k..offset + size] == [v % 256] + tail;
      assert PutUInt(v, k + 1) + tail == PutUInt(v / 256, k) + ([v % 256] + tail);
      v := v / 256;
    }
    assert buffer[..] == buffer[..offset] + buffer[offset..offset + size] + buffer[offset + size..];
    assert PutUInt(v, 0) + buffer[offset..offset + size] == buffer[offset..offset + size];
  }

  method ReadUIntBE(buffer: array<Byte>, offset: nat, size: nat) returns (value: nat)
    requires offset + size <= buffer.Length
    ensures value == GetUInt(buffer[offset..offset + size])
  {
    value := 0;
    for k := 0 to size
      invariant value == GetUInt(buffer[offset..offset + k])
    {
      assert buffer[offset..offset + k + 1][..k] == buffer[offset..offset + k];
      value := 256 * value + buffer[offset + k];
    }
  }

  /** The message in an accepted buffer, read at a running offset. */
  method ReadMessage(buffer: array<Byte>, checksum: UInt32) returns (message: Message)
    requires buffer.Length >= HEADER_SIZE
    ensures message == Message(buffer[0], GetUInt32(buffer[1..5]), GetUInt32(buffer[5..9]), GetUInt32(buffer[9..13]),
                               GetUInt32(buffer[13..17]), checksum, buffer[HEADER_SIZE..])
  {
    hide GetUInt;
    RangeOfFour();
    var offset := 0;
    var kind := buffer[offset];
    offset := offset + TYPE_SIZE;
    var uid := ReadUIntBE(buffer, offset, UID_SIZE);
    offset := offset + UID_SIZE;
    var sequence := ReadUIntBE(buffer, offset, SEQ_SIZE);
    offset := offset + SEQ_SIZE;
    var ack := ReadUIntBE(buffer, offset, ACK_SIZE);
    offset := offset + ACK_SIZE;
    var total := ReadUIntBE(buffer, offset, TOTAL_SIZE);
    offset := offset + TOTAL_SIZE + SUM_SIZE;
    message := Message(kind, uid, sequence, ack, total, checksum, buffer[offset..]);
  }

  lemma ZeroedSlices(d: seq<Byte>)
    requires |d| >= HEADER_SIZE
    ensures var z := Zeroed(d);
            z[0] == d[0] && z[1..5] == d[1..5] && z[5..9] == d[5..9] && z[9..13] == d[9..13] && z[13..17] == d[13..17]
            && z[HEADER_SIZE..] == d[HEADER_SIZE..]
  {}

  /** Reads a datagram, zeroing its checksum bytes on the way. */
  method DecodeBuffer(table: seq<bv32>, buffer: array<Byte>) returns (message: Option<Message>)
    requires IsCrcTable(table)
    modifies buffer
    ensures message == Decode(old(buffer[..]))
    ensures buffer[..] == if buffer.Length < HEADER_SIZE then old(buffer[..]) else Zeroed(old(buffer[..]))
  {
    if buffer.Length < HEADER_SIZE { return None; }
    hide Crc32Of, PutUInt, GetUInt, IsCrcTable, GetUInt32;
    ghost var d := buffer[..];
    var checksum := ReadSum(buffer);
    ZeroPut();
    assert d[17..21] == buffer[17..21];
    WriteUIntBE(buffer, 0, HEADER_SIZE - SUM_SIZE, SUM_SIZE);
    assert buffer[..] == Zeroed(d);
    var initialChecksum := Crc32(table, buffer);
    if checksum != initialChecksum { return None; }
    var m := ReadMessage(buffer, checksum);
    ZeroedSlices(d);
    assert forall a, b :: 0 <= a <= b <= |d| ==> buffer[a..b] == buffer[..][a..b];
    message := Some(m);
  }

  method ReadSum(buffer: array<Byte>) returns (sum: UInt32)
    requires buffer.Length >= HEADER_SIZE
    ensures sum == GetUInt32(buffer[17..21])
  {
    RangeOfFour();
    sum := ReadUIntBE(buffer, HEADER_SIZE - SUM_SIZE, SUM_SIZE);
  }

  lemma ZeroPut()
    ensures PutUInt(0, SUM_SIZE) == ZeroSum() && 0 < Range(SUM_SIZE)
  {
    assert PutUInt(0, 1) == [0];
    assert PutUInt(0, 2) == [0, 0];
    assert PutUInt(0, 3) == [0, 0, 0];
  }

  // ---------- construction ----------

  /** What a caller asks to be sent; `None` stands for a property left undefined. */
  datatype Outgoing = Outgoing(kind: Byte, uid: Option<UInt32>, ack: Option<UInt32>, total: Option<UInt32>,
                               payload: Option<seq<Byte>>)

  datatype Constructed = Constructed(buffers: seq<seq<Byte>>, total: UInt32, uid: UInt32)

  function PayloadChunks(m: Outgoing): seq<seq<Byte>>
  {
    if m.payload.Some? then Chunks(m.payload.value, MAX_PAYLOAD_SIZE) else [[]]
  }

  /**
   The datagrams of a message, in order, and the total and uid they carry. `randomUid` is drawn when none is given.
   */
  function Construct(m: Outgoing, randomUid: UInt32): (c: Constructed)
    requires |PayloadChunks(m)| < 0x1_0000_0000
    ensures |c.buffers| == |PayloadChunks(m)|
  {
    var uid := if m.uid.Some? then m.uid.value else randomUid;
    var ack := if m.ack.Some? then m.ack.value else 0;
    var total := if m.total.Some? then m.total.value else |PayloadChunks(m)|;
    Constructed(
      seq(|PayloadChunks(m)|, i requires 0 <= i < |PayloadChunks(m)| =>
        Datagram(m.kind, uid, i, ack, total, PayloadChunks(m)[i])),
      total, uid)
  }

  /** Writes the header fields before the checksum; returns the offset after them. */
  method WriteHeader(buffer: array<Byte>, kind: Byte, uid: UInt32, sequence: UInt32, ack: UInt32, total: UInt32)
    returns (offset: nat)
    requires buffer.Length >= HEADER_SIZE
    modifies buffer
    ensures offset == HEADER_SIZE - SUM_SIZE
    ensures buffer[..] == Header(kind, uid, sequence, ack, total) + old(buffer[HEADER_SIZE - SUM_SIZE..])
  {
    hide PutUInt, Range;
    RangeOfFour();
    ghost var rest := buffer[1..];
    offset := 0;
    buffer[offset] := kind;
    offset := offset + TYPE_SIZE;
    assert buffer[..] == [kind] + rest;
    WriteUIntBE(buffer, uid, offset, UID_SIZE);
    offset := offset + UID_SIZE;
    ghost var h := [kind] + PutUInt(uid, UID_SIZE);
    assert buffer[..] == h + rest[4..];
    WriteUIntBE(buffer, sequence, offset, SEQ_SIZE);
    offset := offset + SEQ_SIZE;
    h := h + PutUInt(sequence, SEQ_SIZE);
    assert buffer[..] == h + rest[8..];
    WriteUIntBE(buffer, ack, offset, ACK_SIZE);
    offset := offset + ACK_SIZE;
    h := h + PutUInt(ack, ACK_SIZE);
    assert buffer[..] == h + rest[12..];
    WriteUIntBE(buffer, total, offset, TOTAL_SIZE);
    offset := offset + TOTAL_SIZE;
  }

  method CopyTo(chunk: seq<Byte>, buffer: array<Byte>, offset: nat)
    requires offset + |chunk| <= buffer.Length
    modifies buffer
    ensures buffer[..] == old(buffer[..offset]) + chunk + old(buffer[offset + |chunk|..])
  {
    forall i | 0 <= i < |chunk| {
      buffer[offset + i] := chunk[i];
    }
  }

  method BuildDatagram(table: seq<bv32>, kind: Byte, uid: UInt32, sequence: UInt32, ack: UInt32, total: UInt32,
                       chunk: seq<Byte>)
    returns (buffer: array<Byte>)
    requires IsCrcTable(table)
    ensures fresh(buffer) && buffer[..] == Datagram(kind, uid, sequence, ack, total, chunk)
  {
    hide Crc32Of, PutUInt, IsCrcTable, Range, Header;
    RangeOfFour();
    buffer := new Byte[HEADER_SIZE + |chunk|](_ => 0);
    ghost var h := Header(kind, uid, sequence, ack, total);
    var sumOffset := WriteHeader(buffer, kind, uid, sequence, ack, total);
    var offset := sumOffset + SUM_SIZE;
    assert buffer[..offset] == h + ZeroSum();
    CopyTo(chunk, buffer, offset);
    assert buffer[..] == h + ZeroSum() + chunk;
    var checkSum := Crc32(table, buffer);
    WriteUIntBE(buffer, checkSum, sumOffset, SUM_SIZE);
  }

  method ConstructBuffers(table: seq<bv32>, m: Outgoing, randomUid: UInt32)
    returns (buffers: seq<seq<Byte>>, total: UInt32, uid: UInt32)
    requires IsCrcTable(table) && |PayloadChunks(m)| < 0x1_0000_0000
    ensures Constructed(buffers, total, uid) == Construct(m, randomUid)
  {
    hide Datagram, IsCrcTable;
    buffers := [];
    uid := if m.uid.Some? then m.uid.value else randomUid;
    var seqNo := 0;
    var chunks := [[]];
    if m.payload.Some? {
      chunks := ChunkBuffer(m.payload.value, MAX_PAYLOAD_SIZE);
    }
    total := if m.total.Some? then m.total.value else |chunks|;
    var ack := if m.ack.Some? then m.ack.value else 0;
    while seqNo < |chunks|
      invariant 0 <= seqNo <= |chunks|
      invariant buffers == Construct(m, randomUid).buffers[..seqNo]
    {
      var buffer := BuildDatagram(table, m.kind, uid, seqNo, ack, total, chunks[seqNo]);
      buffers := buffers + [buffer[..]];
      seqNo := seqNo + 1;
    }
  }

  // ---------- round trip ----------

  lemma GetPut32(n: UInt32)
    ensures GetUInt32(PutUInt(n, 4)) == n
  {
    RangeOfFour();
    GetPut(n, 4);
  }

  /** The number that four bytes are, the first the most significant. */
  function FourBytes(a: Byte, b: Byte, c: Byte, d: Byte): int
  {
    0x100_0000 * (a as int) + 0x1_0000 * (b as int) + 0x100 * (c as int) + d as int
  }

  lemma PutIsBigEndian(n: UInt32)
    ensures var s := PutUInt(n, 4); FourBytes(s[0], s[1], s[2], s[3]) == n
  {
    var s := PutUInt(n, 4);
    RangeOfFour();
    GetPut(n, 4);
    hide PutUInt;
    GetIsBigEndian(s);
  }

  lemma GetIsBigEndian(s: seq<Byte>)
    requires |s| == 4
    ensures GetUInt(s) == FourBytes(s[0], s[1], s[2], s[3])
  {
    assert s[..3][..2] == s[..2] && s[..2][..1] == s[..1] && s[..1][..0] == [];
    assert GetUInt(s[..1]) == s[0] as int;
    assert GetUInt(s[..2]) == 0x100 * (s[0] as int) + s[1] as int;
    assert GetUInt(s[..3]) == 0x1_0000 * (s[0] as int) + 0x100 * (s[1] as int) + s[2] as int;
  }

  /** Where the fields of a datagram are: type 0, uid 1, sequence number 5, ack 9, total 13, checksum 17, payload 21. */
  lemma DatagramLayout(kind: Byte, uid: UInt32, sequence: UInt32, ack: UInt32, total: UInt32, payload: seq<Byte>)
    ensures var d := Datagram(kind, uid, sequence, ack, total, payload);
            && |d| == 21 + |payload| && d[0] == kind && d[21..] == payload
            && FourBytes(d[1], d[2], d[3], d[4]) == uid && FourBytes(d[5], d[6], d[7], d[8]) == sequence
            && FourBytes(d[9], d[10], d[11], d[12]) == ack && FourBytes(d[13], d[14], d[15], d[16]) == total
            && FourBytes(d[17], d[18], d[19], d[20]) == Crc32Of(d[..17] + [0, 0, 0, 0] + payload)
  {
    hide Crc32Of, PutUInt, FourBytes;
    var h := Header(kind, uid, sequence, ack, total);
    var sum := Crc32Of(h + ZeroSum() + payload);
    var d := Datagram(kind, uid, sequence, ack, total, payload);
    assert d[1..5] == PutUInt(uid, 4) && d[5..9] == PutUInt(sequence, 4) && d[9..13] == PutUInt(ack, 4);
    assert d[13..17] == PutUInt(total, 4) && d[17..21] == PutUInt(sum, 4) && d[..17] == h;
    PutIsBigEndian(uid);
    PutIsBigEndian(sequence);
    PutIsBigEndian(ack);
    PutIsBigEndian(total);
    PutIsBigEndian(sum);
    FieldAt(d, 1);
    FieldAt(d, 5);
    FieldAt(d, 9);
    FieldAt(d, 13);
    FieldAt(d, 17);
  }

  lemma FieldAt(d: seq<Byte>, at: nat)
    requires at + 4 <= |d|
    ensures var s := d[at..at + 4]; s[0] == d[at] && s[1] == d[at + 1] && s[2] == d[at + 2] && s[3] == d[at + 3]
  {}

  /** Every datagram that is built decodes to the fields it was built from. */
  lemma DecodeDatagram(kind: Byte, uid: UInt32, sequence: UInt32, ack: UInt32, total: UInt32, payload: seq<Byte>)
    ensures var h := Header(kind, uid, sequence, ack, total);
            Decode(Datagram(kind, uid, sequence, ack, total, payload))
            == Some(Message(kind, uid, sequence, ack, total, Crc32Of(h + ZeroSum() + payload), payload))
  {
    hide Crc32Of, PutUInt, GetUInt32;
    var h := Header(kind, uid, sequence, ack, total);
    var sum := Crc32Of(h + ZeroSum() + payload);
    var d := Datagram(kind, uid, sequence, ack, total, payload);
    assert d[1..5] == PutUInt(uid, 4);
    assert d[5..9] == PutUInt(sequence, 4);
    assert d[9..13] == PutUInt(ack, 4);
    assert d[13..17] == PutUInt(total, 4);
    assert d[17..21] == PutUInt(sum, 4);
    assert d[21..] == payload;
    assert Zeroed(d) == h + ZeroSum() + payload;
    GetPut32(uid);
    GetPut32(sequence);
    GetPut32(ack);
    GetPut32(total);
    GetPut32(sum);
  }

  /** Only built datagrams decode: an accepted buffer is the datagram of the message it decodes to. */
  lemma DecodedIsDatagram(d: seq<Byte>)
    requires Decode(d).Some?
    ensures var m := Decode(d).value; d == Datagram(m.kind, m.uid, m.sequence, m.ack, m.total, m.payload)
  {
    var m := Decode(d).value;
    PutGet(d[1..5]);
    PutGet(d[5..9]);
    PutGet(d[9..13]);
    PutGet(d[13..17]);
    PutGet(d[17..21]);
    hide Crc32Of, PutUInt, GetUInt;
    var h := Header(m.kind, m.uid, m.sequence, m.ack, m.total);
    assert h == d[..17];
    assert d == d[..17] + d[17..21] + d[21..];
  }

  /** Two different accepted datagrams never decode to the same message. */
  lemma DecodeInjective(a: seq<Byte>, b: seq<Byte>)
    requires Decode(a).Some? && Decode(a) == Decode(b)
    ensures a == b
  {
    DecodedIsDatagram(a);
    DecodedIsDatagram(b);
  }

  /** The datagrams of a payload decode to its chunks, in order, each with the common uid and total. */
  lemma ConstructRoundTrip(m: Outgoing, randomUid: UInt32, i: nat)
    requires |PayloadChunks(m)| < 0x1_0000_0000 && i < |PayloadChunks(m)|
    ensures var c := Construct(m, randomUid); var got := Decode(c.buffers[i]);
            got.Some? && got.value.kind == m.kind && got.value.uid == c.uid && got.value.sequence == i
            && got.value.total == c.total
            && got.value.ack == (if m.ack.Some? then m.ack.value else 0)
            && got.value.payload == PayloadChunks(m)[i] && |got.value.payload| <= MAX_PAYLOAD_SIZE
  {
    hide Decode, Datagram;
    var c := Construct(m, randomUid);
    DecodeDatagram(m.kind, c.uid, i, if m.ack.Some? then m.ack.value else 0, c.total, PayloadChunks(m)[i]);
  }

  /** Reading back the payloads of a constructed message and laying them end to end gives its payload. */
  lemma ConstructLosesNothing(m: Outgoing, randomUid: UInt32, read: seq<seq<Byte>>)
    requires m.payload.Some? && |PayloadChunks(m)| < 0x1_0000_0000
    requires var bs := Construct(m, randomUid).buffers;
             |read| == |bs| && forall i :: 0 <= i < |bs| ==>
               Decode(bs[i]).Some? && read[i] == Decode(bs[i]).value.payload
    ensures Concat(read) == m.payload.value
    ensures |read| == (|m.payload.value| + MAX_PAYLOAD_SIZE - 1) / MAX_PAYLOAD_SIZE
  {
    hide Decode, Datagram;
    forall i | 0 <= i < |read| ensures read[i] == PayloadChunks(m)[i] {
      ConstructRoundTrip(m, randomUid, i);
    }
    assert read == Chunks(m.payload.value, MAX_PAYLOAD_SIZE);
    ConcatChunks(m.payload.value, MAX_PAYLOAD_SIZE);
    ChunkCount(m.payload.value, MAX_PAYLOAD_SIZE);
  }

  // ---------- corruption ----------

  /**
   `e` is `d` with a burst in it: the two differ, only within 32 consecutive bits, and not in the checksum field and
   elsewhere at once.
   */
  predicate IsBurst(d: seq<Byte>, e: seq<Byte>, start: nat)
  {
    && |d| >= HEADER_SIZE && e != d && SameOutside(d, e, start)
    && (e[HEADER_SIZE - SUM_SIZE..HEADER_SIZE] == d[HEADER_SIZE - SUM_SIZE..HEADER_SIZE] || Zeroed(e) == Zeroed(d))
  }

  /** A valid datagram with a burst in it is rejected. */
  lemma BurstRejected(d: seq<Byte>, e: seq<Byte>, start: nat)
    requires Decode(d).Some? && IsBurst(d, e, start)
    ensures Decode(e).None?
  {
    if e[HEADER_SIZE - SUM_SIZE..HEADER_SIZE] == d[HEADER_SIZE - SUM_SIZE..HEADER_SIZE] {
      BurstInData(d, e, start);
    } else {
      BurstInSum(d, e);
    }
  }

  lemma BurstInData(d: seq<Byte>, e: seq<Byte>, start: nat)
    requires Decode(d).Some? && e != d && SameOutside(d, e, start)
    requires e[HEADER_SIZE - SUM_SIZE..HEADER_SIZE] == d[HEADER_SIZE - SUM_SIZE..HEADER_SIZE]
    ensures Decode(e).None?
  {
    hide Crc32Of, GetUInt32, BitOf, Word;
    var y, z := Zeroed(d), Zeroed(e);
    forall n | 0 <= n < 8 * |y| && !(start <= n < start + 32) ensures BitAt(y, n) == BitAt(z, n) {
      assert BitAt(d, n) == BitAt(e, n);
    }
    if y == z { ZeroedDiffers(d, e); }
    CrcDetectsBurst(y, z, start);
  }

  lemma ZeroedDiffers(d: seq<Byte>, e: seq<Byte>)
    requires |d| == |e| >= HEADER_SIZE && Zeroed(d) == Zeroed(e)
    requires e[HEADER_SIZE - SUM_SIZE..HEADER_SIZE] == d[HEADER_SIZE - SUM_SIZE..HEADER_SIZE]
    ensures d == e
  {
    var start := HEADER_SIZE - SUM_SIZE;
    assert d[..start] == Zeroed(d)[..start] && d[HEADER_SIZE..] == Zeroed(d)[HEADER_SIZE..];
    assert e[..start] == Zeroed(e)[..start] && e[HEADER_SIZE..] == Zeroed(e)[HEADER_SIZE..];
    assert d == d[..start] + d[start..HEADER_SIZE] + d[HEADER_SIZE..];
    assert e == e[..start] + e[start..HEADER_SIZE] + e[HEADER_SIZE..];
  }

  lemma BurstInSum(d: seq<Byte>, e: seq<Byte>)
    requires Decode(d).Some? && |e| == |d| && Zeroed(e) == Zeroed(d)
    requires e[HEADER_SIZE - SUM_SIZE..HEADER_SIZE] != d[HEADER_SIZE - SUM_SIZE..HEADER_SIZE]
    ensures Decode(e).None?
  {
    hide Crc32Of, PutUInt, GetUInt;
    PutGet(d[HEADER_SIZE - SUM_SIZE..HEADER_SIZE]);
    PutGet(e[HEADER_SIZE - SUM_SIZE..HEADER_SIZE]);
  }

  /** In particular four consecutive bytes before the checksum, inside it or after it. */
  lemma FourBytesAreBurst(d: seq<Byte>, at: nat, burst: seq<Byte>)
    requires |burst| <= 4 && at + |burst| <= |d| && |d| >= HEADER_SIZE && burst != d[at..at + |burst|]
    requires at + |burst| <= HEADER_SIZE - SUM_SIZE || HEADER_SIZE <= at
             || (HEADER_SIZE - SUM_SIZE <= at && at + |burst| <= HEADER_SIZE)
    ensures IsBurst(d, d[..at] + burst + d[at + |burst|..], 8 * at)
  {
    hide SameOutside;
    var e := d[..at] + burst + d[at + |burst|..];
    FourBytesAreBits(d, e, at);
    assert e[at..at + |burst|] == burst;
  }
}
