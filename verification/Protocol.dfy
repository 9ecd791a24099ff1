/**
 A sender and a receiver over a network that may lose, duplicate and reorder datagrams, and corrupt them in ways that
 the checksum detects, as one step system.

 The network is the set of datagrams ever put on it: a step may deliver any of them, any number of times, in
 any order, or never, intact or with a detectable error in it (`Errors.Detectable`, which every burst within 32 bits
 that does not straddle the checksum field is). What an error that is not detectable can do is in module `Missed`.
 A run is any sequence of steps; a step that is not possible in a state changes nothing. Time stamps are arbitrary
 inputs in what holds of every run, and never decrease (`InTime`) in the runs that are shown to exist.
 */
module Protocol {
  import opened BufferUtils
  import opened MessageBuffer
  import opened Errors
  import R = Receiver
  import S = Sender

  datatype Net = Net(
    sender: S.SenderState,
    payloads: map<UInt32, seq<Byte>>,       // what each transmission was given
    collector: R.Collector,
    toReceiver: set<seq<Byte>>,
    toSender: set<seq<Byte>>,
    transmitted: seq<UInt32>,                // `transmitted` events
    received: seq<(UInt32, seq<Byte>)>,      // `receive` events, with the uid they completed
    evicted: set<UInt32>)                    // uids that lost an entry to its age or to the end of the session

  const INITIAL := Net(S.NO_TRANSMISSIONS, map[], map[], {}, {}, [], [], {})

  datatype Step =
    | Send(uid: UInt32, payload: seq<Byte>)
    | TimerFires(uid: UInt32)
    | PauseOver(uid: UInt32)
    | Dispose
    | DeliverData(datagram: seq<Byte>, now: int)
    | DeliverAck(datagram: seq<Byte>)
    | CorruptData(datagram: seq<Byte>, error: seq<Byte>, now: int)   // comes in with the error added to it
    | CorruptAck(datagram: seq<Byte>, error: seq<Byte>)
    | Cleanup(now: int)
    | Leave

  // ---------- steps ----------

  function Count(payload: seq<Byte>): nat { |Chunks(payload, MAX_PAYLOAD_SIZE)| }

  /** The datagrams of `buffers` with the given numbers. */
  function Picked(buffers: seq<seq<Byte>>, numbers: seq<nat>): set<seq<Byte>>
  {
    set i | 0 <= i < |numbers| && numbers[i] < |buffers| :: buffers[numbers[i]]
  }

  function AckDatagram(m: Message): seq<Byte> { Datagram(DATA_ACK, m.uid, 0, m.sequence, m.total, []) }

  /** The datagram may come in with this error. */
  predicate IsError(d: seq<Byte>, error: seq<Byte>) { |error| == |d| >= HEADER_SIZE && Detectable(error) }

  function DoSend(s: Net, uid: UInt32, payload: seq<Byte>): Net
    requires Count(payload) < 0x1_0000_0000
  {
    var (sender, sent) := S.Register(s.sender, uid, S.PartDatagrams(uid, payload));
    s.(sender := sender, payloads := s.payloads[uid := payload],
       toReceiver := s.toReceiver + Picked(S.PartDatagrams(uid, payload), sent))
  }

  function DoTx(s: Net, uid: UInt32, out: S.Sends): Net
  {
    s.(sender := s.sender.(txs := s.sender.txs[uid := out.tx]),
       toReceiver := s.toReceiver + Picked(out.tx.buffers, out.sent))
  }

  function DoArrival(s: Net, m: Message, now: int): Net
  {
    var out := R.Handle(s.collector, m, now);
    s.(collector := out.collector,
       toSender := s.toSender + if out.acked then {AckDatagram(m)} else {},
       received := s.received + if out.received.Some? then [(m.uid, out.received.value)] else [])
  }

  function DoAck(s: Net, m: Message): Net
  {
    var (sender, emitted) := S.Ack(s.sender, m.uid, m.ack);
    s.(sender := sender, transmitted := s.transmitted + if emitted then [m.uid] else [])
  }

  function Do(s: Net, step: Step): Net
  {
    match step
    case Send(uid, payload) =>
      if s.sender.disposed || uid in s.sender.txs || Count(payload) >= 0x1_0000_0000 then s else DoSend(s, uid, payload)
    case TimerFires(uid) =>
      if uid in s.sender.txs && s.sender.txs[uid].timer then DoTx(s, uid, S.TimerFires(s.sender.txs[uid])) else s
    case PauseOver(uid) =>
      if uid in s.sender.txs && s.sender.txs[uid].resending then DoTx(s, uid, S.Resume(s.sender.txs[uid])) else s
    case Dispose => s.(sender := S.Dispose(s.sender))
    case DeliverData(d, now) =>
      if d in s.toReceiver && Decode(d).Some? then DoArrival(s, Decode(d).value, now) else s
    case DeliverAck(d) =>
      if d in s.toSender && Decode(d).Some? && Decode(d).value.kind == DATA_ACK then DoAck(s, Decode(d).value) else s
    case CorruptData(d, error, now) =>
      if d in s.toReceiver && IsError(d, error) && Decode(XorBytes(d, error)).Some? then
        DoArrival(s, Decode(XorBytes(d, error)).value, now)
      else s
    case CorruptAck(d, error) =>
      if d in s.toSender && IsError(d, error) && Decode(XorBytes(d, error)).Some?
         && Decode(XorBytes(d, error)).value.kind == DATA_ACK
      then DoAck(s, Decode(XorBytes(d, error)).value)
      else s
    case Cleanup(now) =>
      var kept := R.RemoveExpired(s.collector, now);
      s.(collector := kept, evicted := s.evicted + (s.collector.Keys - kept.Keys))
    case Leave => s.(collector := map[], evicted := s.evicted + s.collector.Keys)
  }

  // ---------- the invariant ----------

  /** `m` is the part of a registered payload that its number says. */
  ghost predicate IsPart(payloads: map<UInt32, seq<Byte>>, m: Message)
  {
    && m.kind == DATA && m.uid in payloads
    && m.total == Count(payloads[m.uid]) && m.sequence < m.total
    && m.payload == Chunks(payloads[m.uid], MAX_PAYLOAD_SIZE)[m.sequence]
  }

  ghost predicate Delivered(s: Net, uid: UInt32) { uid in s.payloads && (uid, s.payloads[uid]) in s.received }

  /** The receiver was allowed to lose this message: evicted, or over the size limit. */
  ghost predicate Excused(s: Net, uid: UInt32)
  {
    uid in s.evicted || (uid in s.payloads && |s.payloads[uid]| > R.MAX_MESSAGE_SIZE_BYTES)
  }

  /** What an ack of part `k` of `uid` vouches for. */
  ghost predicate Vouched(s: Net, uid: UInt32, k: nat)
  {
    && uid in s.payloads && k < Count(s.payloads[uid]) <= R.MAX_MESSAGE_PARTS
    && (R.Holds(s.collector, uid, k) || Delivered(s, uid) || Excused(s, uid))
  }

  ghost predicate SenderOk(s: Net)
  {
    && S.SenderInv(s.sender) && s.sender.txs.Keys == s.payloads.Keys
    && forall u :: u in s.payloads ==>
         Count(s.payloads[u]) < 0x1_0000_0000 && s.sender.txs[u].buffers == S.PartDatagrams(u, s.payloads[u])
  }

  /** Each entry is a part of the payload registered for its uid. */
  ghost predicate EntryOk(e: R.Entry, payload: seq<Byte>)
  {
    && e.total == Count(payload)
    && forall k :: k in e.parts ==> k < e.total && e.parts[k] == Chunks(payload, MAX_PAYLOAD_SIZE)[k]
  }

  ghost predicate EntriesOk(c: R.Collector, payloads: map<UInt32, seq<Byte>>)
  {
    forall u :: u in c ==> u in payloads && EntryOk(c[u], payloads[u])
  }

  /** Each message handed over is the payload registered for its uid. */
  ghost predicate ReceivedOk(received: seq<(UInt32, seq<Byte>)>, payloads: map<UInt32, seq<Byte>>)
  {
    forall i :: 0 <= i < |received| ==>
      received[i].0 in payloads && received[i].1 == payloads[received[i].0]
        && 0 < |received[i].1| <= R.MAX_MESSAGE_SIZE_BYTES
  }

  ghost predicate ReceiverOk(s: Net)
  {
    R.CollectorInv(s.collector) && EntriesOk(s.collector, s.payloads) && ReceivedOk(s.received, s.payloads)
  }

  ghost predicate DataOk(s: Net)
  {
    forall d :: d in s.toReceiver ==> Decode(d).Some? && IsPart(s.payloads, Decode(d).value)
  }

  ghost predicate AcksOk(s: Net)
  {
    && (forall d :: d in s.toSender ==>
          Decode(d).Some? && Decode(d).value.kind == DATA_ACK && Vouched(s, Decode(d).value.uid, Decode(d).value.ack))
    && (forall u, k :: u in s.sender.txs && k in s.sender.txs[u].acks ==> Vouched(s, u, k))
  }

  ghost predicate Inv(s: Net) { SenderOk(s) && ReceiverOk(s) && DataOk(s) && AcksOk(s) }

  // ---------- each step keeps the invariant ----------

  /** The datagrams of a payload decode to its parts. */
  lemma PartsDecode(uid: UInt32, payload: seq<Byte>, k: nat)
    requires k < Count(payload) < 0x1_0000_0000
    ensures var got := Decode(S.PartDatagrams(uid, payload)[k]);
            got.Some? && IsPart(map[uid := payload], got.value) && got.value.uid == uid && got.value.sequence == k
            && got.value.total == Count(payload) && got.value.payload == Chunks(payload, MAX_PAYLOAD_SIZE)[k]
  {
    hide Decode, Datagram;
    ConstructRoundTrip(S.DataMessage(payload), uid, k);
  }

  lemma PickedDecode(payloads: map<UInt32, seq<Byte>>, uid: UInt32, numbers: seq<nat>)
    requires uid in payloads && Count(payloads[uid]) < 0x1_0000_0000
    ensures forall d :: d in Picked(S.PartDatagrams(uid, payloads[uid]), numbers) ==>
              Decode(d).Some? && IsPart(payloads, Decode(d).value)
  {
    hide Decode, S.PartDatagrams, Chunks;
    var buffers := S.PartDatagrams(uid, payloads[uid]);
    assert |buffers| == Count(payloads[uid]) by { hide *; PartsCount(uid, payloads[uid]); }
    forall d | d in Picked(buffers, numbers) ensures Decode(d).Some? && IsPart(payloads, Decode(d).value) {
      var i :| 0 <= i < |numbers| && numbers[i] < |buffers| && d == buffers[numbers[i]];
      PartsDecode(uid, payloads[uid], numbers[i]);
    }
  }

  lemma PartsCount(uid: UInt32, payload: seq<Byte>)
    requires Count(payload) < 0x1_0000_0000
    ensures |S.PartDatagrams(uid, payload)| == Count(payload)
  {}

  /** The ack is what the program constructs: the only buffer of a message without payload. */
  lemma AckIsConstructed(m: Message, randomUid: UInt32)
    ensures var ack := Outgoing(DATA_ACK, Some(m.uid), Some(m.sequence), Some(m.total), None);
            |PayloadChunks(ack)| == 1 && Construct(ack, randomUid).buffers == [AckDatagram(m)]
  {
    hide Datagram;
  }

  lemma AckDecodes(m: Message)
    ensures var got := Decode(AckDatagram(m));
            got.Some? && got.value.kind == DATA_ACK && got.value.uid == m.uid && got.value.ack == m.sequence
  {
    hide Decode, Datagram;
    DecodeDatagram(DATA_ACK, m.uid, 0, m.sequence, m.total, []);
  }

  /** What was vouched for still is. */
  ghost predicate StillVouched(s: Net, t: Net)
  {
    forall u, k :: Vouched(s, u, k) ==> Vouched(t, u, k)
  }

  ghost predicate NoNewAcks(s: Net, t: Net)
  {
    && t.toSender == s.toSender
    && forall u :: u in t.sender.txs ==>
         t.sender.txs[u].acks == if u in s.sender.txs then s.sender.txs[u].acks else {}
  }

  lemma AcksFrame(s: Net, t: Net)
    requires AcksOk(s) && StillVouched(s, t) && NoNewAcks(s, t)
    ensures AcksOk(t)
  {
    hide Vouched, Decode;
  }

  /** A payload under a new uid disturbs nothing on the receiver's side. */
  lemma NewPayloadFrame(s: Net, t: Net, uid: UInt32, payload: seq<Byte>)
    requires uid !in s.payloads && t.payloads == s.payloads[uid := payload]
    requires t.collector == s.collector && t.received == s.received && t.evicted == s.evicted
    ensures ReceiverOk(s) ==> ReceiverOk(t)
    ensures StillVouched(s, t)
  {
    hide EntryOk, R.CollectorInv, Chunks;
  }

  lemma SendKeepsSender(s: Net, uid: UInt32, payload: seq<Byte>)
    requires SenderOk(s) && !s.sender.disposed && uid !in s.sender.txs && Count(payload) < 0x1_0000_0000
    ensures var t := DoSend(s, uid, payload); SenderOk(t) && NoNewAcks(s, t)
  {
    hide S.PartDatagrams, Chunks, S.Transmit, S.TxInv;
    var buffers := S.PartDatagrams(uid, payload);
    S.NewTxInv(buffers);
    S.FirstWindowLive(buffers);
  }

  lemma SendKeepsInv(s: Net, uid: UInt32, payload: seq<Byte>)
    requires Inv(s) && !s.sender.disposed && uid !in s.sender.txs && Count(payload) < 0x1_0000_0000
    ensures Inv(DoSend(s, uid, payload))
  {
    hide SenderOk, ReceiverOk, AcksOk, Decode, S.PartDatagrams, Chunks, S.Register, Picked;
    var t := DoSend(s, uid, payload);
    assert uid !in s.payloads by { hide *; SendersKnown(s); }
    SendKeepsSender(s, uid, payload);
    NewPayloadFrame(s, t, uid, payload);
    AcksFrame(s, t);
    PickedDecode(t.payloads, uid, S.Register(s.sender, uid, S.PartDatagrams(uid, payload)).1);
  }

  lemma SendersKnown(s: Net)
    requires SenderOk(s)
    ensures s.sender.txs.Keys == s.payloads.Keys && s.sender.registry <= s.sender.txs.Keys
  {}

  /** A step of one transmission's timer or resend loop. */
  lemma TxKeepsInv(s: Net, uid: UInt32, out: S.Sends)
    requires Inv(s) && uid in s.sender.txs && S.KeepsAcks(s.sender.txs[uid], out.tx)
    requires out.tx.cancelled == s.sender.txs[uid].cancelled
    ensures Inv(DoTx(s, uid, out))
  {
    hide SenderOk, ReceiverOk, AcksOk, Decode, IsPart, Chunks, S.TxInv, Picked, StillVouched;
    var t := DoTx(s, uid, out);
    TxKeepsSender(s, uid, out);
    SameReceiver(s, t);
    AcksFrame(s, t);
    PickedDecode(t.payloads, uid, out.sent);
  }

  lemma TxKeepsSender(s: Net, uid: UInt32, out: S.Sends)
    requires SenderOk(s) && uid in s.sender.txs && S.KeepsAcks(s.sender.txs[uid], out.tx)
    requires out.tx.cancelled == s.sender.txs[uid].cancelled
    ensures var t := DoTx(s, uid, out); SenderOk(t) && NoNewAcks(s, t)
    ensures uid in s.payloads && Count(s.payloads[uid]) < 0x1_0000_0000
    ensures out.tx.buffers == S.PartDatagrams(uid, s.payloads[uid])
  {
    hide S.PartDatagrams, Chunks, S.TxInv, Picked;
  }

  lemma SameReceiver(s: Net, t: Net)
    requires t.payloads == s.payloads && t.collector == s.collector && t.received == s.received
             && t.evicted == s.evicted
    ensures ReceiverOk(s) ==> ReceiverOk(t)
    ensures StillVouched(s, t)
  {
    hide EntryOk, R.CollectorInv, Chunks;
  }

  lemma DisposeKeepsInv(s: Net)
    requires Inv(s)
    ensures Inv(s.(sender := S.Dispose(s.sender)))
  {
    hide ReceiverOk, AcksOk, DataOk, Decode, S.PartDatagrams, Chunks, S.TxInv, S.Cancel;
    var t := s.(sender := S.Dispose(s.sender));
    S.StepKeepsInv(s.sender, S.Disposes);
    forall u | u in s.sender.txs ensures S.KeepsAcks(s.sender.txs[u], S.Cancel(s.sender.txs[u])) {
      S.TimerStepsKeepInv(s.sender.txs[u]);
    }
    SameReceiver(s, t);
    AcksFrame(s, t);
    assert DataOk(t) by { hide *; SameData(s, t); }
  }

  lemma SameData(s: Net, t: Net)
    requires t.payloads == s.payloads && t.toReceiver == s.toReceiver && DataOk(s)
    ensures DataOk(t)
  {
    hide Decode, IsPart;
  }

  lemma AckKeepsInv(s: Net, m: Message)
    requires Inv(s) && Vouched(s, m.uid, m.ack)
    ensures Inv(DoAck(s, m))
  {
    hide ReceiverOk, DataOk, Decode, S.PartDatagrams, Chunks, S.TxInv, S.CollectAck, Vouched;
    var t := DoAck(s, m);
    S.StepKeepsInv(s.sender, S.Acks(m.uid, m.ack));
    if m.uid in s.sender.registry { S.AckMeaning(s.sender.txs[m.uid], m.ack); }
    SameReceiver(s, t);
    assert DataOk(t) by { hide *; SameData(s, t); }
  }
  // ---------- arrivals ----------

  /** Parts of a payload never hold more bytes than the payload has up to them. */
  lemma {:induction false} BytesBound(parts: R.Parts, chunks: seq<seq<Byte>>, n: nat)
    requires n <= |chunks| && forall k :: k in parts && k < n ==> parts[k] == chunks[k]
    ensures R.Bytes(parts, n) <= |Concat(chunks[..n])|
  {
    if n > 0 {
      BytesBound(parts, chunks, n - 1);
      assert chunks[..n][..n - 1] == chunks[..n - 1];
    }
  }

  lemma EntryBytesBound(e: R.Entry, payload: seq<Byte>)
    requires EntryOk(e, payload)
    ensures R.Bytes(e.parts, e.total) <= |payload|
  {
    var chunks := Chunks(payload, MAX_PAYLOAD_SIZE);
    BytesBound(e.parts, chunks, e.total);
    assert chunks[..e.total] == chunks;
    ConcatChunks(payload, MAX_PAYLOAD_SIZE);
  }

  /** The entry an arriving part is stored into is again made of parts of the payload, and within its length. */
  lemma StoredOk(s: Net, m: Message, now: int)
    requires ReceiverOk(s) && IsPart(s.payloads, m) && R.IsValidDataMessage(m)
    ensures EntryOk(R.Opened(s.collector, m, now), s.payloads[m.uid])
    ensures !R.FateOf(s.collector, m).Ignored? || m.uid !in s.collector
    ensures var e := R.Stored(R.Opened(s.collector, m, now), m);
            EntryOk(e, s.payloads[m.uid])
            && (!R.FateOf(s.collector, m).Duplicate? ==> e.receivedBytes <= |s.payloads[m.uid]|)
  {
    hide Chunks, R.CollectorInv, ReceivedOk;
    var o := R.Opened(s.collector, m, now);
    assert EntryOk(o, s.payloads[m.uid]);
    if m.sequence !in o.parts {
      assert o.receivedBytes == R.Bytes(o.parts, o.total) by { hide *; OpenedBytes(s.collector, m, now); }
      hide R.FateOf, R.Opened;
      R.BytesInsert(o.parts, m.sequence, m.payload, m.total);
      EntryBytesBound(R.Stored(o, m), s.payloads[m.uid]);
    }
  }

  lemma OpenedBytes(c: R.Collector, m: Message, now: int)
    requires R.CollectorInv(c)
    ensures var o := R.Opened(c, m, now); o.receivedBytes == R.Bytes(o.parts, o.total)
  {
    R.BytesEmpty(m.total);
    assert m.uid in c ==> R.EntryInv(c[m.uid]);
  }

  /** An entry with all its parts is the payload. */
  lemma CompleteIsPayload(e: R.Entry, payload: seq<Byte>)
    requires EntryOk(e, payload) && R.HasAll(e.parts, e.total)
    ensures Concat(R.InOrder(e.parts, e.total)) == payload
  {
    assert R.InOrder(e.parts, e.total) == Chunks(payload, MAX_PAYLOAD_SIZE);
    ConcatChunks(payload, MAX_PAYLOAD_SIZE);
  }

  /** What an arriving part of a registered payload does. */
  lemma ArrivalMeaning(s: Net, m: Message, now: int)
    requires ReceiverOk(s) && IsPart(s.payloads, m) && R.IsValidDataMessage(m)
    ensures var o := R.Collect(s.collector, m, now); var fate := R.FateOf(s.collector, m);
            && (fate.Overflow? ==> |s.payloads[m.uid]| > R.MAX_MESSAGE_SIZE_BYTES)
            && (m.uid in o.collector ==> EntryOk(o.collector[m.uid], s.payloads[m.uid]))
            && (o.received.Some? ==>
                  o.received.value == s.payloads[m.uid] && 0 < |s.payloads[m.uid]| <= R.MAX_MESSAGE_SIZE_BYTES)
            && (o.acked ==> o.received.Some? || R.Holds(o.collector, m.uid, m.sequence))
            && (forall k :: R.Holds(s.collector, m.uid, k) ==>
                  fate.Overflow? || o.received.Some? || R.Holds(o.collector, m.uid, k))
            && (forall u :: u != m.uid ==> (u in o.collector <==> u in s.collector)
                                           && (u in s.collector ==> o.collector[u] == s.collector[u]))
  {
    hide Chunks, EntryOk, R.CollectorInv, R.ConcatTo;
    StoredOk(s, m, now);
    var e := R.Stored(R.Opened(s.collector, m, now), m);
    R.CollectMeaning(s.collector, m, now);
    if R.FateOf(s.collector, m).Kept? && R.HasAll(e.parts, e.total) {
      CompleteIsPayload(e, s.payloads[m.uid]);
      NonEmpty(s.payloads[m.uid]);
    }
  }

  lemma NonEmpty(payload: seq<Byte>)
    ensures Count(payload) > 0 <==> payload != []
  {}

  lemma ArrivalKeepsReceiver(s: Net, m: Message, now: int)
    requires ReceiverOk(s) && IsPart(s.payloads, m)
    ensures ReceiverOk(DoArrival(s, m, now))
  {
    hide Chunks, EntryOk, R.CollectorInv, R.Collect, AckDatagram, EntriesOk, ReceivedOk;
    R.HandleKeepsInv(s.collector, m, now);
    ReceivedAppend(s, m.uid);
    if R.IsValidDataMessage(m) {
      ArrivalMeaning(s, m, now);
      ArrivalKeepsEntries(s, m, now);
    }
  }

  lemma ArrivalKeepsEntries(s: Net, m: Message, now: int)
    requires ReceiverOk(s) && IsPart(s.payloads, m) && R.IsValidDataMessage(m)
    ensures EntriesOk(R.Collect(s.collector, m, now).collector, s.payloads)
  {
    hide Chunks, EntryOk, R.CollectorInv, R.Collect, ReceivedOk, R.IsValidDataMessage;
    ArrivalMeaning(s, m, now);
  }

  lemma ReceivedAppend(s: Net, uid: UInt32)
    requires ReceivedOk(s.received, s.payloads) && uid in s.payloads
    ensures s.received + [] == s.received
    ensures 0 < |s.payloads[uid]| <= R.MAX_MESSAGE_SIZE_BYTES ==>
            ReceivedOk(s.received + [(uid, s.payloads[uid])], s.payloads)
  {}

  lemma ArrivalKeepsVouched(s: Net, m: Message, now: int)
    requires ReceiverOk(s) && IsPart(s.payloads, m)
    ensures var t := DoArrival(s, m, now);
            StillVouched(s, t) && (R.Handle(s.collector, m, now).acked ==> Vouched(t, m.uid, m.sequence))
  {
    hide Chunks, EntryOk, ReceiverOk, R.Collect, AckDatagram, Vouched;
    var t := DoArrival(s, m, now);
    forall u, k | Vouched(s, u, k) ensures Vouched(t, u, k) {
      OneStaysVouched(s, m, now, u, k);
    }
    if R.Handle(s.collector, m, now).acked { AckIsVouched(s, m, now); }
  }

  lemma OneStaysVouched(s: Net, m: Message, now: int, u: UInt32, k: nat)
    requires ReceiverOk(s) && IsPart(s.payloads, m) && Vouched(s, u, k)
    ensures Vouched(DoArrival(s, m, now), u, k)
  {
    hide Chunks, EntryOk, ReceiverOk, R.Collect, AckDatagram;
    if R.IsValidDataMessage(m) {
      ArrivalMeaning(s, m, now);
      ReceiptStays(s, m, now, u);
    }
  }

  lemma ReceiptStays(s: Net, m: Message, now: int, u: UInt32)
    ensures Delivered(s, u) ==> Delivered(DoArrival(s, m, now), u)
  {
    hide R.Handle, AckDatagram;
  }

  lemma AckIsVouched(s: Net, m: Message, now: int)
    requires ReceiverOk(s) && IsPart(s.payloads, m) && R.Handle(s.collector, m, now).acked
    ensures Vouched(DoArrival(s, m, now), m.uid, m.sequence)
  {
    hide Chunks, EntryOk, ReceiverOk, R.Collect, AckDatagram;
    ArrivalMeaning(s, m, now);
    var t := DoArrival(s, m, now);
    if R.Collect(s.collector, m, now).received.Some? {
      assert t.received[|s.received|] == (m.uid, s.payloads[m.uid]);
    }
  }

  lemma ArrivalKeepsInv(s: Net, m: Message, now: int)
    requires Inv(s) && IsPart(s.payloads, m)
    ensures Inv(DoArrival(s, m, now))
  {
    hide ReceiverOk, DataOk, Decode, S.PartDatagrams, Chunks, S.TxInv, Vouched, R.Handle, AckDatagram;
    var t := DoArrival(s, m, now);
    ArrivalKeepsReceiver(s, m, now);
    ArrivalKeepsVouched(s, m, now);
    AckDecodes(m);
    assert DataOk(t) by { hide *; SameData(s, t); }
  }

  lemma ForgetKeepsInv(s: Net, kept: R.Collector, t: Net)
    requires Inv(s) && R.CollectorInv(kept)
    requires kept.Keys <= s.collector.Keys && forall u :: u in kept ==> kept[u] == s.collector[u]
    requires t == s.(collector := kept, evicted := s.evicted + (s.collector.Keys - kept.Keys))
    ensures Inv(t)
  {
    hide Decode, S.PartDatagrams, Chunks, S.TxInv, EntryOk, R.CollectorInv, IsPart, S.SenderInv;
    assert StillVouched(s, t);
    assert AcksOk(t) by { hide Vouched; AcksFrame(s, t); }
  }

  // ---------- runs ----------

  lemma DoKeepsInv(s: Net, step: Step)
    requires Inv(s)
    ensures Inv(Do(s, step))
  {
    hide DoSend, DoTx, DoArrival, DoAck, S.TimerFires, S.Resume, S.TxInv, Inv, R.RemoveExpired, S.Dispose, Decode,
      Count,
      SenderOk, ReceiverOk, DataOk, AcksOk, IsPart, Vouched, R.CollectorInv;
    InvParts(s);
    match step
    case Send(uid, payload) =>
      if !s.sender.disposed && uid !in s.sender.txs && Count(payload) < 0x1_0000_0000 { SendKeepsInv(s, uid, payload); }
    case TimerFires(uid) => if uid in s.sender.txs { TimerKeepsInv(s, uid); }
    case PauseOver(uid) => if uid in s.sender.txs { TimerKeepsInv(s, uid); }
    case Dispose => DisposeKeepsInv(s);
    case DeliverData(d, now) => if d in s.toReceiver { KnownData(s, d); ArrivalKeepsInv(s, Decode(d).value, now); }
    case DeliverAck(d) => if d in s.toSender { KnownAck(s, d); AckKeepsInv(s, Decode(d).value); }
    case CorruptData(_, _, _) => CorruptionIsHarmless(s, step);
    case CorruptAck(_, _) => CorruptionIsHarmless(s, step);
    case Cleanup(now) => ForgetKeepsInv(s, R.RemoveExpired(s.collector, now), Do(s, step)) by { ExpiredOnly(s, now); }
    case Leave =>
      var none: R.Collector := map[];
      NoneInv();
      assert s.collector.Keys - none.Keys == s.collector.Keys;
      ForgetKeepsInv(s, none, Do(s, step));
  }

  /** A datagram that comes in with a detectable error changes nothing. */
  lemma CorruptionIsHarmless(s: Net, step: Step)
    requires Inv(s) && (step.CorruptData? || step.CorruptAck?)
    ensures Do(s, step) == s
  {
    hide Decode, Detectable, XorBytes, IsPart, Vouched, DoArrival, DoAck, SenderOk, ReceiverOk;
    if step.CorruptData? && step.datagram in s.toReceiver && IsError(step.datagram, step.error) {
      KnownData(s, step.datagram);
      RejectedIffDetectable(step.datagram, step.error);
    }
    if step.CorruptAck? && step.datagram in s.toSender && IsError(step.datagram, step.error) {
      KnownAck(s, step.datagram);
      RejectedIffDetectable(step.datagram, step.error);
    }
  }

  lemma TimerKeepsInv(s: Net, uid: UInt32)
    requires Inv(s) && uid in s.sender.txs
    ensures Inv(DoTx(s, uid, S.TimerFires(s.sender.txs[uid])))
    ensures Inv(DoTx(s, uid, S.Resume(s.sender.txs[uid])))
  {
    hide S.TimerFires, S.Resume, S.TxInv, DoTx;
    S.TimerStepsKeepInv(s.sender.txs[uid]) by { assert SenderOk(s); }
    S.TimerNeverCancels(s.sender.txs[uid]);
    TxKeepsInv(s, uid, S.TimerFires(s.sender.txs[uid]));
    TxKeepsInv(s, uid, S.Resume(s.sender.txs[uid]));
  }

  lemma NoneInv()
    ensures R.CollectorInv(map[])
  {}

  lemma KnownData(s: Net, d: seq<Byte>)
    requires Inv(s) && d in s.toReceiver
    ensures Decode(d).Some? && IsPart(s.payloads, Decode(d).value)
  {
    hide Decode, IsPart;
  }

  lemma KnownAck(s: Net, d: seq<Byte>)
    requires Inv(s) && d in s.toSender
    ensures Decode(d).Some? && Vouched(s, Decode(d).value.uid, Decode(d).value.ack)
  {
    hide Decode, Vouched;
  }

  lemma ExpiredOnly(s: Net, now: int)
    requires Inv(s)
    ensures var kept := R.RemoveExpired(s.collector, now);
            R.CollectorInv(kept) && kept.Keys <= s.collector.Keys && forall u :: u in kept ==> kept[u] == s.collector[u]
  {
    hide R.CollectorInv, EntryOk;
    R.RemoveExpiredKeepsInv(s.collector, now);
  }

  lemma InvParts(s: Net)
    requires Inv(s)
    ensures SenderOk(s) && ReceiverOk(s) && DataOk(s) && AcksOk(s) && s.sender.registry <= s.sender.txs.Keys
  {}

  lemma InitialInv()
    ensures Inv(INITIAL)
  {}

  /** A run from `s`, step after step. */
  function After(s: Net, steps: seq<Step>): Net
  {
    if steps == [] then s else Do(After(s, steps[..|steps| - 1]), steps[|steps| - 1])
  }

  lemma {:induction false} AfterKeepsInv(s: Net, steps: seq<Step>)
    requires Inv(s)
    ensures Inv(After(s, steps))
  {
    hide Inv, Do;
    if steps != [] {
      AfterKeepsInv(s, steps[..|steps| - 1]);
      DoKeepsInv(After(s, steps[..|steps| - 1]), steps[|steps| - 1]);
    }
  }

  function Reached(steps: seq<Step>): Net { After(INITIAL, steps) }

  /** The invariant of every run. */
  lemma ReachedInv(steps: seq<Step>)
    ensures Inv(Reached(steps))
  {
    hide Inv, After;
    InitialInv();
    AfterKeepsInv(INITIAL, steps);
  }

  // ---------- safety of every run ----------

  /** Every buffer handed to the application is, byte for byte, the payload registered under the uid it completed. */
  lemma DeliveryIntegrity(steps: seq<Step>, i: nat)
    requires i < |Reached(steps).received|
    ensures var s := Reached(steps); var (uid, buffer) := s.received[i];
            uid in s.payloads && buffer == s.payloads[uid] && 1 <= |buffer| <= R.MAX_MESSAGE_SIZE_BYTES
  {
    hide Reached;
    ReachedInv(steps);
    ReceivedMeaning(Reached(steps), i);
  }

  lemma ReceivedMeaning(s: Net, i: nat)
    requires Inv(s) && i < |s.received|
    ensures var (uid, buffer) := s.received[i];
            uid in s.payloads && buffer == s.payloads[uid] && 1 <= |buffer| <= R.MAX_MESSAGE_SIZE_BYTES
  {}

  /**
   Finished implies delivered: when the sender has finished with a payload of 1 byte to 10 MiB and the receiver never
   evicted its uid, the receiver has already handed over that payload.
   */
  lemma FinishedImpliesDelivered(steps: seq<Step>, uid: UInt32)
    requires var s := Reached(steps);
             && uid in s.payloads && uid in s.sender.txs && s.sender.txs[uid].fin && uid !in s.evicted
             && 1 <= |s.payloads[uid]| <= R.MAX_MESSAGE_SIZE_BYTES
    ensures Delivered(Reached(steps), uid)
  {
    hide Reached, Inv, Delivered;
    ReachedInv(steps);
    FinishedMeansDelivered(Reached(steps), uid);
  }

  lemma FinishedMeansDelivered(s: Net, uid: UInt32)
    requires Inv(s) && uid in s.payloads && uid in s.sender.txs && s.sender.txs[uid].fin
    requires !Excused(s, uid) && s.payloads[uid] != []
    ensures Delivered(s, uid)
  {
    hide Decode, Chunks, DataOk, S.PartDatagrams, R.Holds, ReceiverOk;
    var t := s.sender.txs[uid];
    PartsCount(uid, s.payloads[uid]);
    assert S.TxInv(t);
    if !Delivered(s, uid) {
      forall k | 0 <= k < Count(s.payloads[uid]) ensures R.Holds(s.collector, uid, k) {
        assert k in t.acks;
        assert Vouched(s, uid, k);
      }
      NeverAllHeld(s, uid);
    }
  }

  /** The receiver never holds all parts of a message: it hands the message over when the last one arrives. */
  lemma NeverAllHeld(s: Net, uid: UInt32)
    requires ReceiverOk(s) && uid in s.payloads && s.payloads[uid] != []
    ensures exists k: nat :: k < Count(s.payloads[uid]) && !R.Holds(s.collector, uid, k)
  {
    var n := Count(s.payloads[uid]);
    NonEmpty(s.payloads[uid]);
    if R.Holds(s.collector, uid, 0) {
      var e := s.collector[uid];
      assert EntryOk(e, s.payloads[uid]) && R.EntryInv(e);
      R.Pigeonhole(e.parts, n);
      var k: nat :| k < n && k !in e.parts;
      assert !R.Holds(s.collector, uid, k);
    }
  }

  /** Every ack that reaches the sender is for one of its datagrams, although the program does not check it. */
  lemma AcksInRange(steps: seq<Step>, uid: UInt32)
    requires uid in Reached(steps).sender.txs
    ensures S.InRange(Reached(steps).sender.txs[uid])
  {
    hide Reached, Inv, S.InRange;
    ReachedInv(steps);
    AcksAreInRange(Reached(steps), uid);
  }

  lemma AcksAreInRange(s: Net, uid: UInt32)
    requires Inv(s) && uid in s.sender.txs
    ensures S.InRange(s.sender.txs[uid])
  {
    hide Decode, Chunks, DataOk, S.PartDatagrams;
    PartsCount(uid, s.payloads[uid]);
    forall k | k in s.sender.txs[uid].acks ensures k < |s.sender.txs[uid].buffers| {
      assert Vouched(s, uid, k);
    }
  }

  // ---------- time ----------

  predicate Stamped(step: Step) { step.DeliverData? || step.CorruptData? || step.Cleanup? }

  /** The time stamps of the run never decrease. */
  predicate InTime(steps: seq<Step>)
  {
    forall i, j :: 0 <= i < j < |steps| && Stamped(steps[i]) && Stamped(steps[j]) ==> steps[i].now <= steps[j].now
  }

  /** No time stamp of the run is later than `now`. */
  predicate Before(steps: seq<Step>, now: int)
  {
    forall i :: 0 <= i < |steps| && Stamped(steps[i]) ==> steps[i].now <= now
  }

  /** All of the run happens at `now`. */
  predicate AllAt(steps: seq<Step>, now: int)
  {
    forall i :: 0 <= i < |steps| && Stamped(steps[i]) ==> steps[i].now == now
  }

  lemma InTimeAppend(a: seq<Step>, b: seq<Step>, now: int)
    requires InTime(a) && Before(a, now) && AllAt(b, now)
    ensures InTime(a + b) && Before(a + b, now)
  {}

  lemma AllAtAppend(a: seq<Step>, b: seq<Step>, now: int)
    requires AllAt(a, now) && AllAt(b, now)
    ensures AllAt(a + b, now)
  {}

  /** The latest time stamp of a run, or the beginning of time. */
  function Clock(steps: seq<Step>): (now: int)
    ensures Before(steps, now)
  {
    if steps == [] then 0
    else
      var last, before := steps[|steps| - 1], Clock(steps[..|steps| - 1]);
      if Stamped(last) && last.now > before then last.now else before
  }
}
