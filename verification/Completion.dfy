/**
 What the protocol can still achieve: from every reachable state a live transmission can be completed, and the exact
 sizes for which a message can be delivered and for which its transmission can finish. The runs that are shown to
 exist have time stamps that never decrease.
 */
module Completion {
  import opened BufferUtils
  import opened MessageBuffer
  import opened Protocol
  import R = Receiver
  import S = Sender

  lemma {:induction false} AfterAppend(s: Net, a: seq<Step>, b: seq<Step>)
    ensures After(s, a + b) == After(After(s, a), b)
    decreases |b|
  {
    hide Do, Inv;
    if b == [] {
      assert a + b == a;
    } else {
      AfterAppend(s, a, b[..|b| - 1]);
      assert (a + b)[..|a + b| - 1] == a + b[..|b| - 1];
    }
  }

  lemma AfterOne(s: Net, step: Step)
    requires Inv(s)
    ensures After(s, [step]) == Do(s, step) && Inv(Do(s, step))
  {
    hide Do, Inv;
    assert [step][..0] == [];
    DoKeepsInv(s, step);
  }

  /** `uid` can be taken in: it has an entry, or one can be opened. */
  predicate Room(s: Net, uid: UInt32) { uid in s.collector || |s.collector| < R.MAX_IN_FLIGHT_MESSAGES }

  /** A live transmission of a payload with an admissible number of parts, with room at the receiver. */
  ghost predicate Ready(s: Net, uid: UInt32)
  {
    && Inv(s) && uid in s.sender.registry && uid in s.payloads && Room(s, uid)
    && 1 <= Count(s.payloads[uid]) <= R.MAX_MESSAGE_PARTS
  }

  /** The same transmission later on: not evicted in between, acked at least as far. */
  ghost predicate Later(s: Net, t: Net, uid: UInt32)
  {
    && Inv(t) && uid in s.payloads && uid in t.payloads && t.payloads[uid] == s.payloads[uid]
    && (uid in t.evicted ==> uid in s.evicted)
    && uid in s.sender.txs && uid in t.sender.txs
    && s.sender.txs[uid].greatest <= t.sender.txs[uid].greatest
    && (t.sender.txs[uid].fin || Ready(t, uid))
  }

  lemma ReadyTx(s: Net, uid: UInt32)
    requires Ready(s, uid)
    ensures uid in s.sender.txs && !s.sender.disposed
    ensures var t := s.sender.txs[uid];
            && S.TxInv(t) && !S.Stopped(t) && S.InRange(t) && t.greatest + 1 < |t.buffers|
            && t.buffers == S.PartDatagrams(uid, s.payloads[uid]) && |t.buffers| == Count(s.payloads[uid])
  {
    hide Chunks, S.PartDatagrams, DataOk, AcksOk, ReceiverOk;
    AcksAreInRange(s, uid);
    PartsCount(uid, s.payloads[uid]);
    NonEmpty(s.payloads[uid]);
    S.PrefixInRange(s.sender.txs[uid]);
  }

  /** A timer or pause step of a ready transmission leaves everything but timer, loop and sent datagrams alone. */
  lemma QuietStep(s: Net, uid: UInt32, out: S.Sends)
    requires Ready(s, uid) && out in [S.TimerFires(s.sender.txs[uid]), S.Resume(s.sender.txs[uid])]
    requires Inv(DoTx(s, uid, out))
    ensures var t := DoTx(s, uid, out); Ready(t, uid) && Later(s, t, uid) && t.sender.txs[uid] == out.tx
    ensures out.tx.greatest == s.sender.txs[uid].greatest && out.tx.buffers == s.sender.txs[uid].buffers
  {
    hide Inv, S.TimerFires, S.Resume, Chunks, S.TxInv;
    ReadyTx(s, uid);
    S.TimerStepsKeepInv(s.sender.txs[uid]);
  }

  /** Timers, acks, and parts of `uid` numbered above `g` that arrive intact at `now`. */
  predicate GentleStep(step: Step, uid: UInt32, g: int, now: int)
  {
    match step
    case TimerFires(_) => true
    case PauseOver(_) => true
    case DeliverAck(_) => true
    case DeliverData(d, at) =>
      at == now && Decode(d).Some? && Decode(d).value.uid == uid && Decode(d).value.sequence > g
    case _ => false
  }

  predicate Gentle(steps: seq<Step>, uid: UInt32, g: int, now: int)
  {
    forall i :: 0 <= i < |steps| ==> GentleStep(steps[i], uid, g, now)
  }

  lemma GentleAppend(a: seq<Step>, b: seq<Step>, uid: UInt32, g: int, h: int, now: int)
    requires Gentle(a, uid, g, now) && Gentle(b, uid, h, now) && g <= h
    ensures Gentle(a + b, uid, g, now)
  {
    hide Decode;
  }

  lemma GentleAllAt(steps: seq<Step>, uid: UInt32, g: int, now: int)
    requires Gentle(steps, uid, g, now)
    ensures AllAt(steps, now)
  {
    hide Decode;
  }

  /** What is registered stays, and the sender is not disposed of. */
  ghost predicate SameMessages(s: Net, t: Net) { t.payloads == s.payloads && t.sender.disposed == s.sender.disposed }

  lemma GentleStepMessages(s: Net, step: Step, uid: UInt32, g: int, now: int)
    requires GentleStep(step, uid, g, now)
    ensures SameMessages(s, Do(s, step))
  {
    hide Decode, S.TimerFires, S.Resume, S.CollectAck, R.Handle, AckDatagram, Picked;
  }

  lemma {:induction false} GentleMessages(s: Net, steps: seq<Step>, uid: UInt32, g: int, now: int)
    requires Gentle(steps, uid, g, now)
    ensures SameMessages(s, After(s, steps))
  {
    hide Do, GentleStep;
    if steps != [] {
      GentleMessages(s, steps[..|steps| - 1], uid, g, now);
      GentleStepMessages(After(s, steps[..|steps| - 1]), steps[|steps| - 1], uid, g, now);
    }
  }

  /** How many turns a resend pass has left if no acks come in. */
  function PassLeft(t: S.Tx): nat
  {
    if t.resending then 1 + Max(0, Min(t.greatest + S.SLIDING_WINDOW_SIZE, |t.buffers|) - t.position) else 0
  }

  function Max(a: int, b: int): int { if a > b then a else b }

  lemma PassShrinks(t: S.Tx)
    requires t.resending
    ensures PassLeft(S.Resume(t).tx) < PassLeft(t)
  {}

  /** A running resend pass comes to its end. */
  lemma EndPass(s: Net, uid: UInt32, now: int) returns (steps: seq<Step>)
    requires Ready(s, uid)
    ensures Gentle(steps, uid, s.sender.txs[uid].greatest, now)
    ensures var t := After(s, steps);
            Later(s, t, uid) && Ready(t, uid) && !t.sender.txs[uid].resending
            && t.sender.txs[uid].greatest == s.sender.txs[uid].greatest
    decreases PassLeft(s.sender.txs[uid])
  {
    hide Inv, DoTx, After, PassLeft, S.Resume, S.TxInv;
    ReadyTx(s, uid);
    var tx := s.sender.txs[uid];
    if !tx.resending {
      steps := [];
      assert After(s, steps) == s by { hide *; AfterNone(s); }
    } else {
      AfterOne(s, PauseOver(uid));
      PassShrinks(tx);
      QuietStep(s, uid, S.Resume(tx));
      var mid := Do(s, PauseOver(uid));
      var rest := EndPass(mid, uid, now);
      AfterAppend(s, [PauseOver(uid)], rest);
      steps := [PauseOver(uid)] + rest;
    }
  }

  lemma AfterNone(s: Net)
    ensures After(s, []) == s
  {}

  /** With no pass running, the timer goes off and the datagram after the acked prefix is sent. */
  lemma SendGap(s: Net, uid: UInt32)
    requires Ready(s, uid) && !s.sender.txs[uid].resending
    ensures var t := Do(s, TimerFires(uid)); var g := s.sender.txs[uid].greatest;
            && After(s, [TimerFires(uid)]) == t && Ready(t, uid) && Later(s, t, uid) && t.sender.txs[uid].greatest == g
            && 0 <= g + 1 < Count(t.payloads[uid]) && S.PartDatagrams(uid, t.payloads[uid])[g + 1] in t.toReceiver
  {
    hide Inv, After, Chunks, S.PartDatagrams, S.TimerFires;
    ReadyTx(s, uid);
    var tx := s.sender.txs[uid];
    AfterOne(s, TimerFires(uid));
    assert tx.timer by { TimerIsArmed(tx); }
    QuietStep(s, uid, S.TimerFires(tx));
    S.ResendStartsAtGap(tx);
    var out := S.TimerFires(tx);
    assert out.sent[0] == tx.greatest + 1;
    assert out.tx.buffers[out.sent[0]] in Picked(out.tx.buffers, out.sent);
  }

  lemma TimerIsArmed(t: S.Tx)
    requires S.TxInv(t) && !S.Stopped(t) && !t.resending
    ensures t.timer
  {}

  /** A part of a ready transmission that arrives is acked, or it breaks the byte cap and makes way for itself. */
  lemma ArrivalIsAcked(s: Net, uid: UInt32, m: Message, now: int)
    requires Ready(s, uid) && IsPart(s.payloads, m) && m.uid == uid
    ensures R.IsValidDataMessage(m)
    ensures var t := DoArrival(s, m, now);
            && Room(t, uid) && t.sender == s.sender && t.payloads == s.payloads && t.evicted == s.evicted
            && (if R.FateOf(s.collector, m).Overflow? then uid !in t.collector && uid in s.collector
                else AckDatagram(m) in t.toSender)
  {
    hide Chunks, AckDatagram, R.CollectorInv, R.Collect, R.FateOf, EntryOk, SenderOk, DataOk, AcksOk;
    PartsLimit(s.payloads[uid]);
    FateWithRoom(s, m);
    RoomStays(s.collector, m, now);
    SettleAcks(s.collector, m, now);
    OverflowOpened(s.collector, m, now);
  }

  lemma OverflowOpened(c: R.Collector, m: Message, now: int)
    requires R.IsValidDataMessage(m)
    ensures R.FateOf(c, m).Overflow? ==> m.uid in c && m.uid !in R.Collect(c, m, now).collector
  {}

  lemma SettleAcks(c: R.Collector, m: Message, now: int)
    ensures R.FateOf(c, m).Kept? || R.FateOf(c, m).Duplicate? ==> R.Collect(c, m, now).acked
  {
    hide R.HasAll, R.ConcatTo, R.InOrder, R.Stored, R.Opened;
  }

  /** At the latest the second copy of a part of a ready transmission is acked. */
  lemma DeliverUntilAcked(s: Net, uid: UInt32, d: seq<Byte>, now: int) returns (steps: seq<Step>)
    requires Ready(s, uid) && d in s.toReceiver
    requires Decode(d).Some? && Decode(d).value.uid == uid && IsPart(s.payloads, Decode(d).value)
    ensures Gentle(steps, uid, Decode(d).value.sequence - 1, now)
    ensures var t := After(s, steps);
            && Ready(t, uid) && AckDatagram(Decode(d).value) in t.toSender
            && t.sender == s.sender && t.payloads == s.payloads && t.evicted == s.evicted
  {
    hide Inv, After, Chunks, Decode, AckDatagram, DoArrival, IsPart, R.FateOf, R.IsValidDataMessage;
    var m := Decode(d).value;
    ArrivalIsAcked(s, uid, m, now);
    AfterOne(s, DeliverData(d, now));
    var t := Do(s, DeliverData(d, now));
    steps := [DeliverData(d, now)];
    if R.FateOf(s.collector, m).Overflow? {
      assert d in t.toReceiver by { hide *; ArrivalKeepsNet(s, m, now); }
      FreshFits(t.collector, m);
      ArrivalIsAcked(t, uid, m, now);
      AfterOne(t, DeliverData(d, now));
      AfterAppend(s, steps, [DeliverData(d, now)]);
      steps := steps + [DeliverData(d, now)];
    }
  }

  lemma ArrivalKeepsNet(s: Net, m: Message, now: int)
    ensures DoArrival(s, m, now).toReceiver == s.toReceiver
  {}

  lemma FreshFits(c: R.Collector, m: Message)
    requires R.IsValidDataMessage(m) && m.uid !in c
    ensures !R.FateOf(c, m).Overflow?
  {}

  lemma FateWithRoom(s: Net, m: Message)
    requires ReceiverOk(s) && IsPart(s.payloads, m) && Room(s, m.uid)
    ensures R.FateOf(s.collector, m) != R.Ignored
  {
    hide Chunks;
    assert m.uid in s.collector ==> EntryOk(s.collector[m.uid], s.payloads[m.uid]);
  }

  lemma RoomStays(c: R.Collector, m: Message, now: int)
    requires R.CollectorInv(c) && R.FateOf(c, m) != R.Ignored
    ensures var d := R.Collect(c, m, now).collector; m.uid in d || |d| < R.MAX_IN_FLIGHT_MESSAGES
  {
    hide R.EntryInv, R.HasAll, R.ConcatTo, R.InOrder, R.Stored, R.Opened;
    var d := c - {m.uid};
    if m.uid in c {
      assert c.Keys == d.Keys + {m.uid};
      assert |d.Keys| == |d| && |c.Keys| == |c|;
    } else {
      assert d == c;
    }
  }

  /** The largest payload that fits in the largest number of parts: 640 bytes over the size limit. */
  const MAX_SENDABLE_BYTES: nat := R.MAX_MESSAGE_PARTS * MAX_PAYLOAD_SIZE

  lemma PartsLimit(payload: seq<Byte>)
    ensures 1 <= Count(payload) <= R.MAX_MESSAGE_PARTS <==> 1 <= |payload| <= MAX_SENDABLE_BYTES
    ensures forall k :: 0 <= k < Count(payload) ==> |Chunks(payload, MAX_PAYLOAD_SIZE)[k]| <= MAX_PAYLOAD_SIZE
  {
    ChunkCount(payload, MAX_PAYLOAD_SIZE);
  }

  /** The datagram after the acked prefix and its ack get through: the prefix grows. */
  lemma CloseGap(s: Net, uid: UInt32, now: int) returns (steps: seq<Step>)
    requires Ready(s, uid) && 0 <= s.sender.txs[uid].greatest + 1 < Count(s.payloads[uid])
    requires S.PartDatagrams(uid, s.payloads[uid])[s.sender.txs[uid].greatest + 1] in s.toReceiver
    ensures Gentle(steps, uid, s.sender.txs[uid].greatest, now)
    ensures var t := After(s, steps); Later(s, t, uid) && s.sender.txs[uid].greatest < t.sender.txs[uid].greatest
  {
    hide Inv, After, Chunks, S.PartDatagrams, Decode, AckDatagram, DoAck;
    ReadyTx(s, uid);
    var k := s.sender.txs[uid].greatest + 1;
    var d := S.PartDatagrams(uid, s.payloads[uid])[k];
    PartsDecode(uid, s.payloads[uid], k);
    var m := Decode(d).value;
    var deliver := DeliverUntilAcked(s, uid, d, now);
    var mid := After(s, deliver);
    AckDecodes(m);
    var ack := DeliverAck(AckDatagram(m));
    AfterOne(mid, ack);
    AckCloses(mid, uid, Decode(AckDatagram(m)).value);
    AfterAppend(s, deliver, [ack]);
    steps := deliver + [ack];
  }

  lemma AckCloses(s: Net, uid: UInt32, m: Message)
    requires Ready(s, uid) && m.uid == uid && m.ack == s.sender.txs[uid].greatest + 1
    requires Inv(DoAck(s, m))
    ensures var t := DoAck(s, m); Later(s, t, uid) && s.sender.txs[uid].greatest < t.sender.txs[uid].greatest
  {
    hide Inv, Chunks, S.PartDatagrams, S.CollectAck, S.TxInv;
    ReadyTx(s, uid);
    S.AckMeaning(s.sender.txs[uid], m.ack);
    S.AckNeverCancels(s.sender.txs[uid], m.ack);
  }

  /** With room at the receiver, a live transmission has a continuation in which it finishes. */
  lemma CompletesWithRoom(s: Net, uid: UInt32, now: int) returns (steps: seq<Step>)
    requires Ready(s, uid)
    ensures Gentle(steps, uid, s.sender.txs[uid].greatest, now)
    ensures var t := After(s, steps); Later(s, t, uid) && t.sender.txs[uid].fin
    decreases Count(s.payloads[uid]) - s.sender.txs[uid].greatest
  {
    hide Inv, After, Chunks, S.PartDatagrams, Do;
    ReadyTx(s, uid);
    var g := s.sender.txs[uid].greatest;
    var end := EndPass(s, uid, now);
    var s1 := After(s, end);
    SendGap(s1, uid);
    var s2 := After(s1, [TimerFires(uid)]);
    AfterAppend(s, end, [TimerFires(uid)]);
    var close := CloseGap(s2, uid, now);
    var s3 := After(s2, close);
    AfterAppend(s, end + [TimerFires(uid)], close);
    steps := end + [TimerFires(uid)] + close;
    GentleAppend(end, [TimerFires(uid)], uid, g, g, now);
    GentleAppend(end + [TimerFires(uid)], close, uid, g, g, now);
    if !s3.sender.txs[uid].fin {
      ReadyTx(s3, uid);
      var rest := CompletesWithRoom(s3, uid, now);
      AfterAppend(s, steps, rest);
      GentleAppend(steps, rest, uid, g, s3.sender.txs[uid].greatest, now);
      steps := steps + rest;
    }
  }

  /** A time from which on every entry has expired. */
  ghost function Deadline(c: R.Collector): (now: int)
    ensures forall u, later :: u in c && later >= now ==> R.Expired(c[u], later)
    decreases |c|
  {
    if |c| == 0 then 0
    else
      var u := AnyOf(c.Keys);
      assert (c - {u}).Keys == c.Keys - {u} && |(c - {u}).Keys| == |c - {u}| && |c.Keys| == |c|;
      var rest := c - {u};
      assert forall v :: v in c && v != u ==> v in rest && rest[v] == c[v];
      Max(Deadline(rest), c[u].lastActivityAt + R.INBOUND_MESSAGE_TTL_MS)
  }

  /**
   Completion stays possible: from every reachable state, a live transmission whose payload has 1 to
   `MAX_MESSAGE_PARTS` parts has a continuation, onwards in time, in which it finishes and its own entry is never
   evicted.
   */
  lemma CompletionStaysPossible(before: seq<Step>, uid: UInt32) returns (steps: seq<Step>)
    requires InTime(before)
    requires var s := Reached(before);
             uid in s.sender.registry && uid in s.payloads && 1 <= |s.payloads[uid]| <= MAX_SENDABLE_BYTES
    ensures InTime(before + steps)
    ensures var s, t := Reached(before), Reached(before + steps);
            uid in t.sender.txs && t.sender.txs[uid].fin && uid in t.payloads && t.payloads[uid] == s.payloads[uid]
            && (uid in t.evicted ==> uid in s.evicted) && SameMessages(s, t)
  {
    hide Reached, After, Chunks, Inv, Do, R.RemoveExpired, Deadline, Clock, InTime, Before, AllAt, Gentle;
    var s := Reached(before);
    ReachedInv(before);
    PartsLimit(s.payloads[uid]);
    var now := Max(Clock(before), Deadline(s.collector));
    assert Before(before, now) by { hide *; BeforeLater(before, Clock(before), now); }
    if Room(s, uid) {
      steps := CompletesWithRoom(s, uid, now);
      GentleMessages(s, steps, uid, s.sender.txs[uid].greatest, now);
      GentleAllAt(steps, uid, s.sender.txs[uid].greatest, now);
    } else {
      var cleanup := Cleanup(now);
      AfterOne(s, cleanup);
      CleanupMakesRoom(s, uid, now);
      var t := After(s, [cleanup]);
      var rest := CompletesWithRoom(t, uid, now);
      AfterAppend(s, [cleanup], rest);
      steps := [cleanup] + rest;
      GentleAllAt(rest, uid, t.sender.txs[uid].greatest, now);
      GentleMessages(t, rest, uid, t.sender.txs[uid].greatest, now);
      assert AllAt([cleanup], now) by { hide *; OneAt(cleanup, now); }
      AllAtAppend([cleanup], rest, now);
    }
    InTimeAppend(before, steps, now);
    ReachedAppend(before, steps);
  }

  lemma BeforeLater(steps: seq<Step>, now: int, later: int)
    requires Before(steps, now) && now <= later
    ensures Before(steps, later)
  {}

  lemma OneAt(step: Step, now: int)
    requires Stamped(step) ==> step.now == now
    ensures AllAt([step], now)
  {}

  lemma CleanupMakesRoom(s: Net, uid: UInt32, now: int)
    requires Inv(s) && uid !in s.collector && now >= Deadline(s.collector)
    ensures var t := Do(s, Cleanup(now));
            Room(t, uid) && t.sender == s.sender && t.payloads == s.payloads && (uid in t.evicted ==> uid in s.evicted)
  {
    var kept := R.RemoveExpired(s.collector, now);
    assert kept == map[];
  }

  lemma ReachedAppend(a: seq<Step>, b: seq<Step>)
    ensures Reached(a + b) == After(Reached(a), b)
  {
    hide After;
    AfterAppend(INITIAL, a, b);
  }

  // ---------- thresholds ----------

  ghost predicate Delivers(steps: seq<Step>, uid: UInt32, payload: seq<Byte>)
  {
    var s := Reached(steps);
    uid in s.payloads && s.payloads[uid] == payload && Delivered(s, uid)
  }

  ghost predicate Finishes(steps: seq<Step>, uid: UInt32, payload: seq<Byte>)
  {
    var s := Reached(steps);
    uid in s.payloads && s.payloads[uid] == payload && uid in s.sender.txs && s.sender.txs[uid].fin
  }

  ghost predicate FinishesUnevicted(steps: seq<Step>, uid: UInt32, payload: seq<Byte>)
  {
    Finishes(steps, uid, payload) && uid !in Reached(steps).evicted
  }

  /**
   The exact threshold of delivery: a payload can be delivered in some run if and only if it has between 1 byte and
   10 MiB. Neither the part count nor the byte cap stops a payload below it, and none above it gets through, not even
   one that still fits in the largest number of parts.
   */
  lemma DeliveryThreshold(uid: UInt32, payload: seq<Byte>)
    ensures (exists steps :: InTime(steps) && Delivers(steps, uid, payload))
       <==> 1 <= |payload| <= R.MAX_MESSAGE_SIZE_BYTES
    ensures forall steps :: Delivers(steps, uid, payload) ==> 1 <= |payload| <= R.MAX_MESSAGE_SIZE_BYTES
  {
    hide Reached, Chunks, Inv, InTime;
    forall steps | Delivers(steps, uid, payload) ensures 1 <= |payload| <= R.MAX_MESSAGE_SIZE_BYTES {
      var s := Reached(steps);
      var i :| 0 <= i < |s.received| && s.received[i] == (uid, payload);
      DeliveryIntegrity(steps, i);
    }
    if 1 <= |payload| <= R.MAX_MESSAGE_SIZE_BYTES {
      var steps := Finishing(uid, payload);
      ReachedInv(steps);
      FinishedMeansDelivered(Reached(steps), uid);
      assert Delivers(steps, uid, payload);
    }
  }

  /** Something acked: the payload has an admissible number of parts. */
  lemma FinishedSize(s: Net, uid: UInt32)
    requires Inv(s) && uid in s.payloads && uid in s.sender.txs && s.sender.txs[uid].fin
    ensures 1 <= |s.payloads[uid]| <= MAX_SENDABLE_BYTES
  {
    hide Chunks, DataOk, ReceiverOk, S.PartDatagrams;
    assert S.TxInv(s.sender.txs[uid]);
    var k :| k in s.sender.txs[uid].acks;
    assert Vouched(s, uid, k);
    PartsLimit(s.payloads[uid]);
  }

  /**
   The exact threshold of finishing: a sender can finish with a payload if and only if it has 1 to
   `MAX_MESSAGE_PARTS` parts, and then it can without an eviction of the message.
   */
  lemma FinishThreshold(uid: UInt32, payload: seq<Byte>)
    ensures (exists steps :: InTime(steps) && FinishesUnevicted(steps, uid, payload))
       <==> 1 <= |payload| <= MAX_SENDABLE_BYTES
    ensures forall steps :: Finishes(steps, uid, payload) ==> 1 <= |payload| <= MAX_SENDABLE_BYTES
  {
    hide Reached, Inv, InTime;
    forall steps | Finishes(steps, uid, payload) ensures 1 <= |payload| <= MAX_SENDABLE_BYTES {
      ReachedInv(steps);
      FinishedSize(Reached(steps), uid);
    }
    if 1 <= |payload| <= MAX_SENDABLE_BYTES {
      var steps := Finishing(uid, payload);
      assert FinishesUnevicted(steps, uid, payload);
    }
  }

  /**
   So the size limit in "finished implies delivered" is needed: in between, a sender finishes with what never arrives.
   */
  lemma FinishedButNeverDelivered(uid: UInt32, payload: seq<Byte>)
    requires R.MAX_MESSAGE_SIZE_BYTES < |payload| <= MAX_SENDABLE_BYTES
    ensures exists steps :: InTime(steps) && FinishesUnevicted(steps, uid, payload)
    ensures forall steps :: !Delivers(steps, uid, payload)
  {
    hide FinishesUnevicted, Delivers, InTime;
    FinishThreshold(uid, payload);
    DeliveryThreshold(uid, payload);
  }

  lemma Finishing(uid: UInt32, payload: seq<Byte>) returns (steps: seq<Step>)
    requires 1 <= |payload| <= MAX_SENDABLE_BYTES
    ensures InTime(steps) && FinishesUnevicted(steps, uid, payload)
  {
    hide After, Chunks, Inv, Do;
    InitialInv();
    AfterOne(INITIAL, Send(uid, payload));
    FirstSend(uid, payload);
    steps := CompletionStaysPossible([Send(uid, payload)], uid);
    steps := [Send(uid, payload)] + steps;
  }

  lemma FirstSend(uid: UInt32, payload: seq<Byte>)
    requires 1 <= |payload| <= MAX_SENDABLE_BYTES
    requires Inv(Do(INITIAL, Send(uid, payload)))
    ensures var s := Do(INITIAL, Send(uid, payload));
            && Ready(s, uid) && s.payloads == map[uid := payload] && s.evicted == {} && s.collector == map[]
            && s.received == [] && s.sender.txs[uid].greatest == -1 && s.sender.txs[uid].acks == {}
  {
    hide Inv, Chunks, S.PartDatagrams, S.Transmit;
    PartsLimit(payload);
    S.FirstWindowLive(S.PartDatagrams(uid, payload));
  }
}
