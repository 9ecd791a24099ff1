/**
 What an eviction costs: when exactly a sender can finish with a message that was never delivered. The time stamps of
 the runs that are shown to exist never decrease.
 */
module Eviction {
  import opened BufferUtils
  import opened MessageBuffer
  import opened Protocol
  import opened Completion
  import R = Receiver
  import S = Sender

  // ---------- messages of one datagram are never evicted ----------

  /** Only messages of several parts are ever kept waiting, so only they can be evicted. */
  ghost predicate SeveralParts(s: Net)
  {
    && TotalsSeveral(s.collector)
    && (forall u :: u in s.evicted ==> u in s.payloads && Count(s.payloads[u]) >= 2)
  }

  ghost predicate TotalsSeveral(c: R.Collector) { forall u :: u in c ==> c[u].total >= 2 }

  lemma CollectKeepsTotals(c: R.Collector, m: Message, now: int)
    requires R.CollectorInv(c) && TotalsSeveral(c) && R.IsValidDataMessage(m)
    ensures TotalsSeveral(R.Collect(c, m, now).collector)
  {
    hide R.Stored, R.Opened, R.ConcatTo, R.InOrder, R.FateOf, R.CollectorInv, R.HasAll;
    OpenedTotal(c, m, now);
    match R.FateOf(c, m)
    case Ignored =>
    case Duplicate => KnownUid(c, m);
    case Overflow =>
    case Kept =>
      R.StoredInv(c, m, now);
      StoredHasPart(c, m, now);
  }

  lemma KnownUid(c: R.Collector, m: Message)
    ensures R.FateOf(c, m).Duplicate? ==> m.uid in c
  {}

  lemma ArrivalKeepsSeveral(s: Net, m: Message, now: int)
    requires Inv(s) && SeveralParts(s)
    ensures SeveralParts(DoArrival(s, m, now))
  {
    hide Count, R.Collect, SenderOk, DataOk, AcksOk, AckDatagram, R.CollectorInv, R.IsValidDataMessage;
    if R.IsValidDataMessage(m) { CollectKeepsTotals(s.collector, m, now); }
  }

  lemma StoredHasPart(c: R.Collector, m: Message, now: int)
    requires R.FateOf(c, m).Kept? && m.sequence < m.total
    ensures var e := R.Stored(R.Opened(c, m, now), m); e.total == m.total && (m.total == 1 ==> R.HasAll(e.parts, 1))
  {}

  lemma OpenedTotal(c: R.Collector, m: Message, now: int)
    ensures m.uid in c ==> R.Opened(c, m, now).total == c[m.uid].total
  {}

  /** What a payload is registered under never changes. */
  ghost predicate Extends(s: Net, t: Net)
  {
    forall u :: u in s.payloads ==> u in t.payloads && t.payloads[u] == s.payloads[u]
  }

  lemma Quiet(s: Net, step: Step)
    requires Inv(s) && !step.DeliverData? && !step.Cleanup? && !step.Leave?
    ensures var t := Do(s, step);
            Extends(s, t) && t.collector == s.collector && t.evicted == s.evicted && t.received == s.received
  {
    hide Inv, Decode, S.Register, S.TimerFires, S.Resume, S.Ack, S.Dispose, S.PartDatagrams, Chunks, Picked,
      DoArrival, IsError;
    if step.CorruptData? || step.CorruptAck? {
      hide Do;
      CorruptionIsHarmless(s, step);
    } else {
      assert s.sender.txs.Keys == s.payloads.Keys by { hide *; InvParts(s); SendersKnown(s); }
    }
  }

  lemma SeveralStay(s: Net, t: Net)
    requires SeveralParts(s) && Extends(s, t) && t.collector == s.collector && t.evicted == s.evicted
    ensures SeveralParts(t)
  {
    hide Count;
  }

  lemma ForgetKeepsSeveral(s: Net, kept: R.Collector, t: Net)
    requires Inv(s) && SeveralParts(s) && t.payloads == s.payloads && t.collector == kept
    requires kept.Keys <= s.collector.Keys && forall u :: u in kept ==> kept[u] == s.collector[u]
    requires t.evicted <= s.evicted + s.collector.Keys
    ensures SeveralParts(t)
  {
    hide Count, R.CollectorInv, SenderOk, DataOk, AcksOk, ReceivedOk;
    forall u | u in t.evicted ensures u in s.payloads && Count(s.payloads[u]) >= 2 {
      if u in s.collector { assert EntryOk(s.collector[u], s.payloads[u]); }
    }
  }

  lemma DoKeepsSeveral(s: Net, step: Step)
    requires Inv(s) && SeveralParts(s)
    ensures SeveralParts(Do(s, step))
  {
    hide DoArrival, Decode, IsPart, Inv, SeveralParts, R.RemoveExpired;
    match step
    case DeliverData(d, now) =>
      if d in s.toReceiver {
        KnownData(s, d);
        ArrivalKeepsSeveral(s, Decode(d).value, now);
      }
    case Cleanup(now) =>
      ExpiredOnly(s, now);
      ForgetKeepsSeveral(s, R.RemoveExpired(s.collector, now), Do(s, step));
    case Leave => ForgetKeepsSeveral(s, map[], Do(s, step));
    case _ =>
      hide Do;
      Quiet(s, step);
      SeveralStay(s, Do(s, step));
  }

  lemma {:induction false} RunKeepsSeveral(steps: seq<Step>)
    ensures SeveralParts(Reached(steps))
  {
    hide Do, Inv;
    if steps != [] {
      var before := steps[..|steps| - 1];
      RunKeepsSeveral(before);
      ReachedInv(before);
      DoKeepsSeveral(Reached(before), steps[|steps| - 1]);
    }
  }

  /** For a payload of one datagram, finished implies delivered whatever is evicted. */
  lemma FinishedSmallIsDelivered(steps: seq<Step>, uid: UInt32)
    requires var s := Reached(steps);
             && uid in s.payloads && uid in s.sender.txs && s.sender.txs[uid].fin
             && 1 <= |s.payloads[uid]| <= MAX_PAYLOAD_SIZE
    ensures Delivered(Reached(steps), uid)
  {
    hide Reached, Inv, Delivered;
    RunKeepsSeveral(steps);
    ReachedInv(steps);
    var s := Reached(steps);
    SingleChunk(s.payloads[uid]);
    FinishedMeansDelivered(s, uid);
  }

  lemma SingleChunk(payload: seq<Byte>)
    ensures Count(payload) >= 2 <==> |payload| > MAX_PAYLOAD_SIZE
  {}

  // ---------- a run that loses a message of several parts ----------

  /** The first part is missing at the receiver, and the message has not been delivered. */
  ghost predicate Lost(s: Net, uid: UInt32)
  {
    uid in s.payloads && !R.Holds(s.collector, uid, 0) && !Delivered(s, uid)
  }

  lemma ArrivalKeepsLost(s: Net, uid: UInt32, m: Message, now: int)
    requires Inv(s) && Lost(s, uid) && IsPart(s.payloads, m) && m.uid == uid && m.sequence > 0
    ensures Lost(DoArrival(s, m, now), uid)
  {
    hide Count, R.Collect, R.Holds, AckDatagram, Inv;
    if R.IsValidDataMessage(m) { NoFirst(s.collector, m, now); }
  }

  /** Without its first part a message is not complete. */
  lemma NoFirst(c: R.Collector, m: Message, now: int)
    requires !R.Holds(c, m.uid, 0) && R.IsValidDataMessage(m) && m.sequence > 0
    ensures var o := R.Collect(c, m, now); o.received.None? && !R.Holds(o.collector, m.uid, 0)
  {
    hide R.ConcatTo, R.InOrder;
    var e := R.Stored(R.Opened(c, m, now), m);
    if R.FateOf(c, m).Kept? {
      assert e.total == m.total && 0 !in e.parts;
      assert !R.HasAll(e.parts, e.total);
    }
  }

  /** Steps that never bring the first part keep it lost. */
  lemma GentleKeepsLost(s: Net, step: Step, uid: UInt32, g: nat, now: int)
    requires Inv(s) && Lost(s, uid) && GentleStep(step, uid, g, now)
    ensures Lost(Do(s, step), uid)
  {
    hide Decode, IsPart, Inv, DoArrival, R.Holds;
    if step.DeliverData? {
      if step.datagram in s.toReceiver {
        KnownData(s, step.datagram);
        ArrivalKeepsLost(s, uid, Decode(step.datagram).value, now);
      }
    } else {
      hide Do;
      Quiet(s, step);
    }
  }

  lemma {:induction false} RunKeepsLost(s: Net, steps: seq<Step>, uid: UInt32, g: nat, now: int)
    requires Inv(s) && Lost(s, uid) && Gentle(steps, uid, g, now)
    ensures Lost(After(s, steps), uid)
  {
    hide Inv, Do, Lost, GentleStep;
    if steps != [] {
      var before := steps[..|steps| - 1];
      RunKeepsLost(s, before, uid, g, now);
      AfterKeepsInv(s, before);
      GentleKeepsLost(After(s, before), steps[|steps| - 1], uid, g, now);
    }
  }

  /** The sender has finished with the payload, which has not been delivered. */
  ghost predicate FinishesUndelivered(steps: seq<Step>, uid: UInt32, payload: seq<Byte>)
  {
    Finishes(steps, uid, payload) && !Delivered(Reached(steps), uid)
  }

  /** Sent, and the first part delivered and acked. */
  lemma FirstPartAcked(uid: UInt32, payload: seq<Byte>) returns (steps: seq<Step>)
    requires MAX_PAYLOAD_SIZE < |payload| <= MAX_SENDABLE_BYTES
    ensures AllAt(steps, 0)
    ensures var s := Reached(steps);
            && Ready(s, uid) && s.payloads[uid] == payload && s.received == [] && s.sender.txs[uid].greatest >= 0
  {
    hide After, Chunks, Inv, Decode, AckDatagram, S.PartDatagrams, Ready, Later, DoArrival, DoAck, DoSend;
    var send := Send(uid, payload);
    InitialInv();
    AfterOne(INITIAL, send);
    FirstSend(uid, payload);
    var s := Do(INITIAL, send);
    SingleChunk(payload);
    PartsLimit(payload);
    PartsCount(uid, payload);
    FirstIsSent(uid, payload);
    var d := S.PartDatagrams(uid, payload)[0];
    PartsDecode(uid, payload, 0);
    var m := Decode(d).value;
    AfterOne(s, DeliverData(d, 0));
    var t := Do(s, DeliverData(d, 0));
    FirstArrives(s, uid, m);
    StillReady(s, t, uid);
    AckDecodes(m);
    var ack := DeliverAck(AckDatagram(m));
    AfterOne(t, ack);
    steps := [send, DeliverData(d, 0), ack];
    FirstAcked(t, uid, Decode(AckDatagram(m)).value);
    AfterAppend(INITIAL, [send], [DeliverData(d, 0)]);
    AfterAppend(INITIAL, [send] + [DeliverData(d, 0)], [ack]);
    assert steps == [send] + [DeliverData(d, 0)] + [ack];
  }

  lemma FirstIsSent(uid: UInt32, payload: seq<Byte>)
    requires 1 <= Count(payload) < 0x1_0000_0000
    ensures var s := Do(INITIAL, Send(uid, payload)); S.PartDatagrams(uid, payload)[0] in s.toReceiver
  {
    hide S.PartDatagrams, Chunks;
    PartsCount(uid, payload);
    var buffers := S.PartDatagrams(uid, payload);
    var sent := S.Register(INITIAL.sender, uid, buffers).1;
    assert sent[0] == 0;
    assert buffers[sent[0]] in Picked(buffers, sent);
  }

  /** A first part that arrives before any other is acked, and the message waits for the others. */
  lemma FirstArrives(s: Net, uid: UInt32, m: Message)
    requires Ready(s, uid) && s.collector == map[] && IsPart(s.payloads, m) && m.uid == uid && m.total >= 2
    ensures var t := DoArrival(s, m, 0);
            && Room(t, uid) && t.sender == s.sender && t.payloads == s.payloads && t.evicted == s.evicted
            && AckDatagram(m) in t.toSender && t.received == s.received
  {
    hide Chunks, AckDatagram, R.ConcatTo, R.InOrder, R.CollectorInv, SenderOk, DataOk, AcksOk;
    ArrivalIsAcked(s, uid, m, 0);
    FreshFits(s.collector, m);
    NotAlone(s.collector, m);
  }

  lemma NotAlone(c: R.Collector, m: Message)
    requires c == map[] && m.total >= 2
    ensures R.Collect(c, m, 0).received == None
  {
    hide R.ConcatTo, R.InOrder;
  }

  lemma StillReady(s: Net, t: Net, uid: UInt32)
    requires Ready(s, uid) && Inv(t) && Room(t, uid) && t.sender == s.sender && t.payloads == s.payloads
    ensures Ready(t, uid) && uid in t.payloads && uid in t.sender.txs
  {
    hide Inv;
    ReadyTx(s, uid);
  }

  lemma FirstAcked(s: Net, uid: UInt32, m: Message)
    requires Ready(s, uid) && m.uid == uid && m.ack == 0 && Count(s.payloads[uid]) >= 2 && Inv(DoAck(s, m))
    requires s.sender.txs[uid].greatest == -1 && s.sender.txs[uid].acks == {}
    ensures var t := DoAck(s, m);
            && Ready(t, uid) && t.sender.txs[uid].greatest >= 0
            && t.received == s.received && t.payloads == s.payloads
  {
    hide Inv, Chunks, S.PartDatagrams, S.CollectAck, S.TxInv;
    ReadyTx(s, uid);
    AckCloses(s, uid, m);
    S.AckMeaning(s.sender.txs[uid], 0);
    NotAllAcked(|s.sender.txs[uid].buffers|);
  }

  lemma NotAllAcked(n: nat)
    requires n >= 2
    ensures !S.AllBelow({0}, n)
  {
    var acks: set<nat> := {0};
    assert 1 !in acks;
  }

  /** A run that finishes without the message: the first part is acked and evicted, and never comes again. */
  lemma LosingRun(uid: UInt32, payload: seq<Byte>) returns (steps: seq<Step>)
    requires MAX_PAYLOAD_SIZE < |payload| <= MAX_SENDABLE_BYTES
    ensures InTime(steps) && FinishesUndelivered(steps, uid, payload)
  {
    hide After, Reached, Chunks, Inv, Do, Ready, Later, Lost, R.RemoveExpired, Deadline, InTime, Before, AllAt, Gentle;
    var first := FirstPartAcked(uid, payload);
    var s := Reached(first);
    assert Inv(s) by { ReachedInv(first); }
    var now := Max(0, Deadline(s.collector));
    var cleanup := Cleanup(now);
    AfterOne(s, cleanup);
    var t := Do(s, cleanup);
    Evicted(s, uid, now);
    ReadyTx(t, uid);
    var rest := CompletesWithRoom(t, uid, now);
    var g := t.sender.txs[uid].greatest;
    RunKeepsLost(t, rest, uid, g, now);
    AfterAppend(s, [cleanup], rest);
    ReachedAppend(first, [cleanup] + rest);
    steps := first + ([cleanup] + rest);
    LaterPayload(t, After(t, rest), uid);
    LostIsUndelivered(After(t, rest), uid);
    GentleAllAt(rest, uid, g, now);
    OneAt(cleanup, now);
    AllAtAppend([cleanup], rest, now);
    AtIsInTime(first, 0, now);
    InTimeAppend(first, [cleanup] + rest, now);
  }

  lemma AtIsInTime(steps: seq<Step>, at: int, now: int)
    requires AllAt(steps, at) && at <= now
    ensures InTime(steps) && Before(steps, now)
  {}

  lemma LostIsUndelivered(s: Net, uid: UInt32)
    requires Lost(s, uid)
    ensures !Delivered(s, uid)
  {}

  lemma LaterPayload(s: Net, t: Net, uid: UInt32)
    requires Later(s, t, uid)
    ensures uid in s.payloads && uid in t.payloads && t.payloads[uid] == s.payloads[uid] && uid in t.sender.txs
  {}

  lemma Evicted(s: Net, uid: UInt32, now: int)
    requires Ready(s, uid) && s.received == [] && now >= Deadline(s.collector)
    ensures var t := Do(s, Cleanup(now));
            && Lost(t, uid) && t.payloads == s.payloads && t.sender == s.sender
            && (Inv(t) ==> Ready(t, uid))
  {
    hide Inv, Chunks;
    assert R.RemoveExpired(s.collector, now) == map[];
  }

  /**
   What an eviction costs, exactly: a sender can finish with a payload that has not been delivered if and only if the
   payload has several parts, at most `MAX_MESSAGE_PARTS` of them.
   */
  lemma UndeliveredThreshold(uid: UInt32, payload: seq<Byte>)
    ensures (exists steps :: InTime(steps) && FinishesUndelivered(steps, uid, payload))
       <==> MAX_PAYLOAD_SIZE < |payload| <= MAX_SENDABLE_BYTES
    ensures forall steps :: FinishesUndelivered(steps, uid, payload) ==>
            MAX_PAYLOAD_SIZE < |payload| <= MAX_SENDABLE_BYTES
  {
    hide Reached, Inv, InTime, Delivered;
    forall steps | FinishesUndelivered(steps, uid, payload) ensures MAX_PAYLOAD_SIZE < |payload| <= MAX_SENDABLE_BYTES {
      ReachedInv(steps);
      FinishedSize(Reached(steps), uid);
      if |payload| <= MAX_PAYLOAD_SIZE { FinishedSmallIsDelivered(steps, uid); }
    }
    if MAX_PAYLOAD_SIZE < |payload| <= MAX_SENDABLE_BYTES { var steps := LosingRun(uid, payload); }
  }
}
