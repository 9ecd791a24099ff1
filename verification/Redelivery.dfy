/**
 Delivery is not exactly-once: how often a message can be handed over, and that the bound by the arrivals of a part is
 attained. The time stamps of the runs that are shown to exist never decrease.
 */
module Redelivery {
  import opened BufferUtils
  import opened MessageBuffer
  import opened Protocol
  import opened Completion
  import E = Eviction
  import R = Receiver
  import S = Sender

  // ---------- whatever is acked has been sent ----------

  /** A datagram of part `k` of `uid` is on the network. */
  ghost predicate Available(s: Net, uid: UInt32, k: nat)
  {
    exists d :: d in s.toReceiver && Carries(d, uid, k)
  }

  predicate Carries(d: seq<Byte>, uid: UInt32, k: nat)
  {
    Decode(d).Some? && Decode(d).value.uid == uid && Decode(d).value.sequence == k
  }

  ghost predicate AckIsSent(s: Net, d: seq<Byte>)
  {
    Decode(d).Some? ==> Available(s, Decode(d).value.uid, Decode(d).value.ack)
  }

  ghost predicate AckedIsSent(s: Net)
  {
    && (forall d :: d in s.toSender ==> AckIsSent(s, d))
    && (forall u, k :: u in s.sender.txs && k in s.sender.txs[u].acks ==> Available(s, u, k))
  }

  lemma MoreAvailable(s: Net, t: Net)
    requires s.toReceiver <= t.toReceiver
    ensures forall u, k :: Available(s, u, k) ==> Available(t, u, k)
    ensures forall d :: AckIsSent(s, d) ==> AckIsSent(t, d)
  {
    hide Decode;
  }

  /** Steps that bring no acks into being. */
  lemma NoAcksFrame(s: Net, t: Net)
    requires AckedIsSent(s) && NoNewAcks(s, t) && s.toReceiver <= t.toReceiver
    ensures AckedIsSent(t)
  {
    hide Available, AckIsSent;
    MoreAvailable(s, t);
  }

  lemma ArrivalKeepsSent(s: Net, d: seq<Byte>, now: int)
    requires AckedIsSent(s) && d in s.toReceiver && Decode(d).Some?
    ensures AckedIsSent(DoArrival(s, Decode(d).value, now))
  {
    hide Available, AckIsSent, Decode, R.Handle, AckDatagram;
    var m := Decode(d).value;
    var t := DoArrival(s, m, now);
    MoreAvailable(s, t);
    assert AckIsSent(t, AckDatagram(m)) by { hide *; FreshAck(s, t, d); }
  }

  lemma FreshAck(s: Net, t: Net, d: seq<Byte>)
    requires d in s.toReceiver && t.toReceiver == s.toReceiver && Decode(d).Some?
    ensures AckIsSent(t, AckDatagram(Decode(d).value))
  {
    hide Decode, AckDatagram;
    var m := Decode(d).value;
    AckDecodes(m);
    assert Carries(d, m.uid, m.sequence);
  }

  lemma AckKeepsSent(s: Net, d: seq<Byte>)
    requires AckedIsSent(s) && d in s.toSender && Decode(d).Some?
    ensures AckedIsSent(DoAck(s, Decode(d).value))
  {
    hide Available, Decode;
    var m := Decode(d).value;
    var t := DoAck(s, m);
    MoreAvailable(s, t);
    NewAcks(s.sender, m);
    assert Available(s, m.uid, m.ack);
  }

  lemma NewAcks(s: S.SenderState, m: Message)
    ensures var t := S.Ack(s, m.uid, m.ack).0;
            t.txs.Keys == s.txs.Keys
            && forall u, k :: u in t.txs && k in t.txs[u].acks ==> k in s.txs[u].acks || (u == m.uid && k == m.ack)
  {
    hide S.Advance;
  }

  lemma OwnStepKeepsSent(s: Net, step: Step)
    requires Inv(s) && AckedIsSent(s) && !step.DeliverData? && !step.DeliverAck?
    ensures AckedIsSent(Do(s, step))
  {
    hide Available, AckIsSent, Decode, IsError, R.RemoveExpired, S.Transmit, S.TimerFires, S.Resume, S.Cancel,
      S.PartDatagrams,
      Chunks, Picked, DoArrival, S.TxInv, ReceiverOk, DataOk, AcksOk;
    var t := Do(s, step);
    match step
    case CorruptData(_, _, _) => CorruptionIsHarmless(s, step);
    case CorruptAck(_, _) => CorruptionIsHarmless(s, step);
    case Send(uid, payload) =>
      if t != s {
        S.FirstWindowLive(S.PartDatagrams(uid, payload));
        NoAcksFrame(s, t);
      }
    case Dispose =>
      forall u | u in s.sender.txs ensures S.Cancel(s.sender.txs[u]).acks == s.sender.txs[u].acks {
        S.TimerStepsKeepInv(s.sender.txs[u]);
      }
      NoAcksFrame(s, t);
    case TimerFires(uid) => if uid in s.sender.txs { S.TimerStepsKeepInv(s.sender.txs[uid]); } NoAcksFrame(s, t);
    case PauseOver(uid) => if uid in s.sender.txs { S.TimerStepsKeepInv(s.sender.txs[uid]); } NoAcksFrame(s, t);
    case _ => NoAcksFrame(s, t);
  }

  lemma DoKeepsSent(s: Net, step: Step)
    requires Inv(s) && AckedIsSent(s)
    ensures AckedIsSent(Do(s, step))
  {
    hide Inv, AckedIsSent, Decode, DoArrival, DoAck;
    match step
    case DeliverData(d, now) => if d in s.toReceiver && Decode(d).Some? { ArrivalKeepsSent(s, d, now); }
    case DeliverAck(d) => if d in s.toSender && Decode(d).Some? { AckKeepsSent(s, d); }
    case _ =>
      hide Do;
      OwnStepKeepsSent(s, step);
  }

  lemma {:induction false} RunKeepsSent(steps: seq<Step>)
    ensures AckedIsSent(Reached(steps))
  {
    hide Do, Inv;
    if steps != [] {
      var before := steps[..|steps| - 1];
      RunKeepsSent(before);
      ReachedInv(before);
      DoKeepsSent(Reached(before), steps[|steps| - 1]);
    }
  }

  /** Every part of a finished message is on the network. */
  lemma FinishedIsAvailable(s: Net, uid: UInt32)
    requires Inv(s) && AckedIsSent(s) && uid in s.payloads && uid in s.sender.txs && s.sender.txs[uid].fin
    ensures forall k: nat :: k < Count(s.payloads[uid]) ==> Available(s, uid, k)
  {
    hide Available, AckIsSent, Chunks, S.PartDatagrams, ReceiverOk, DataOk, AcksOk;
    PartsCount(uid, s.payloads[uid]);
    assert S.TxInv(s.sender.txs[uid]);
  }

  // ---------- one more delivery ----------

  /** A message of admissible size with every part of it on the network. */
  ghost predicate Deliverable(s: Net, uid: UInt32)
  {
    && uid in s.payloads && 1 <= |s.payloads[uid]| <= R.MAX_MESSAGE_SIZE_BYTES
    && (forall k: nat :: k < Count(s.payloads[uid]) ==> Available(s, uid, k))
  }

  /** The receiver has room for the message and holds exactly its first `j` parts. */
  ghost predicate HoldsFirst(s: Net, uid: UInt32, j: nat)
  {
    Room(s, uid) && forall k: nat :: R.Holds(s.collector, uid, k) <==> k < j
  }

  /** Nothing has changed at the receiver's end but for what it holds and what it has handed over. */
  ghost predicate Onwards(s: Net, t: Net) { t.payloads == s.payloads && t.toReceiver == s.toReceiver }

  lemma OnwardsDeliverable(s: Net, t: Net, uid: UInt32)
    requires Deliverable(s, uid) && Onwards(s, t)
    ensures Deliverable(t, uid)
  {
    hide Available, Chunks;
    MoreAvailable(s, t);
  }

  lemma StoredHolds(c: R.Collector, m: Message, now: int)
    ensures var e := R.Stored(R.Opened(c, m, now), m);
            forall k: nat :: k in e.parts <==> R.Holds(c, m.uid, k) || k == m.sequence
  {}

  /** The next part of a deliverable message is kept. */
  lemma NextIsKept(s: Net, uid: UInt32, m: Message, now: int)
    requires Inv(s) && IsPart(s.payloads, m) && m.uid == uid && |s.payloads[uid]| <= R.MAX_MESSAGE_SIZE_BYTES
    requires HoldsFirst(s, uid, m.sequence)
    ensures R.IsValidDataMessage(m) && R.FateOf(s.collector, m).Kept?
  {
    hide Chunks, SenderOk, DataOk, AcksOk, R.CollectorInv, EntriesOk, ReceivedOk, R.Collect;
    PartsLimit(s.payloads[uid]);
    FateWithRoom(s, m);
    ArrivalMeaning(s, m, now);
    assert !R.Holds(s.collector, uid, m.sequence);
  }

  lemma NextArrives(s: Net, uid: UInt32, m: Message, now: int)
    requires Inv(s) && IsPart(s.payloads, m) && m.uid == uid && |s.payloads[uid]| <= R.MAX_MESSAGE_SIZE_BYTES
    requires HoldsFirst(s, uid, m.sequence)
    ensures var t := DoArrival(s, m, now);
            && Onwards(s, t)
            && (if m.sequence + 1 < Count(s.payloads[uid]) then
                  HoldsFirst(t, uid, m.sequence + 1) && t.received == s.received
                else HoldsFirst(t, uid, 0) && t.received == s.received + [(uid, s.payloads[uid])])
  {
    hide Chunks, SenderOk, DataOk, AcksOk, R.CollectorInv, EntriesOk, ReceivedOk, R.Collect, R.Stored, R.Opened,
      R.InOrder,
      R.FateOf, R.IsValidDataMessage, AckDatagram, Concat;
    NextIsKept(s, uid, m, now);
    ArrivalMeaning(s, m, now);
    R.CollectMeaning(s.collector, m, now);
    StoredHolds(s.collector, m, now);
    RoomStays(s.collector, m, now);
    var e := R.Stored(R.Opened(s.collector, m, now), m);
    assert forall k: nat :: k in e.parts <==> k <= m.sequence;
    assert R.HasAll(e.parts, m.total) <==> m.sequence + 1 == m.total by {
      if R.HasAll(e.parts, m.total) { assert m.total - 1 in e.parts; }
    }
  }

  /** The parts from number `j` on are delivered in order: one more delivery. */
  lemma DeliverFrom(s: Net, uid: UInt32, j: nat, now: int) returns (steps: seq<Step>)
    requires Inv(s) && Deliverable(s, uid) && j < Count(s.payloads[uid]) && HoldsFirst(s, uid, j)
    ensures AllAt(steps, now)
    ensures var t := After(s, steps);
            Inv(t) && Onwards(s, t) && HoldsFirst(t, uid, 0) && t.received == s.received + [(uid, s.payloads[uid])]
    decreases Count(s.payloads[uid]) - j
  {
    hide Inv, After, Decode, Chunks, HoldsFirst, DoArrival, IsPart;
    assert Available(s, uid, j);
    var d :| d in s.toReceiver && Carries(d, uid, j);
    KnownData(s, d);
    var m := Decode(d).value;
    NextArrives(s, uid, m, now);
    var step := DeliverData(d, now);
    AfterOne(s, step);
    steps := [step];
    var t := Do(s, step);
    if j + 1 < Count(s.payloads[uid]) {
      OnwardsDeliverable(s, t, uid);
      var rest := DeliverFrom(t, uid, j + 1, now);
      AfterAppend(s, steps, rest);
      AllAtAppend(steps, rest, now);
      steps := steps + rest;
    }
  }

  /** How often the payload has been handed over. */
  function Times(s: Net, uid: UInt32, payload: seq<Byte>): nat { multiset(s.received)[(uid, payload)] }

  lemma OneMore(received: seq<(UInt32, seq<Byte>)>, x: (UInt32, seq<Byte>))
    ensures multiset(received + [x])[x] == multiset(received)[x] + 1
  {}

  lemma {:induction false} DeliverRepeatedly(s: Net, uid: UInt32, n: nat, now: int) returns (steps: seq<Step>)
    requires Inv(s) && Deliverable(s, uid) && HoldsFirst(s, uid, 0)
    ensures AllAt(steps, now)
    ensures Times(After(s, steps), uid, s.payloads[uid]) >= Times(s, uid, s.payloads[uid]) + n
    decreases n
  {
    hide Inv, After, Chunks, HoldsFirst;
    steps := [];
    AfterNone(s);
    if n > 0 {
      assert Count(s.payloads[uid]) > 0 by { NonEmpty(s.payloads[uid]); }
      steps := DeliverFrom(s, uid, 0, now);
      var t := After(s, steps);
      OneMore(s.received, (uid, s.payloads[uid]));
      OnwardsDeliverable(s, t, uid);
      var rest := DeliverRepeatedly(t, uid, n - 1, now);
      AfterAppend(s, steps, rest);
      AllAtAppend(steps, rest, now);
      steps := steps + rest;
    }
  }

  // ---------- exactly as often as one likes ----------

  lemma StepDeliversOnce(s: Net, step: Step, uid: UInt32, payload: seq<Byte>)
    requires Inv(s)
    ensures Times(Do(s, step), uid, payload) <= Times(s, uid, payload) + 1
  {
    hide Inv, Decode, DoAck, R.Handle, AckDatagram;
    if step.DeliverData? && step.datagram in s.toReceiver && Decode(step.datagram).Some? {
      ArrivalDeliversOnce(s, Decode(step.datagram).value, step.now, uid, payload);
    } else if !step.DeliverData? && !step.Cleanup? && !step.Leave? {
      hide Do;
      E.Quiet(s, step);
    }
  }

  lemma ArrivalDeliversOnce(s: Net, m: Message, now: int, uid: UInt32, payload: seq<Byte>)
    ensures Times(DoArrival(s, m, now), uid, payload) <= Times(s, uid, payload) + 1
  {
    hide R.Handle, AckDatagram;
  }

  /** On the way to `n` deliveries there is a point with exactly that many. */
  lemma {:induction false} PrefixWith(steps: seq<Step>, uid: UInt32, payload: seq<Byte>, n: nat) returns (i: nat)
    requires n <= Times(Reached(steps), uid, payload)
    ensures i <= |steps| && Times(Reached(steps[..i]), uid, payload) == n
  {
    hide Do, Inv, Times;
    if Times(Reached(steps), uid, payload) == n {
      i := |steps|;
      assert steps[..i] == steps;
    } else if steps == [] {
      assert Times(INITIAL, uid, payload) == 0 by { hide *; NothingDelivered(uid, payload); }
      assert false;
    } else {
      var before := steps[..|steps| - 1];
      ReachedInv(before);
      StepDeliversOnce(Reached(before), steps[|steps| - 1], uid, payload);
      i := PrefixWith(before, uid, payload, n);
      assert before[..i] == steps[..i];
    }
  }

  lemma NothingDelivered(uid: UInt32, payload: seq<Byte>)
    ensures Times(INITIAL, uid, payload) == 0
  {}

  /** With nothing held and everything sent, a finished message can be delivered from the start again. */
  lemma AfterCleanup(s: Net, uid: UInt32, now: int)
    requires Inv(s) && AckedIsSent(s) && uid in s.payloads && uid in s.sender.txs && s.sender.txs[uid].fin
    requires 1 <= |s.payloads[uid]| <= R.MAX_MESSAGE_SIZE_BYTES && now >= Deadline(s.collector)
    ensures var t := Do(s, Cleanup(now)); Deliverable(t, uid) && HoldsFirst(t, uid, 0) && t.payloads == s.payloads
  {
    hide Inv, Available, Chunks;
    FinishedIsAvailable(s, uid);
    MoreAvailable(s, Do(s, Cleanup(now)));
    assert R.RemoveExpired(s.collector, now) == map[];
  }

  lemma DeliveredRun(uid: UInt32, payload: seq<Byte>, n: nat) returns (steps: seq<Step>)
    requires 1 <= |payload| <= R.MAX_MESSAGE_SIZE_BYTES
    ensures InTime(steps) && Times(Reached(steps), uid, payload) >= n
  {
    hide Reached, After, Inv, Do, Chunks, InTime, AllAt, Before, Clock, Deadline, Times, AckedIsSent, Deliverable,
      HoldsFirst;
    var first := Finishing(uid, payload);
    var s := Reached(first);
    ReachedInv(first);
    assert AckedIsSent(s) by { RunKeepsSent(first); }
    var now := Max(Clock(first), Deadline(s.collector));
    var cleanup := Cleanup(now);
    AfterCleanup(s, uid, now);
    AfterOne(s, cleanup);
    var rest := DeliverRepeatedly(Do(s, cleanup), uid, n, now);
    AfterAppend(s, [cleanup], rest);
    ReachedAppend(first, [cleanup] + rest);
    steps := first + ([cleanup] + rest);
    OneAt(cleanup, now);
    AllAtAppend([cleanup], rest, now);
    BeforeLater(first, Clock(first), now);
    InTimeAppend(first, [cleanup] + rest, now);
  }

  /**
   Delivery is not exactly-once: for any number but zero, there is a run that hands a payload over that many times if
   and only if the payload has 1 byte to 10 MiB.
   */
  lemma DeliveredAnyNumberOfTimes(uid: UInt32, payload: seq<Byte>, n: nat)
    requires n > 0
    ensures (exists steps :: InTime(steps) && Times(Reached(steps), uid, payload) == n)
       <==> 1 <= |payload| <= R.MAX_MESSAGE_SIZE_BYTES
  {
    hide Reached, Inv, InTime;
    forall steps | Times(Reached(steps), uid, payload) == n ensures 1 <= |payload| <= R.MAX_MESSAGE_SIZE_BYTES {
      var received := Reached(steps).received;
      assert (uid, payload) in multiset(received);
      var i :| 0 <= i < |received| && received[i] == (uid, payload);
      DeliveryIntegrity(steps, i);
    }
    if 1 <= |payload| <= R.MAX_MESSAGE_SIZE_BYTES {
      var steps := DeliveredRun(uid, payload, n);
      var i := PrefixWith(steps, uid, payload, n);
      assert InTime(steps[..i]) by { hide *; PrefixInTime(steps, i); }
    }
  }

  lemma PrefixInTime(steps: seq<Step>, i: nat)
    requires InTime(steps) && i <= |steps|
    ensures InTime(steps[..i])
  {}

  // ---------- the bound by arrivals is attained ----------

  /** The parts of one message in order, within the limits. */
  ghost predicate IsRound(ms: seq<Message>, uid: UInt32)
  {
    && 0 < |ms| <= R.MAX_MESSAGE_PARTS && Size(ms, |ms|) <= R.MAX_MESSAGE_SIZE_BYTES
    && forall k :: 0 <= k < |ms| ==>
         R.IsValidDataMessage(ms[k]) && ms[k].uid == uid && ms[k].sequence == k && ms[k].total == |ms|
  }

  /** The bytes of the first `j` parts. */
  function Size(ms: seq<Message>, j: nat): nat
    requires j <= |ms|
  {
    if j == 0 then 0 else Size(ms, j - 1) + |ms[j - 1].payload|
  }

  lemma {:induction false} SizeGrows(ms: seq<Message>, i: nat, j: nat)
    requires i <= j <= |ms|
    ensures Size(ms, i) <= Size(ms, j)
  {
    if i < j { SizeGrows(ms, i, j - 1); }
  }

  function Arrivals(ms: seq<Message>, now: int): seq<R.Event>
  {
    seq(|ms|, k requires 0 <= k < |ms| => R.Arrive(ms[k], now))
  }

  /** What the receiver holds after the first `j` parts, fewer than all. */
  ghost predicate HoldsRound(c: R.Collector, ms: seq<Message>, uid: UInt32, j: nat)
    requires j <= |ms|
  {
    if j == 0 || j == |ms| then c == map[]
    else
      && c.Keys == {uid} && c[uid].total == |ms| && c[uid].receivedBytes == Size(ms, j)
      && forall k: nat :: k in c[uid].parts <==> k < j
  }

  /** The next part of a round. */
  lemma RoundStep(c: R.Collector, ms: seq<Message>, uid: UInt32, j: nat, now: int)
    requires R.CollectorInv(c) && IsRound(ms, uid) && j < |ms| && HoldsRound(c, ms, uid, j)
    ensures R.FateOf(c, ms[j]).Kept?
    ensures var o := R.Handle(c, ms[j], now);
            HoldsRound(o.collector, ms, uid, j + 1) && (o.received.Some? <==> j + 1 == |ms|)
  {
    hide R.CollectorInv, R.Collect, R.InOrder, Concat;
    var m := ms[j];
    SizeGrows(ms, j + 1, |ms|);
    R.CollectMeaning(c, m, now);
    StoredHolds(c, m, now);
    var e := R.Stored(R.Opened(c, m, now), m);
    assert R.HasAll(e.parts, |ms|) <==> j + 1 == |ms| by {
      if R.HasAll(e.parts, |ms|) { assert |ms| - 1 in e.parts; }
    }
  }

  /** Another round of arrivals: one more delivery, and one more arrival of each part. */
  lemma {:induction false} Round(before: seq<R.Event>, ms: seq<Message>, uid: UInt32, now: int, j: nat, k: nat)
    requires IsRound(ms, uid) && R.Run(before) == map[] && j <= |ms| && k < |ms|
    ensures var events := before + Arrivals(ms[..j], now);
            && HoldsRound(R.Run(events), ms, uid, j)
            && R.ReceivedCount(events, uid, k) == R.ReceivedCount(before, uid, k) + (if j == |ms| then 1 else 0)
            && R.ArrivedCount(events, uid, k) == R.ArrivedCount(before, uid, k) + (if k < j then 1 else 0)
  {
    hide R.Run, R.ReceivedCount, R.ArrivedCount, R.CollectorInv, R.FateOf, R.Handle, HoldsRound, R.IsValidDataMessage;
    var events := before + Arrivals(ms[..j], now);
    if j == 0 {
      assert events == before;
      assert HoldsRound(map[], ms, uid, 0) by { hide *; NothingHeld(ms, uid); }
    } else {
      Round(before, ms, uid, now, j - 1, k);
      var prefix := before + Arrivals(ms[..j - 1], now);
      assert events == prefix + [R.Arrive(ms[j - 1], now)];
      R.RunInv(prefix);
      RoundStep(R.Run(prefix), ms, uid, j - 1, now);
      OneArrival(prefix, ms[j - 1], now, k);
    }
  }

  lemma OneArrival(prefix: seq<R.Event>, m: Message, now: int, k: nat)
    requires R.IsValidDataMessage(m)
    ensures var events := prefix + [R.Arrive(m, now)]; var o := R.Handle(R.Run(prefix), m, now);
            && R.Run(events) == o.collector
            && R.ReceivedCount(events, m.uid, k)
               == R.ReceivedCount(prefix, m.uid, k) + (if k < m.total && o.received.Some? then 1 else 0)
            && R.ArrivedCount(events, m.uid, k) == R.ArrivedCount(prefix, m.uid, k) + (if m.sequence == k then 1 else 0)
  {
    hide R.Handle, R.IsValidDataMessage, R.FateOf;
    assert (prefix + [R.Arrive(m, now)])[..|prefix|] == prefix;
  }

  lemma NothingHeld(ms: seq<Message>, uid: UInt32)
    ensures HoldsRound(map[], ms, uid, 0)
  {}

  /**
   The bound of `Receiver.DeliveredAtMostAsArrived` is attained, for every message within the limits and every number
   of deliveries, at all of its parts at once.
   */
  lemma {:induction false} BoundIsAttained(ms: seq<Message>, uid: UInt32, n: nat, now: int)
    returns (events: seq<R.Event>)
    requires IsRound(ms, uid)
    ensures R.Run(events) == map[]
    ensures forall k: nat :: k < |ms| ==> R.ReceivedCount(events, uid, k) == n && R.ArrivedCount(events, uid, k) == n
    decreases n
  {
    if n == 0 {
      events := [];
    } else {
      hide R.ReceivedCount, R.ArrivedCount, R.Run, IsRound;
      var before := BoundIsAttained(ms, uid, n - 1, now);
      events := before + Arrivals(ms, now);
      assert ms[..|ms|] == ms;
      forall k: nat | k < |ms| ensures R.ReceivedCount(events, uid, k) == n && R.ArrivedCount(events, uid, k) == n {
        Round(before, ms, uid, now, |ms|, k);
      }
      RoundNotEmpty(ms, uid);
      Round(before, ms, uid, now, |ms|, 0);
    }
  }

  lemma RoundNotEmpty(ms: seq<Message>, uid: UInt32)
    requires IsRound(ms, uid)
    ensures |ms| > 0
  {}
}
