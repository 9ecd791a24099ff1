/**
 Progress over whole runs: as long as the datagram after the acked prefix and its ack get through once a round, a
 transmission finishes within as many rounds as it has datagrams, whatever else happens in between.
 */
module Progress {
  import opened BufferUtils
  import opened MessageBuffer
  import opened Protocol
  import opened Completion
  import S = Sender

  /** The same transmission later on. */
  ghost predicate Grown(s: S.SenderState, t: S.SenderState, uid: UInt32)
  {
    && uid in s.txs && uid in t.txs && (s.disposed ==> t.disposed)
    && var (a, b) := (s.txs[uid], t.txs[uid]);
    && b.buffers == a.buffers && a.acks <= b.acks && a.greatest <= b.greatest && (a.fin ==> b.fin)
    && (a.cancelled ==> b.cancelled) && (b.cancelled ==> a.cancelled || t.disposed)
  }

  lemma GrownTwice(s: S.SenderState, t: S.SenderState, u: S.SenderState, uid: UInt32)
    requires Grown(s, t, uid) && Grown(t, u, uid)
    ensures Grown(s, u, uid)
  {}

  lemma AckGrows(s: S.SenderState, m: Message, uid: UInt32)
    requires S.SenderInv(s) && uid in s.txs
    ensures var t := S.Ack(s, m.uid, m.ack).0;
            && Grown(s, t, uid)
            && (m.uid == uid ==> S.Stopped(t.txs[uid]) || m.ack in t.txs[uid].acks)
  {
    hide S.CollectAck, S.TxInv;
    if m.uid in s.registry {
      S.AckMeaning(s.txs[m.uid], m.ack);
      S.AckNeverCancels(s.txs[m.uid], m.ack);
    }
  }

  lemma DisposeGrows(s: S.SenderState, uid: UInt32)
    requires S.SenderInv(s) && uid in s.txs
    ensures Grown(s, S.Dispose(s), uid)
  {
    hide S.TxInv;
  }

  lemma TimersGrow(s: S.SenderState, u: UInt32, out: S.Sends, uid: UInt32)
    requires uid in s.txs && u in s.txs && S.KeepsAcks(s.txs[u], out.tx) && out.tx.cancelled == s.txs[u].cancelled
    ensures Grown(s, s.(txs := s.txs[u := out.tx]), uid)
  {
    hide S.TxInv;
  }

  lemma StepGrows(s: Net, step: Step, uid: UInt32)
    requires Inv(s) && uid in s.sender.txs
    ensures Grown(s.sender, Do(s, step).sender, uid)
  {
    hide S.Register, S.TimerFires, S.Resume, S.Ack, S.Dispose, S.PartDatagrams, Chunks, Picked, Decode, IsError,
      DoArrival, ReceiverOk, DataOk, AcksOk, S.TxInv, Grown, S.KeepsAcks;
    var a := s.sender;
    SameGrown(a, uid);
    match step
    case TimerFires(u) =>
      if u in a.txs {
        S.TimerStepsKeepInv(a.txs[u]);
        S.TimerNeverCancels(a.txs[u]);
        TimersGrow(a, u, S.TimerFires(a.txs[u]), uid);
      }
    case PauseOver(u) =>
      if u in a.txs {
        S.TimerStepsKeepInv(a.txs[u]);
        S.TimerNeverCancels(a.txs[u]);
        TimersGrow(a, u, S.Resume(a.txs[u]), uid);
      }
    case Dispose => DisposeGrows(a, uid);
    case DeliverAck(d) => if Decode(d).Some? { AckGrows(a, Decode(d).value, uid); }
    case CorruptData(_, _, _) => CorruptionIsHarmless(s, step);
    case CorruptAck(_, _) => CorruptionIsHarmless(s, step);
    case Send(u, payload) =>
      if u !in a.txs && Count(payload) < 0x1_0000_0000 { RegisterGrows(a, u, S.PartDatagrams(u, payload), uid); }
    case DeliverData(_, _) => ArrivalKeepsSender(s, step);
    case Cleanup(_) =>
    case Leave =>
  }

  lemma ArrivalKeepsSender(s: Net, step: Step)
    requires step.DeliverData?
    ensures Do(s, step).sender == s.sender
  {
    hide Decode;
  }

  lemma SameGrown(s: S.SenderState, uid: UInt32)
    requires uid in s.txs
    ensures Grown(s, s, uid)
  {}

  lemma RegisterGrows(s: S.SenderState, u: UInt32, buffers: seq<seq<Byte>>, uid: UInt32)
    requires uid in s.txs && u !in s.txs
    ensures Grown(s, S.Register(s, u, buffers).0, uid)
  {}

  lemma {:induction false} RunGrows(s: Net, steps: seq<Step>, uid: UInt32)
    requires Inv(s) && uid in s.sender.txs
    ensures Grown(s.sender, After(s, steps).sender, uid)
  {
    hide Inv, Do, Grown;
    if steps == [] {
      SameGrown(s.sender, uid);
    } else {
      var before := steps[..|steps| - 1];
      RunGrows(s, before, uid);
      AfterKeepsInv(s, before);
      var t := After(s, before);
      assert uid in t.sender.txs by { GrownKnown(s.sender, t.sender, uid); }
      StepGrows(t, steps[|steps| - 1], uid);
      GrownTwice(s.sender, t.sender, After(s, steps).sender, uid);
    }
  }

  lemma GrownKnown(s: S.SenderState, t: S.SenderState, uid: UInt32)
    requires Grown(s, t, uid)
    ensures uid in t.txs
  {}

  // ---------- rounds ----------

  /** The step brings in an ack for datagram `k` of `uid`. */
  predicate BringsAck(s: Net, step: Step, uid: UInt32, k: int)
  {
    && step.DeliverAck? && step.datagram in s.toSender && Decode(step.datagram).Some?
    && Decode(step.datagram).value.kind == DATA_ACK
    && Decode(step.datagram).value.uid == uid && Decode(step.datagram).value.ack == k
  }

  /** In this part of a run an ack for the datagram that was missing at its beginning comes in. */
  ghost predicate GapGetsThrough(s: Net, round: seq<Step>, uid: UInt32)
  {
    uid in s.sender.txs
    && exists i :: 0 <= i < |round| && BringsAck(After(s, round[..i]), round[i], uid, s.sender.txs[uid].greatest + 1)
  }

  lemma BroughtAck(s: Net, step: Step, uid: UInt32, k: int)
    requires Inv(s) && uid in s.sender.txs && BringsAck(s, step, uid, k)
    ensures k >= 0
    ensures var t := Do(s, step).sender; uid in t.txs && (S.Stopped(t.txs[uid]) || k in t.txs[uid].acks)
  {
    hide Decode, S.Ack, ReceiverOk, DataOk, AcksOk, S.TxInv;
    AckGrows(s.sender, Decode(step.datagram).value, uid);
  }

  /** Each such part brings the acked prefix further, or the transmission has stopped. */
  lemma RoundCloses(s: Net, round: seq<Step>, uid: UInt32)
    requires Inv(s) && GapGetsThrough(s, round, uid)
    ensures var t := After(s, round);
            && Inv(t) && Grown(s.sender, t.sender, uid)
            && (S.Stopped(t.sender.txs[uid]) || s.sender.txs[uid].greatest < t.sender.txs[uid].greatest)
  {
    hide Inv, Do, After, BringsAck;
    var k := s.sender.txs[uid].greatest + 1;
    var i :| 0 <= i < |round| && BringsAck(After(s, round[..i]), round[i], uid, k);
    var mid := After(s, round[..i]);
    AfterKeepsInv(s, round[..i]);
    RunGrows(s, round[..i], uid);
    AfterOne(mid, round[i]);
    AfterAppend(s, round[..i], [round[i]]);
    assert round[..i] + [round[i]] == round[..i + 1];
    BroughtAck(mid, round[i], uid, k);
    var next := After(s, round[..i + 1]);
    RunGrows(next, round[i + 1..], uid);
    AfterAppend(s, round[..i + 1], round[i + 1..]);
    assert round[..i + 1] + round[i + 1..] == round;
    RunGrows(s, round, uid);
    AfterKeepsInv(s, round);
    PrefixEnds(After(s, round), uid);
  }

  lemma PrefixEnds(s: Net, uid: UInt32)
    requires Inv(s) && uid in s.sender.txs
    ensures s.sender.txs[uid].greatest + 1 !in s.sender.txs[uid].acks
  {
    hide ReceiverOk, DataOk, AcksOk;
  }

  function Joined(rounds: seq<seq<Step>>): seq<Step>
  {
    if rounds == [] then [] else rounds[0] + Joined(rounds[1..])
  }

  /** In each round the datagram that is missing at its beginning, and its ack, get through, unless there is none. */
  ghost predicate EachGapGetsThrough(s: Net, rounds: seq<seq<Step>>, uid: UInt32)
    decreases |rounds|
  {
    rounds != [] ==>
      && uid in s.sender.txs && (S.Stopped(s.sender.txs[uid]) || GapGetsThrough(s, rounds[0], uid))
      && EachGapGetsThrough(After(s, rounds[0]), rounds[1..], uid)
  }

  lemma {:induction false} RoundsClose(s: Net, rounds: seq<seq<Step>>, uid: UInt32)
    requires Inv(s) && uid in s.sender.txs && EachGapGetsThrough(s, rounds, uid)
    ensures var t := After(s, Joined(rounds));
            && Inv(t) && Grown(s.sender, t.sender, uid)
            && (S.Stopped(t.sender.txs[uid]) || s.sender.txs[uid].greatest + |rounds| <= t.sender.txs[uid].greatest)
    decreases |rounds|
  {
    hide Inv, Do, After, GapGetsThrough;
    if rounds == [] {
      AfterNone(s);
      SameGrown(s.sender, uid);
    } else {
      var mid := After(s, rounds[0]);
      AfterKeepsInv(s, rounds[0]);
      RunGrows(s, rounds[0], uid);
      if !S.Stopped(s.sender.txs[uid]) { RoundCloses(s, rounds[0], uid); }
      RoundsClose(mid, rounds[1..], uid);
      AfterAppend(s, rounds[0], Joined(rounds[1..]));
      GrownTwice(s.sender, mid.sender, After(s, Joined(rounds)).sender, uid);
    }
  }

  /**
   A live transmission that gets as many rounds as it has unacked datagrams after its prefix finishes, unless the
   sender is disposed of: within as many rounds as it has datagrams, from whatever state of whatever run.
   */
  lemma RoundsFinish(before: seq<Step>, rounds: seq<seq<Step>>, uid: UInt32)
    requires var s := Reached(before);
             && uid in s.sender.registry && uid in s.payloads && s.payloads[uid] != [] && uid in s.sender.txs
             && EachGapGetsThrough(s, rounds, uid)
             && |rounds| >= Count(s.payloads[uid]) - 1 - s.sender.txs[uid].greatest
    ensures var t := Reached(before + Joined(rounds));
            uid in t.sender.txs && (t.sender.txs[uid].fin || t.sender.disposed)
  {
    hide Reached, Inv, After, Chunks, EachGapGetsThrough;
    var s := Reached(before);
    ReachedInv(before);
    RoundsClose(s, rounds, uid);
    ReachedAppend(before, Joined(rounds));
    var t := After(s, Joined(rounds));
    LiveTx(s, uid);
    Ending(t, uid);
  }

  lemma LiveTx(s: Net, uid: UInt32)
    requires Inv(s) && uid in s.sender.registry && uid in s.payloads && s.payloads[uid] != []
    ensures uid in s.sender.txs && !s.sender.txs[uid].cancelled
    ensures |s.sender.txs[uid].buffers| == Count(s.payloads[uid]) > 0
  {
    hide ReceiverOk, DataOk, AcksOk, S.PartDatagrams, Chunks, S.TxInv;
    PartsCount(uid, s.payloads[uid]);
    NonEmpty(s.payloads[uid]);
  }

  lemma Ending(t: Net, uid: UInt32)
    requires Inv(t) && uid in t.sender.txs && |t.sender.txs[uid].buffers| > 0
    ensures var tx := t.sender.txs[uid]; tx.fin || tx.greatest + 1 < |tx.buffers|
  {
    hide ReceiverOk, DataOk, AcksOk, S.PartDatagrams, Chunks;
    AcksAreInRange(t, uid);
    S.PrefixInRange(t.sender.txs[uid]);
  }
}
