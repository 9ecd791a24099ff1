/** The sending half of a connected session: the sliding window (src/transport/session/behaviors/connected.ts). */
module Sender {
  import opened BufferUtils
  import Crc
  import opened MessageBuffer

  const SLIDING_WINDOW_SIZE: nat := 20

  // ---------- specification of one transmission ----------

  /** A transmission: its datagrams, the acks seen, the last sequentially acked number, timer, flags and resend loop. */
  datatype Tx = Tx(buffers: seq<seq<Byte>>, acks: set<nat>, greatest: AckNum, timer: bool, fin: bool, cancelled: bool,
                   resending: bool, position: nat)

  type AckNum = g: int | g >= -1 witness -1

  /** A transmission after a step, and the numbers of the datagrams it sent. */
  datatype Sends = Sends(tx: Tx, sent: seq<nat>)

  predicate Stopped(t: Tx) { t.fin || t.cancelled }

  function NewTx(buffers: seq<seq<Byte>>): Tx { Tx(buffers, {}, -1, false, false, false, false, 0) }

  function ResetTimer(t: Tx): Tx { if Stopped(t) then t else t.(timer := true) }

  /** The first window, sent at once. */
  function Transmit(t: Tx): Sends
  {
    if Stopped(t) then Sends(t, [])
    else Sends(ResetTimer(t), seq(Min(SLIDING_WINDOW_SIZE, |t.buffers|), i => i))
  }

  /** One turn of the resend loop: send and wait, or leave the loop. */
  function ResendTurn(t: Tx): Sends
  {
    if !Stopped(t) && t.position < Min(t.greatest + SLIDING_WINDOW_SIZE, |t.buffers|) then
      Sends(t, if t.position !in t.acks then [t.position] else [])
    else
      Sends(ResetTimer(t.(resending := false)), [])
  }

  function Resend(t: Tx): Sends
  {
    if t.resending || Stopped(t) then Sends(t, [])
    else ResendTurn(t.(resending := true, position := t.greatest + 1))
  }

  /** The timer goes off: it is disarmed, and a resend pass starts unless one is running. */
  function TimerFires(t: Tx): Sends { Resend(t.(timer := false)) }

  /** The resend loop goes on after its pause. */
  function Resume(t: Tx): Sends { if t.resending then ResendTurn(t.(position := t.position + 1)) else Sends(t, []) }

  /** The end of the run of acked numbers that starts after `g`. */
  function Advance(acks: set<nat>, g: AckNum): (r: AckNum)
    ensures g <= r && r + 1 !in acks && forall k :: g < k <= r ==> k in acks
    decreases acks - Upto(g)
  {
    if g + 1 in acks then
      assert g + 1 in acks - Upto(g) && g + 1 !in acks - Upto(g + 1);
      Advance(acks, g + 1)
    else g
  }

  function Upto(g: AckNum): (s: set<nat>)
    ensures forall k: nat :: k in s <==> k <= g
    decreases g + 1
  {
    if g == -1 then {} else Upto(g - 1) + {g}
  }

  function CollectAck(t: Tx, ack: nat): Tx
  {
    if Stopped(t) then t
    else
      var acked := t.(acks := t.acks + {ack}, greatest := Advance(t.acks + {ack}, t.greatest));
      if acked.greatest + 1 == |t.buffers| then acked.(fin := true, timer := false) else ResetTimer(acked)
  }

  function Cancel(t: Tx): Tx { if Stopped(t) then t else t.(cancelled := true, timer := false) }

  // ---------- specification of the registry ----------

  /** Every transmission ever registered, those still in `transmissionMap`, and the disposed flag. */
  datatype SenderState = SenderState(txs: map<UInt32, Tx>, registry: set<UInt32>, disposed: bool)

  const NO_TRANSMISSIONS := SenderState(map[], {}, false)

  /** A new transmission: the new state, and the numbers of the datagrams sent at once. */
  function Register(s: SenderState, uid: UInt32, buffers: seq<seq<Byte>>): (SenderState, seq<nat>)
  {
    if s.disposed then (s, [])
    else
      var out := Transmit(NewTx(buffers));
      (s.(txs := s.txs[uid := out.tx], registry := s.registry + {uid}), out.sent)
  }

  /** An ack for `uid`: the new state, and whether `transmitted` is emitted. */
  function Ack(s: SenderState, uid: UInt32, ack: nat): (SenderState, bool)
  {
    if s.disposed || uid !in s.registry || uid !in s.txs then (s, false)
    else
      var t := s.txs[uid];
      var after := CollectAck(t, ack);
      (s.(txs := s.txs[uid := after], registry := if !Stopped(t) && after.fin then s.registry - {uid} else s.registry),
       !Stopped(t) && t.acks == {})
  }

  function CancelIn(txs: map<UInt32, Tx>, us: set<UInt32>): map<UInt32, Tx>
  {
    map u | u in txs :: if u in us then Cancel(txs[u]) else txs[u]
  }

  function Dispose(s: SenderState): SenderState
  {
    if s.disposed then s else SenderState(CancelIn(s.txs, s.registry), {}, true)
  }

  // ---------- the program ----------

  class Transmission {
    const dataSender: DataSender
    const constructed: Constructed
    var dataAckMap: map<nat, Message>
    var greatestSequentialAckNum: AckNum
    var resendTimer: bool
    var isTransmissionFin: bool
    var isCancelled: bool
    var isResending: bool
    var resendPosition: nat // the loop variable of the suspended resend pass

    ghost function View(): Tx
      reads this
    {
      Tx(constructed.buffers, dataAckMap.Keys, greatestSequentialAckNum, resendTimer, isTransmissionFin, isCancelled,
         isResending, resendPosition)
    }

    /** Creates a transmission and registers its data: `constructor` and `register` of the program. */
    constructor (dataSender: DataSender, constructed: Constructed)
      ensures this.dataSender == dataSender && this.constructed == constructed
      ensures View() == NewTx(constructed.buffers)
    {
      this.dataSender := dataSender;
      this.constructed := constructed;
      dataAckMap, greatestSequentialAckNum := map[], -1;
      resendTimer, isTransmissionFin, isCancelled, isResending, resendPosition := false, false, false, false, 0;
    }

    predicate IsStopped() reads this { isTransmissionFin || isCancelled }

    method ResetResendTimer()
      modifies this`resendTimer
      ensures View() == ResetTimer(old(View()))
    {
      if IsStopped() { return; }
      resendTimer := true;
    }

    method OnResendTimer() returns (sent: seq<nat>)
      modifies this`resendTimer, this`isResending, this`resendPosition
      ensures Sends(View(), sent) == TimerFires(old(View()))
    {
      resendTimer := false;
      sent := StartResend();
    }

    method StartResend() returns (sent: seq<nat>)
      modifies this`resendTimer, this`isResending, this`resendPosition
      ensures Sends(View(), sent) == Resend(old(View()))
    {
      if isResending || IsStopped() { return []; }
      isResending := true;
      resendPosition := greatestSequentialAckNum + 1;
      sent := ResendLoop();
    }

    /** The resend pass from the end of its pause on. */
    method ContinueResend() returns (sent: seq<nat>)
      modifies this`resendTimer, this`isResending, this`resendPosition
      ensures Sends(View(), sent) == Resume(old(View()))
    {
      if !isResending { return []; }
      resendPosition := resendPosition + 1;
      sent := ResendLoop();
    }

    method ResendLoop() returns (sent: seq<nat>)
      modifies this`resendTimer, this`isResending
      ensures Sends(View(), sent) == ResendTurn(old(View()))
    {
      sent := [];
      if !IsStopped() && resendPosition < Min(greatestSequentialAckNum + SLIDING_WINDOW_SIZE, |constructed.buffers|) {
        if resendPosition !in dataAckMap {
          sent := [resendPosition];
        }
        return;
      }
      isResending := false;
      if !IsStopped() { ResetResendTimer(); }
    }

    method TransmitFirst() returns (sent: seq<nat>)
      modifies this`resendTimer
      ensures Sends(View(), sent) == Transmit(old(View()))
    {
      sent := [];
      if IsStopped() { return; }
      while |sent| < Min(SLIDING_WINDOW_SIZE, |constructed.buffers|)
        invariant |sent| <= Min(SLIDING_WINDOW_SIZE, |constructed.buffers|)
        invariant sent == seq(|sent|, i => i)
      {
        sent := sent + [|sent|];
      }
      ResetResendTimer();
    }

    /** The loop of `collectDataAck`. */
    method AdvanceGreatest()
      modifies this`greatestSequentialAckNum
      ensures greatestSequentialAckNum == Advance(dataAckMap.Keys, old(greatestSequentialAckNum))
    {
      ghost var acks := dataAckMap.Keys;
      while greatestSequentialAckNum + 1 in dataAckMap
        invariant Advance(acks, greatestSequentialAckNum) == Advance(acks, old(greatestSequentialAckNum))
        decreases acks - Upto(greatestSequentialAckNum)
      {
        assert greatestSequentialAckNum + 1 in acks - Upto(greatestSequentialAckNum);
        assert greatestSequentialAckNum + 1 !in acks - Upto(greatestSequentialAckNum + 1);
        greatestSequentialAckNum := greatestSequentialAckNum + 1;
      }
    }

    method CollectDataAck(message: Message) returns (isFirstAck: bool)
      modifies this, dataSender`transmissionMap
      ensures View() == CollectAck(old(View()), message.ack)
      ensures isFirstAck == (!Stopped(old(View())) && old(View()).acks == {})
      ensures dataSender.transmissionMap
           == if !Stopped(old(View())) && View().fin then old(dataSender.transmissionMap) - {constructed.uid}
              else old(dataSender.transmissionMap)
    {
      if IsStopped() { return false; }
      hide Advance;
      isFirstAck := |dataAckMap| == 0;
      assert |dataAckMap| == |dataAckMap.Keys|;
      dataAckMap := dataAckMap[message.ack := message];
      assert dataAckMap.Keys == old(dataAckMap.Keys) + {message.ack};
      AdvanceGreatest();
      if greatestSequentialAckNum + 1 == |constructed.buffers| {
        isTransmissionFin := true;
        resendTimer := false;
        dataSender.UnregisterTransmission(constructed.uid);
      } else {
        ResetResendTimer();
      }
    }

    method CancelTransmission()
      modifies this`isCancelled, this`resendTimer
      ensures View() == Cancel(old(View()))
    {
      if IsStopped() { return; }
      isCancelled := true;
      resendTimer := false;
    }
  }

  class DataSender {
    var transmissionMap: map<UInt32, Transmission>
    var isDisposed: bool
    /** Every transmission ever registered; the finished ones stay reachable through their resend pass. */
    ghost var all: map<UInt32, Transmission>

    ghost predicate Valid()
      reads this, all.Values
    {
      && transmissionMap.Keys <= all.Keys
      && (forall u :: u in transmissionMap ==> transmissionMap[u] == all[u])
      && (forall u :: u in all ==> all[u].constructed.uid == u && all[u].dataSender == this)
    }

    ghost function Txs(): map<UInt32, Tx>
      reads this, all.Values
    {
      map u | u in all :: all[u].View()
    }

    ghost function View(): SenderState
      reads this, all.Values
    {
      SenderState(Txs(), transmissionMap.Keys, isDisposed)
    }

    /** Only the transmission of `uid` has changed, or it is new. */
    twostate lemma TxsChanged(uid: UInt32)
      requires uid in all && all.Keys == old(all.Keys) + {uid}
      requires forall u :: u in old(all) && u != uid ==> all[u] == old(all[u]) && unchanged(old(all[u]))
      ensures Txs() == old(Txs())[uid := all[uid].View()]
    {
      hide Transmission.View;
    }

    constructor ()
      ensures Valid() && View() == NO_TRANSMISSIONS
    {
      transmissionMap, isDisposed, all := map[], false, map[];
    }

    method UnregisterTransmission(uid: UInt32)
      modifies this`transmissionMap
      ensures transmissionMap == old(transmissionMap) - {uid}
    {
      transmissionMap := transmissionMap - {uid};
    }

    /** Returns whether the session emits `transmitted`. */
    method CollectDataAck(message: Message) returns (transmitted: bool)
      requires Valid()
      modifies this, all.Values
      ensures Valid() && all == old(all)
      ensures (View(), transmitted) == Ack(old(View()), message.uid, message.ack)
    {
      if isDisposed || message.uid !in transmissionMap { return false; }
      hide CollectAck;
      ghost var before := Txs();
      var transmission := transmissionMap[message.uid];
      assert before[message.uid] == transmission.View();
      transmitted := transmission.CollectDataAck(message);
      TxsChanged(message.uid);
    }

    method Add(transmission: Transmission)
      requires Valid() && transmission.dataSender == this
      modifies this`transmissionMap, this`all
      ensures Valid()
      ensures var uid := transmission.constructed.uid;
              && all == old(all)[uid := transmission] && transmissionMap == old(transmissionMap)[uid := transmission]
              && Txs() == old(Txs())[uid := transmission.View()]
    {
      transmissionMap := transmissionMap[transmission.constructed.uid := transmission];
      all := all[transmission.constructed.uid := transmission];
      TxsChanged(transmission.constructed.uid);
    }

    /** Runs the first transmission or the cancellation of one registered transmission. */
    method Start(uid: UInt32) returns (sent: seq<nat>)
      requires Valid() && uid in transmissionMap
      modifies all[uid]
      ensures Valid()
      ensures var out := Transmit(old(Txs())[uid]); sent == out.sent && Txs() == old(Txs())[uid := out.tx]
    {
      hide Transmit;
      sent := transmissionMap[uid].TransmitFirst();
      TxsChanged(uid);
    }

    method CancelOne(uid: UInt32)
      requires Valid() && uid in transmissionMap
      modifies all[uid]
      ensures Valid()
      ensures Txs() == old(Txs())[uid := Cancel(old(Txs())[uid])]
    {
      hide Cancel;
      transmissionMap[uid].CancelTransmission();
      TxsChanged(uid);
    }

    method RegisterNewTransmission(table: seq<bv32>, data: seq<Byte>, randomUid: UInt32)
      returns (uid: Option<UInt32>, sent: seq<nat>)
      requires Valid() && Crc.IsCrcTable(table) && |Chunks(data, MAX_PAYLOAD_SIZE)| < 0x1_0000_0000
      modifies this
      ensures Valid() && uid == if old(isDisposed) then None else Some(randomUid)
      ensures (View(), sent) == Register(old(View()), randomUid, PartDatagrams(randomUid, data))
    {
      if isDisposed { return None, []; }
      hide Crc.IsCrcTable, Construct, Transmit, NewTx, Txs, Transmission.View, Valid, Chunks, PayloadChunks;
      var buffers, total, drawn := ConstructBuffers(table, DataMessage(data), randomUid);
      ConstructUid(data, randomUid);
      var transmission := new Transmission(this, Constructed(buffers, total, drawn));
      sent := AddAndStart(transmission);
      uid := Some(drawn);
    }

    method AddAndStart(transmission: Transmission) returns (sent: seq<nat>)
      requires Valid() && transmission.dataSender == this
      modifies this`transmissionMap, this`all, transmission
      ensures Valid()
      ensures var uid := transmission.constructed.uid; var out := Transmit(old(transmission.View()));
              && sent == out.sent && transmissionMap.Keys == old(transmissionMap.Keys) + {uid}
              && (transmission !in old(all.Values) ==> Txs() == old(Txs())[uid := out.tx])
    {
      hide Transmit, Transmission.View;
      ghost var before, tx := Txs(), transmission.View();
      var uid := transmission.constructed.uid;
      Add(transmission);
      assert Txs()[uid] == tx;
      sent := Start(uid);
      PutTwice(before, uid, tx, Transmit(tx).tx);
    }

    /** Cancels one more of those registered. */
    method CancelNext(uid: UInt32, ghost before: map<UInt32, Tx>, ghost cancelled: set<UInt32>)
      requires Valid() && uid in transmissionMap && uid in before && uid !in cancelled
      requires Txs() == CancelIn(before, cancelled)
      modifies all[uid]
      ensures Valid() && Txs() == CancelIn(before, cancelled + {uid})
    {
      hide Cancel, CancelIn;
      CancelMore(before, cancelled, uid);
      CancelOne(uid);
    }

    method CancelAll()
      requires Valid()
      modifies all.Values
      ensures Valid() && Txs() == CancelIn(old(Txs()), transmissionMap.Keys)
    {
      ghost var before := Txs();
      assert before == CancelIn(before, {}) && transmissionMap.Keys <= before.Keys;
      hide Cancel, CancelIn, Txs;
      var pending := transmissionMap.Keys;
      while pending != {}
        invariant pending <= transmissionMap.Keys && Valid()
        invariant Txs() == CancelIn(before, transmissionMap.Keys - pending)
        decreases |pending|
      {
        var uid :| uid in pending;
        assert transmissionMap.Keys - (pending - {uid}) == transmissionMap.Keys - pending + {uid};
        CancelNext(uid, before, transmissionMap.Keys - pending);
        pending := pending - {uid};
      }
      assert transmissionMap.Keys - pending == transmissionMap.Keys;
    }

    method DisposeAll()
      requires Valid()
      modifies this, all.Values
      ensures Valid() && all == old(all)
      ensures View() == Dispose(old(View()))
    {
      if isDisposed { return; }
      CancelAll();
      isDisposed := true;
      transmissionMap := map[];
    }
  }

  lemma PutTwice(txs: map<UInt32, Tx>, u: UInt32, a: Tx, b: Tx)
    ensures txs[u := a][u := b] == txs[u := b]
  {}

  lemma CancelMore(txs: map<UInt32, Tx>, us: set<UInt32>, u: UInt32)
    requires u in txs && u !in us
    ensures CancelIn(txs, us)[u := Cancel(CancelIn(txs, us)[u])] == CancelIn(txs, us + {u})
  {}

  function DataMessage(data: seq<Byte>): Outgoing { Outgoing(DATA, None, None, None, Some(data)) }

  /** The datagrams of a payload sent under `uid`. */
  function PartDatagrams(uid: UInt32, data: seq<Byte>): seq<seq<Byte>>
    requires |Chunks(data, MAX_PAYLOAD_SIZE)| < 0x1_0000_0000
  {
    Construct(DataMessage(data), uid).buffers
  }

  lemma ConstructUid(data: seq<Byte>, uid: UInt32)
    requires |Chunks(data, MAX_PAYLOAD_SIZE)| < 0x1_0000_0000
    ensures Construct(DataMessage(data), uid).uid == uid
  {}

  // ---------- one transmission, whatever acks arrive ----------

  predicate AllBelow(acks: set<nat>, n: nat) { forall k :: 0 <= k < n ==> k in acks }

  /** What holds of a transmission between steps. */
  ghost predicate TxInv(t: Tx)
  {
    && AllBelow(t.acks, t.greatest + 1) && t.greatest + 1 !in t.acks
    && (t.fin ==> t.greatest + 1 == |t.buffers| && t.acks != {})
    && (|t.buffers| > 0 && t.greatest + 1 == |t.buffers| ==> t.fin)
    && (if Stopped(t) then !t.timer else t.timer || t.resending)
  }

  /**
   An ack, in any order and with repeats: the prefix number stays the largest g with all of 0..g acked and never
   falls, and the transmission finishes exactly when all its datagrams are acked and the number after them is not.
   */
  lemma AckMeaning(t: Tx, ack: nat)
    requires TxInv(t) && !Stopped(t)
    ensures var a := CollectAck(t, ack); var n := |t.buffers|;
            && TxInv(a) && a.acks == t.acks + {ack} && a.buffers == t.buffers
            && t.greatest <= a.greatest && (ack == t.greatest + 1 ==> t.greatest < a.greatest)
            && (a.fin <==> AllBelow(a.acks, n) && n !in a.acks)
  {
    var a := CollectAck(t, ack);
    assert forall k :: 0 <= k <= t.greatest ==> k in t.acks;
    assert AllBelow(a.acks, |t.buffers|) ==> a.greatest + 1 >= |t.buffers|;
    assert |t.buffers| !in a.acks ==> a.greatest + 1 <= |t.buffers|;
  }

  /** No acks beyond the last datagram have been seen. */
  predicate InRange(t: Tx) { forall k :: k in t.acks ==> k < |t.buffers| }

  lemma PrefixInRange(t: Tx)
    requires TxInv(t) && InRange(t)
    ensures t.greatest < |t.buffers|
    ensures t.fin || |t.buffers| == 0 || t.greatest + 1 < |t.buffers|
  {
    if t.greatest >= 0 { assert t.greatest in t.acks; }
  }

  /** Acks in range: finished means every datagram is acked, and nothing less. */
  lemma FinMeansAllAcked(t: Tx)
    requires TxInv(t) && InRange(t) && |t.buffers| > 0
    ensures t.fin <==> AllBelow(t.acks, |t.buffers|)
  {
    PrefixInRange(t);
    assert AllBelow(t.acks, |t.buffers|) ==> t.greatest + 1 >= |t.buffers|;
  }

  lemma SentInWindow(t: Tx, i: nat)
    requires TxInv(t)
    ensures i in TimerFires(t).sent || i in Resume(t).sent ==>
              i < |t.buffers| && i < t.greatest + SLIDING_WINDOW_SIZE && i !in t.acks
  {}

  lemma FirstWindow(buffers: seq<seq<Byte>>, i: nat)
    ensures i in Transmit(NewTx(buffers)).sent ==> i < |buffers| && i < SLIDING_WINDOW_SIZE
  {}

  /** The invariant still holds, and nothing but timer, resend loop and a cancellation has changed. */
  ghost predicate KeepsAcks(t: Tx, a: Tx)
  {
    TxInv(a) && a.buffers == t.buffers && a.acks == t.acks && a.greatest == t.greatest && a.fin == t.fin
    && (t.cancelled ==> a.cancelled)
  }

  lemma TimerStepsKeepInv(t: Tx)
    requires TxInv(t)
    ensures KeepsAcks(t, TimerFires(t).tx) && KeepsAcks(t, Resume(t).tx) && KeepsAcks(t, Cancel(t))
            && KeepsAcks(t, Transmit(t).tx)
  {}

  lemma NewTxInv(buffers: seq<seq<Byte>>)
    ensures TxInv(Transmit(NewTx(buffers)).tx)
  {}

  /** Every resend pass of a live transmission starts with the datagram after the acked prefix, which is unacked. */
  lemma ResendStartsAtGap(t: Tx)
    requires TxInv(t) && InRange(t) && |t.buffers| > 0 && !Stopped(t) && !t.resending
    ensures var out := TimerFires(t); out.sent == [t.greatest + 1] && out.tx.resending
    ensures t.greatest + 1 < |t.buffers| && t.greatest + 1 !in t.acks
  {
    PrefixInRange(t);
  }

  // ---------- progress of one transmission ----------

  datatype TxEvent = Acked(ack: nat) | TimerFired | PauseOver

  function TxStep(t: Tx, e: TxEvent): Tx
  {
    match e
    case Acked(ack) => CollectAck(t, ack)
    case TimerFired => if t.timer then TimerFires(t).tx else t
    case PauseOver => Resume(t).tx
  }

  function TxAfter(t: Tx, events: seq<TxEvent>): Tx
  {
    if events == [] then t else TxStep(TxAfter(t, events[..|events| - 1]), events[|events| - 1])
  }

  /** An ack for the number just after the last datagram has been seen, and the transmission goes on. */
  predicate Stalled(t: Tx) { !Stopped(t) && |t.buffers| in t.acks }

  lemma StepKeepsStalled(t: Tx, e: TxEvent)
    requires TxInv(t) && Stalled(t)
    ensures TxInv(TxStep(t, e)) && Stalled(TxStep(t, e))
  {
    hide CollectAck, TimerFires, Resume, TxInv;
    match e
    case Acked(ack) => AckMeaning(t, ack); AckNeverCancels(t, ack);
    case _ => TimerStepsKeepInv(t); TimerNeverCancels(t);
  }

  lemma {:induction false} StaysStalled(t: Tx, events: seq<TxEvent>)
    requires TxInv(t) && Stalled(t)
    ensures TxInv(TxAfter(t, events)) && Stalled(TxAfter(t, events))
  {
    hide TxStep, TxInv, Stalled;
    if events != [] {
      StaysStalled(t, events[..|events| - 1]);
      StepKeepsStalled(TxAfter(t, events[..|events| - 1]), events[|events| - 1]);
    }
  }

  /**
   A stray ack for the number just after the last datagram stalls a transmission for good: whatever acks follow, it
   never finishes. The program does not check the range of acks; that they are in range is a property of the receiver.
   */
  lemma StrayAckStalls(t: Tx, events: seq<TxEvent>)
    requires TxInv(t) && !Stopped(t)
    ensures !Stopped(TxAfter(CollectAck(t, |t.buffers|), events))
  {
    hide CollectAck, TxAfter, TxInv;
    AckMeaning(t, |t.buffers|);
    AckNeverCancels(t, |t.buffers|);
    StaysStalled(CollectAck(t, |t.buffers|), events);
  }

  /** How often the ack that arrived was the one for the datagram after the acked prefix. */
  function GapAcks(t: Tx, events: seq<TxEvent>): nat
  {
    if events == [] then 0
    else
      var before, e := TxAfter(t, events[..|events| - 1]), events[|events| - 1];
      GapAcks(t, events[..|events| - 1]) + if !Stopped(before) && e == Acked(before.greatest + 1) then 1 else 0
  }

  /**
   Progress: each ack of the gap datagram closes at least one gap, so a new transmission of `n` datagrams can get at
   most `n` of them, and with `n` of them it has finished, whatever else happened in between.
   */
  lemma {:induction false} GapAcksFinish(buffers: seq<seq<Byte>>, events: seq<TxEvent>)
    requires |buffers| > 0 && forall i :: 0 <= i < |events| ==> events[i].Acked? ==> events[i].ack < |buffers|
    ensures var t := TxAfter(Transmit(NewTx(buffers)).tx, events);
            var gaps := GapAcks(Transmit(NewTx(buffers)).tx, events);
            && TxInv(t) && InRange(t) && t.buffers == buffers && !t.cancelled
            && gaps <= t.greatest + 1 <= |buffers|
            && (gaps == |buffers| ==> t.fin)
  {
    var t0 := Transmit(NewTx(buffers)).tx;
    if events != [] {
      var prefix, e := events[..|events| - 1], events[|events| - 1];
      GapAcksFinish(buffers, prefix);
      var t := TxAfter(t0, prefix);
      if e.Acked? && !Stopped(t) { AckMeaning(t, e.ack); }
      if !e.Acked? { TimerStepsKeepInv(t); }
      PrefixInRange(TxAfter(t0, events));
    }
  }

  // ---------- whole runs of the sender, whatever acks arrive ----------

  datatype Event = Registers(uid: UInt32, buffers: seq<seq<Byte>>) | Acks(uid: UInt32, ack: nat) | Timer(uid: UInt32)
                 | Pause(uid: UInt32) | Disposes

  ghost predicate SenderInv(s: SenderState)
  {
    && s.registry <= s.txs.Keys
    && (forall u :: u in s.txs ==> TxInv(s.txs[u]) && (u in s.registry <==> !Stopped(s.txs[u])))
    && (s.disposed ==> s.registry == {})
  }

  /** The new state, and the uid whose `transmitted` is emitted. Random uids are taken to be distinct. */
  function Step(s: SenderState, e: Event): (SenderState, Option<UInt32>)
  {
    match e
    case Registers(uid, buffers) => if uid in s.txs then (s, None) else (Register(s, uid, buffers).0, None)
    case Acks(uid, ack) => var (after, emitted) := Ack(s, uid, ack); (after, if emitted then Some(uid) else None)
    case Timer(uid) =>
      (if uid in s.txs && s.txs[uid].timer then s.(txs := s.txs[uid := TimerFires(s.txs[uid]).tx]) else s, None)
    case Pause(uid) => (if uid in s.txs then s.(txs := s.txs[uid := Resume(s.txs[uid]).tx]) else s, None)
    case Disposes => (Dispose(s), None)
  }

  /**
   Every step keeps: the registry holds exactly the live transmissions, and the timer of each is armed or its pass
   runs.
   */
  lemma StepKeepsInv(s: SenderState, e: Event)
    requires SenderInv(s)
    ensures SenderInv(Step(s, e).0)
  {
    hide CollectAck, TimerFires, Resume, Transmit, Cancel;
    match e
    case Registers(uid, buffers) => NewTxInv(buffers); FirstWindowLive(buffers);
    case Acks(uid, ack) => if uid in s.registry { AckMeaning(s.txs[uid], ack); AckNeverCancels(s.txs[uid], ack); }
    case Timer(uid) => if uid in s.txs { TimerStepsKeepInv(s.txs[uid]); TimerNeverCancels(s.txs[uid]); }
    case Pause(uid) => if uid in s.txs { TimerStepsKeepInv(s.txs[uid]); TimerNeverCancels(s.txs[uid]); }
    case Disposes =>
      forall u | u in s.txs ensures TxInv(Cancel(s.txs[u])) && Stopped(Cancel(s.txs[u])) {
        TimerStepsKeepInv(s.txs[u]);
        CancelStops(s.txs[u]);
      }
  }

  lemma FirstWindowLive(buffers: seq<seq<Byte>>)
    ensures var t := Transmit(NewTx(buffers)).tx;
            !Stopped(t) && t.buffers == buffers && t.acks == {} && t.greatest == -1
  {}

  lemma AckNeverCancels(t: Tx, ack: nat)
    ensures CollectAck(t, ack).cancelled == t.cancelled
  {}

  lemma TimerNeverCancels(t: Tx)
    ensures TimerFires(t).tx.cancelled == t.cancelled && Resume(t).tx.cancelled == t.cancelled
  {}

  lemma CancelStops(t: Tx)
    ensures Stopped(Cancel(t))
  {}

  function After(events: seq<Event>): SenderState
  {
    if events == [] then NO_TRANSMISSIONS else Step(After(events[..|events| - 1]), events[|events| - 1]).0
  }

  /** In every reachable state. */
  lemma {:induction false} RunInv(events: seq<Event>)
    ensures SenderInv(After(events))
  {
    hide Step, TxInv;
    if events != [] {
      RunInv(events[..|events| - 1]);
      StepKeepsInv(After(events[..|events| - 1]), events[|events| - 1]);
    }
  }

  /** The transmission an event is about, and the numbers of the datagrams it sends. */
  function SentBy(s: SenderState, e: Event): (UInt32, seq<nat>)
  {
    match e
    case Registers(uid, buffers) => (uid, if uid in s.txs then [] else Register(s, uid, buffers).1)
    case Acks(uid, _) => (uid, [])
    case Timer(uid) => (uid, if uid in s.txs && s.txs[uid].timer then TimerFires(s.txs[uid]).sent else [])
    case Pause(uid) => (uid, if uid in s.txs then Resume(s.txs[uid]).sent else [])
    case Disposes => (0, [])
  }

  /** All that is ever sent, in any run: below the total, at most 20 beyond the acked prefix, and not acked yet. */
  lemma EverySendInWindow(events: seq<Event>, e: Event, i: nat)
    requires i in SentBy(After(events), e).1
    ensures var uid := SentBy(After(events), e).0; var txs := Step(After(events), e).0.txs;
            && uid in txs && i < |txs[uid].buffers| && i <= txs[uid].greatest + SLIDING_WINDOW_SIZE
            && i !in txs[uid].acks
  {
    hide After, TimerFires, Resume, Transmit;
    RunInv(events);
    var s := After(events);
    match e
    case Registers(uid, buffers) => FirstWindow(buffers, i); FirstWindowLive(buffers);
    case Acks(_, _) =>
    case Timer(uid) => SentInWindow(s.txs[uid], i); TimerStepsKeepInv(s.txs[uid]);
    case Pause(uid) => SentInWindow(s.txs[uid], i); TimerStepsKeepInv(s.txs[uid]);
    case Disposes =>
  }

  /** How often `transmitted` was emitted for `uid`. */
  function TransmittedCount(events: seq<Event>, uid: UInt32): nat
  {
    if events == [] then 0
    else
      TransmittedCount(events[..|events| - 1], uid)
      + if Step(After(events[..|events| - 1]), events[|events| - 1]).1 == Some(uid) then 1 else 0
  }

  /** `transmitted` is emitted once for a uid that has been acked, on its first ack, and never for any other. */
  lemma {:induction false} TransmittedOnFirstAck(events: seq<Event>, uid: UInt32)
    ensures TransmittedCount(events, uid)
         == if uid in After(events).txs && After(events).txs[uid].acks != {} then 1 else 0
  {
    if events != [] {
      var prefix, e := events[..|events| - 1], events[|events| - 1];
      TransmittedOnFirstAck(prefix, uid);
      RunInv(prefix);
      TransmittedStep(After(prefix), e, uid);
    }
  }

  predicate HasAck(s: SenderState, uid: UInt32) { uid in s.txs && s.txs[uid].acks != {} }

  lemma TransmittedStep(s: SenderState, e: Event, uid: UInt32)
    requires SenderInv(s)
    ensures var (after, emitted) := Step(s, e);
            if emitted == Some(uid) then !HasAck(s, uid) && HasAck(after, uid) else HasAck(s, uid) == HasAck(after, uid)
  {
    hide CollectAck, TimerFires, Resume, Transmit, Cancel;
    match e
    case Registers(_, buffers) => FirstWindowLive(buffers);
    case Acks(u, ack) => if u in s.registry { AckMeaning(s.txs[u], ack); }
    case Timer(u) => if u in s.txs { TimerStepsKeepInv(s.txs[u]); }
    case Pause(u) => if u in s.txs { TimerStepsKeepInv(s.txs[u]); }
    case Disposes => if uid in s.txs { TimerStepsKeepInv(s.txs[uid]); }
  }
}
