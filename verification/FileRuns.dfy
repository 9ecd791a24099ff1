/**
 Which files can be sent: exactly those all of whose chunk messages have a size that the transport delivers. Each chunk
 message is sent under a uid of its own, one after the other, each completed before the next.
 */
module FileRuns {
  import opened BufferUtils
  import opened MessageBuffer
  import opened FileChunks
  import opened Protocol
  import opened Completion
  import E = Eviction
  import L = Pipeline
  import R = Receiver
  import S = Sender

  // ---------- what has been delivered stays delivered ----------

  lemma StepKeepsDelivered(s: Net, step: Step, uid: UInt32)
    requires Inv(s) && Delivered(s, uid)
    ensures Delivered(Do(s, step), uid)
  {
    hide Inv, Decode, DoArrival;
    if step.DeliverData? {
      if step.datagram in s.toReceiver && Decode(step.datagram).Some? {
        ReceiptStays(s, Decode(step.datagram).value, step.now, uid);
      }
    } else if !step.Cleanup? && !step.Leave? {
      hide Do;
      E.Quiet(s, step);
    }
  }

  lemma {:induction false} RunKeepsDelivered(s: Net, steps: seq<Step>, uid: UInt32)
    requires Inv(s) && Delivered(s, uid)
    ensures Delivered(After(s, steps), uid)
  {
    hide Inv, Do, Delivered;
    if steps != [] {
      var before := steps[..|steps| - 1];
      RunKeepsDelivered(s, before, uid);
      AfterKeepsInv(s, before);
      StepKeepsDelivered(After(s, before), steps[|steps| - 1], uid);
    }
  }

  // ---------- one message after the other ----------

  /** The first `i` messages, and no others, have been sent under their numbers as uids, and delivered. */
  ghost predicate SentSoFar(s: Net, messages: seq<seq<Byte>>, i: nat)
  {
    && i <= |messages| && !s.sender.disposed
    && (forall u: UInt32 :: u in s.payloads <==> u < i)
    && (forall u: UInt32 :: u < i ==> s.payloads[u] == messages[u] && Delivered(s, u))
  }

  lemma SentIsLive(s: Net, uid: UInt32, payload: seq<Byte>)
    requires Inv(s) && !s.sender.disposed && uid !in s.payloads && 1 <= |payload| <= R.MAX_MESSAGE_SIZE_BYTES
    ensures var t := Do(s, Send(uid, payload));
            && uid in t.sender.registry && t.payloads == s.payloads[uid := payload] && !t.sender.disposed
            && t.evicted == s.evicted
  {
    hide Inv, Chunks, S.PartDatagrams, S.Transmit, Picked;
    PartsLimit(payload);
    assert s.sender.txs.Keys == s.payloads.Keys by { hide *; InvParts(s); SendersKnown(s); }
  }

  /** The next message is sent, finished, and so delivered. */
  lemma SendNext(before: seq<Step>, messages: seq<seq<Byte>>, i: nat) returns (steps: seq<Step>)
    requires InTime(before) && SentSoFar(Reached(before), messages, i) && i < |messages| <= 0x1_0000_0000
    requires 1 <= |messages[i]| <= R.MAX_MESSAGE_SIZE_BYTES
    ensures InTime(before + steps) && SentSoFar(Reached(before + steps), messages, i + 1)
  {
    hide Reached, After, Inv, Do, Chunks, InTime, Delivered;
    var s := Reached(before);
    ReachedInv(before);
    var uid: UInt32 := i;
    var send := Send(uid, messages[i]);
    assert uid !in s.evicted by { hide Delivered; NotEvicted(before, uid); }
    SentIsLive(s, uid, messages[i]);
    AfterOne(s, send);
    ReachedAppend(before, [send]);
    UnstampedInTime(before, send);
    var rest := CompletionStaysPossible(before + [send], uid);
    steps := [send] + rest;
    assert before + steps == before + [send] + rest;
    var t := Reached(before + steps);
    ReachedInv(before + steps);
    FinishedMeansDelivered(t, uid);
    ReachedAppend(before, steps);
    forall u: UInt32 | u < i ensures Delivered(t, u) { RunKeepsDelivered(s, steps, u); }
  }

  lemma NotEvicted(before: seq<Step>, uid: UInt32)
    requires uid !in Reached(before).payloads
    ensures uid !in Reached(before).evicted
  {
    hide Reached;
    E.RunKeepsSeveral(before);
  }

  lemma UnstampedInTime(steps: seq<Step>, step: Step)
    requires InTime(steps) && !Stamped(step)
    ensures InTime(steps + [step])
  {}

  lemma {:induction false} SendAll(messages: seq<seq<Byte>>, i: nat) returns (steps: seq<Step>)
    requires i <= |messages| <= 0x1_0000_0000
    requires forall k :: 0 <= k < |messages| ==> 1 <= |messages[k]| <= R.MAX_MESSAGE_SIZE_BYTES
    ensures InTime(steps) && SentSoFar(Reached(steps), messages, i)
  {
    hide Do, Inv;
    steps := [];
    if i > 0 {
      hide Reached, InTime, SentSoFar;
      var before := SendAll(messages, i - 1);
      var next := SendNext(before, messages, i - 1);
      steps := before + next;
    }
  }

  // ---------- files ----------

  /** The serialized chunk messages of a file, in order. */
  function Messages(files: Catalog, name: string, serialize: PeerMessage -> seq<Byte>): (messages: seq<seq<Byte>>)
    requires CatalogOk(files) && name in files
    ensures |messages| == |PiecesOf(files[name])|
  {
    var n := |PiecesOf(files[name])|;
    seq(n, i requires 0 <= i < n => serialize(L.MessageOf(files, L.Part(name, i))))
  }

  /** A run that carries chunk messages, among them all of the file, and emits it. */
  ghost predicate Emits(steps: seq<Step>, files: Catalog, carried: map<UInt32, L.Part>,
                        serialize: PeerMessage -> seq<Byte>, parse: seq<Byte> -> PeerMessage, name: string)
    requires CatalogOk(files)
  {
    L.Carries(files, carried, serialize, Reached(steps)) && Emitted(L.Feed(Reached(steps).received, parse), name)
  }

  lemma EmitsOnlySizes(steps: seq<Step>, files: Catalog, carried: map<UInt32, L.Part>,
                       serialize: PeerMessage -> seq<Byte>, parse: seq<Byte> -> PeerMessage, name: string, index: nat)
    requires CatalogOk(files) && name in files && (forall m :: parse(serialize(m)) == m)
    requires Emits(steps, files, carried, serialize, parse, name) && index < |PiecesOf(files[name])|
    ensures 1 <= |Messages(files, name, serialize)[index]| <= R.MAX_MESSAGE_SIZE_BYTES
  {
    hide Reached, Pieces, L.MessageOf, Emitted, L.Feed, L.ChunkDelivered;
    var s := Reached(steps);
    L.EmittedIffChunksDelivered(steps, files, carried, serialize, parse, name);
    assert L.ChunkDelivered(s, carried, name, index);
    var u := DeliveredUnder(s, carried, name, index);
    var i :| 0 <= i < |s.received| && s.received[i] == (u, s.payloads[u]);
    DeliveryIntegrity(steps, i);
    assert carried[u] == L.Part(name, index);
  }

  lemma DeliveredUnder(s: Net, carried: map<UInt32, L.Part>, name: string, index: nat) returns (u: UInt32)
    requires L.ChunkDelivered(s, carried, name, index)
    ensures u in carried && carried[u].name == name && carried[u].index == index && Delivered(s, u)
  {
    u :| u in carried && carried[u].name == name && carried[u].index == index && Delivered(s, u);
  }

  lemma EmittingRun(files: Catalog, serialize: PeerMessage -> seq<Byte>, parse: seq<Byte> -> PeerMessage, name: string)
    returns (steps: seq<Step>, carried: map<UInt32, L.Part>)
    requires CatalogOk(files) && name in files && (forall m :: parse(serialize(m)) == m)
    requires |PiecesOf(files[name])| <= 0x1_0000_0000
    requires var messages := Messages(files, name, serialize);
             forall k :: 0 <= k < |messages| ==> 1 <= |messages[k]| <= R.MAX_MESSAGE_SIZE_BYTES
    ensures InTime(steps) && Emits(steps, files, carried, serialize, parse, name)
  {
    hide Reached, InTime, Pieces, L.MessageOf, Emitted, L.Feed, Delivered;
    var messages := Messages(files, name, serialize);
    var n := |messages|;
    steps := SendAll(messages, n);
    var s := Reached(steps);
    carried := map u: UInt32 | u < n :: L.Part(name, u);
    assert L.Carries(files, carried, serialize, s);
    forall index | 0 <= index < n ensures L.ChunkDelivered(s, carried, name, index) {
      var u: UInt32 := index;
      assert u in carried && carried[u] == L.Part(name, index);
    }
    L.EmittedIffChunksDelivered(steps, files, carried, serialize, parse, name);
  }

  /**
   The exact threshold for files: a file can be emitted in some run if and only if each of its chunk messages has 1 byte
   to 10 MiB when serialized. As uids are not used twice here, files are taken to have at most 2^32 chunks.
   */
  lemma FileThreshold(files: Catalog, serialize: PeerMessage -> seq<Byte>, parse: seq<Byte> -> PeerMessage,
                      name: string)
    requires CatalogOk(files) && name in files && (forall m :: parse(serialize(m)) == m)
    requires |PiecesOf(files[name])| <= 0x1_0000_0000
    ensures (exists steps, carried :: InTime(steps) && Emits(steps, files, carried, serialize, parse, name))
       <==> forall index :: 0 <= index < |PiecesOf(files[name])| ==>
              1 <= |Messages(files, name, serialize)[index]| <= R.MAX_MESSAGE_SIZE_BYTES
  {
    hide InTime, Emits, Messages, Pieces;
    forall steps, carried, index: nat
      | Emits(steps, files, carried, serialize, parse, name) && index < |PiecesOf(files[name])|
      ensures 1 <= |Messages(files, name, serialize)[index]| <= R.MAX_MESSAGE_SIZE_BYTES
    {
      EmitsOnlySizes(steps, files, carried, serialize, parse, name, index);
    }
    var messages := Messages(files, name, serialize);
    if forall index :: 0 <= index < |messages| ==> 1 <= |messages[index]| <= R.MAX_MESSAGE_SIZE_BYTES {
      var steps, carried := EmittingRun(files, serialize, parse, name);
    }
  }
}
