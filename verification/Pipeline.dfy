/**
 The whole path of a file: cut into chunk messages, each sent as datagrams over the unreliable network, reassembled
 by the receiver, and collected again into the file.

 `serialize` and `parse` stand for `JSON.stringify` and `JSON.parse`; all that is assumed of them is that parsing
 gives back the message and that no serialization is empty.
 */
module Pipeline {
  import opened BufferUtils
  import opened MessageBuffer
  import opened FileChunks
  import P = Protocol
  import R = Receiver

  /** Which chunk of which file a transmission carries. */
  datatype Part = Part(name: string, index: nat)

  ghost predicate IsPartOf(files: Catalog, part: Part)
    requires CatalogOk(files)
  {
    part.name in files && part.index < |PiecesOf(files[part.name])|
  }

  function MessageOf(files: Catalog, part: Part): PeerMessage
    requires CatalogOk(files) && IsPartOf(files, part)
  {
    var f := files[part.name];
    FileMessages(f.payload, part.name, f.chunkLength)[part.index]
  }

  /** Every payload given to the transport is a serialized chunk message of some file. */
  ghost predicate Carries(files: Catalog, carried: map<UInt32, Part>, serialize: PeerMessage -> seq<Byte>, s: P.Net)
    requires CatalogOk(files)
  {
    forall u :: u in s.payloads ==>
      u in carried && IsPartOf(files, carried[u]) && s.payloads[u] == serialize(MessageOf(files, carried[u]))
  }

  /** What a buffer handed over by the transport is to the file layer. */
  function FromWire(received: (UInt32, seq<Byte>), parse: seq<Byte> -> PeerMessage): Incoming
  {
    Decoded(parse(received.1))
  }

  /** The chunks that the file layer sees: the buffers handed over by the transport, parsed, in their order. */
  function Feed(received: seq<(UInt32, seq<Byte>)>, parse: seq<Byte> -> PeerMessage): (chunks: seq<Incoming>)
    ensures |chunks| == |received|
  {
    seq(|received|, i requires 0 <= i < |received| => FromWire(received[i], parse))
  }

  lemma GenuineMessage(files: Catalog, part: Part)
    requires CatalogOk(files) && IsPartOf(files, part)
    ensures Genuine(files, Decoded(MessageOf(files, part)))
    ensures var d := Decoded(MessageOf(files, part)); d.fileName == part.name && d.chunkNo == part.index + 1
  {
    hide Pieces, HexEncode, HexDecode;
    MessagesAreGenuine(files, part.name, part.index);
  }

  lemma HandedOver(s: P.Net, i: nat)
    requires P.Inv(s) && i < |s.received|
    ensures var (u, buffer) := s.received[i]; u in s.payloads && buffer == s.payloads[u] && P.Delivered(s, u)
  {}

  /** Each chunk fed to the file layer is the one its transmission carried. */
  lemma FedIsCarried(s: P.Net, files: Catalog, carried: map<UInt32, Part>,
                     serialize: PeerMessage -> seq<Byte>, parse: seq<Byte> -> PeerMessage, i: nat)
    requires CatalogOk(files) && forall m :: parse(serialize(m)) == m
    requires P.Inv(s) && Carries(files, carried, serialize, s) && i < |s.received|
    ensures var u := s.received[i].0; var chunk := FromWire(s.received[i], parse);
            && u in carried && IsPartOf(files, carried[u]) && P.Delivered(s, u) && Genuine(files, chunk)
            && chunk.fileName == carried[u].name && chunk.chunkNo == carried[u].index + 1
  {
    hide P.Inv, P.Delivered, Pieces, PiecesOf, Decoded, MessageOf, Genuine;
    HandedOver(s, i);
    var u := s.received[i].0;
    assert s.payloads[u] == serialize(MessageOf(files, carried[u]));
    assert parse(serialize(MessageOf(files, carried[u]))) == MessageOf(files, carried[u]);
    GenuineMessage(files, carried[u]);
  }

  lemma FeedIsGenuine(s: P.Net, files: Catalog, carried: map<UInt32, Part>,
                      serialize: PeerMessage -> seq<Byte>, parse: seq<Byte> -> PeerMessage)
    requires CatalogOk(files) && forall m :: parse(serialize(m)) == m
    requires P.Inv(s) && Carries(files, carried, serialize, s)
    ensures AllGenuine(files, Feed(s.received, parse))
  {
    hide P.Inv, P.Delivered, Genuine, Carries, IsPartOf, FromWire;
    var chunks := Feed(s.received, parse);
    forall i | 0 <= i < |chunks| ensures Genuine(files, chunks[i]) {
      FedIsCarried(s, files, carried, serialize, parse, i);
    }
  }

  /**
   Over every run, whatever the network does: each full message that is emitted is, byte for byte, the file of its
   name.
   */
  lemma EmittedIsTheFile(steps: seq<P.Step>, files: Catalog, carried: map<UInt32, Part>,
                         serialize: PeerMessage -> seq<Byte>, parse: seq<Byte> -> PeerMessage, n: nat)
    requires CatalogOk(files) && forall m :: parse(serialize(m)) == m
    requires Carries(files, carried, serialize, P.Reached(steps))
    requires var chunks := Feed(P.Reached(steps).received, parse); 0 < n <= |chunks| && EmittedLast(chunks[..n]).Some?
    ensures var chunks := Feed(P.Reached(steps).received, parse);
            chunks[n - 1].fileName in files && EmittedLast(chunks[..n]).value == files[chunks[n - 1].fileName].payload
  {
    hide P.Reached, P.Inv, EmittedLast, Carries, Pieces;
    P.ReachedInv(steps);
    FeedIsGenuine(P.Reached(steps), files, carried, serialize, parse);
    var chunks := Feed(P.Reached(steps).received, parse);
    hide Feed;
    var prefix := chunks[..n];
    assert Genuine(files, chunks[n - 1]);
    FullMessagesAreFiles(files, prefix);
  }

  /** The transport has handed over chunk `index` of a file. */
  ghost predicate ChunkDelivered(s: P.Net, carried: map<UInt32, Part>, name: string, index: int)
  {
    exists u :: u in carried && carried[u].name == name && carried[u].index == index && P.Delivered(s, u)
  }

  lemma DeliveredIffArrived(s: P.Net, files: Catalog, carried: map<UInt32, Part>,
                            serialize: PeerMessage -> seq<Byte>, parse: seq<Byte> -> PeerMessage, name: string, k: int)
    requires CatalogOk(files) && forall m :: parse(serialize(m)) == m
    requires P.Inv(s) && Carries(files, carried, serialize, s)
    ensures ChunkDelivered(s, carried, name, k - 1) <==> Arrived(Feed(s.received, parse), name, k)
  {
    hide P.Inv, Genuine, Carries, IsPartOf, FromWire;
    var chunks := Feed(s.received, parse);
    if i :| 0 <= i < |chunks| && chunks[i].fileName == name && chunks[i].chunkNo == k {
      FedIsCarried(s, files, carried, serialize, parse, i);
    }
    if u :| u in carried && carried[u].name == name && carried[u].index == k - 1 && P.Delivered(s, u) {
      var i :| 0 <= i < |s.received| && s.received[i] == (u, s.payloads[u]);
      FedIsCarried(s, files, carried, serialize, parse, i);
      assert chunks[i].fileName == name && chunks[i].chunkNo == k;
    }
  }

  /** Over every run: a file is emitted if and only if the transport has handed over every one of its chunks. */
  lemma EmittedIffChunksDelivered(steps: seq<P.Step>, files: Catalog, carried: map<UInt32, Part>,
                                  serialize: PeerMessage -> seq<Byte>, parse: seq<Byte> -> PeerMessage, name: string)
    requires CatalogOk(files) && name in files && forall m :: parse(serialize(m)) == m
    requires Carries(files, carried, serialize, P.Reached(steps))
    ensures Emitted(Feed(P.Reached(steps).received, parse), name)
       <==> forall index :: 0 <= index < |PiecesOf(files[name])| ==>
              ChunkDelivered(P.Reached(steps), carried, name, index)
  {
    hide P.Reached, P.Inv, Emitted, Pieces, Carries, ChunkDelivered, Arrived, Feed;
    var s := P.Reached(steps);
    P.ReachedInv(steps);
    var chunks := Feed(s.received, parse);
    var n := |PiecesOf(files[name])|;
    FeedIsGenuine(s, files, carried, serialize, parse);
    EmittedIffAllArrived(files, chunks, name);
    forall k | 1 <= k <= n ensures ChunkDelivered(s, carried, name, k - 1) <==> Arrived(chunks, name, k) {
      DeliveredIffArrived(s, files, carried, serialize, parse, name, k);
    }
    forall index | 0 <= index < n
      ensures ChunkDelivered(s, carried, name, index) <==> Arrived(chunks, name, index + 1)
    {
      DeliveredIffArrived(s, files, carried, serialize, parse, name, index + 1);
    }
  }

  /** The sender has finished with the message of `u`, and the receiver had no reason to lose it. */
  ghost predicate SafelyFinished(s: P.Net, u: UInt32)
  {
    u in s.payloads && u in s.sender.txs && s.sender.txs[u].fin && !P.Excused(s, u)
  }

  ghost predicate ChunkFinished(s: P.Net, carried: map<UInt32, Part>, name: string, index: nat)
  {
    exists u :: u in carried && carried[u] == Part(name, index) && SafelyFinished(s, u)
  }

  lemma FinishedChunkIsDelivered(s: P.Net, files: Catalog, carried: map<UInt32, Part>,
                                 serialize: PeerMessage -> seq<Byte>,
                                 name: string, index: nat)
    requires CatalogOk(files) && forall m :: serialize(m) != []
    requires P.Inv(s) && Carries(files, carried, serialize, s) && ChunkFinished(s, carried, name, index)
    ensures ChunkDelivered(s, carried, name, index)
  {
    hide P.Inv, P.Delivered, Pieces, MessageOf, P.Excused, IsPartOf;
    var u :| u in carried && carried[u] == Part(name, index) && SafelyFinished(s, u);
    assert s.payloads[u] == serialize(MessageOf(files, carried[u]));
    P.FinishedMeansDelivered(s, u);
  }

  /**
   From end to end: once the sender has finished every chunk of a file, none of them evicted or over 10 MiB when
   serialized, the file has been emitted; by `EmittedIsTheFile`, byte for byte.
   */
  lemma FinishedFileIsEmitted(steps: seq<P.Step>, files: Catalog, carried: map<UInt32, Part>,
                              serialize: PeerMessage -> seq<Byte>, parse: seq<Byte> -> PeerMessage, name: string)
    requires CatalogOk(files) && name in files && forall m :: parse(serialize(m)) == m && serialize(m) != []
    requires Carries(files, carried, serialize, P.Reached(steps))
    requires forall index :: 0 <= index < |PiecesOf(files[name])| ==>
             ChunkFinished(P.Reached(steps), carried, name, index)
    ensures Emitted(Feed(P.Reached(steps).received, parse), name)
  {
    hide P.Reached, P.Inv, Emitted, Pieces, Feed, ChunkFinished, ChunkDelivered, Carries;
    var s := P.Reached(steps);
    P.ReachedInv(steps);
    forall index | 0 <= index < |PiecesOf(files[name])| ensures ChunkDelivered(s, carried, name, index) {
      FinishedChunkIsDelivered(s, files, carried, serialize, name, index);
    }
    EmittedIffChunksDelivered(steps, files, carried, serialize, parse, name);
  }
}
