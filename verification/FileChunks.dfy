/**
 The file layer: a payload is cut into numbered chunk messages, which the other side collects by file name
 (src/simple/simpleUtils.ts, src/simple/simplePeer/behaviors/connectedToPeer.ts), on the plaintext path.
 */
module FileChunks {
  import opened BufferUtils
  import opened MessageBuffer

  // ---------- hex: section 8 of RFC 4648 ----------

  const HEX_DIGITS: string := "0123456789abcdef"

  function HexValue(c: char): (v: int)
    ensures -1 <= v < 16
  {
    if '0' <= c <= '9' then c as int - '0' as int
    else if 'a' <= c <= 'f' then c as int - 'a' as int + 10
    else if 'A' <= c <= 'F' then c as int - 'A' as int + 10
    else -1
  }

  function HexEncode(bytes: seq<Byte>): string
  {
    if bytes == [] then "" else [HEX_DIGITS[bytes[0] / 16], HEX_DIGITS[bytes[0] % 16]] + HexEncode(bytes[1..])
  }

  /** Node's hex decoding: it stops at the first pair that is not two hex digits. */
  function HexDecode(s: string): seq<Byte>
  {
    if |s| < 2 || HexValue(s[0]) < 0 || HexValue(s[1]) < 0 then []
    else [16 * HexValue(s[0]) + HexValue(s[1])] + HexDecode(s[2..])
  }

  lemma DigitValue(n: nat)
    requires n < 16
    ensures HexValue(HEX_DIGITS[n]) == n
  {}

  /** Hex decoding inverts hex encoding. */
  lemma {:induction false} HexRoundTrip(bytes: seq<Byte>)
    ensures HexDecode(HexEncode(bytes)) == bytes
  {
    hide HexValue;
    if bytes != [] {
      DigitValue(bytes[0] / 16);
      DigitValue(bytes[0] % 16);
      HexRoundTrip(bytes[1..]);
      assert HexEncode(bytes)[2..] == HexEncode(bytes[1..]);
    }
  }

  // ---------- cutting a file ----------

  /** A chunk message; `JSON.stringify` and `JSON.parse` stand between it and bytes. */
  datatype PeerMessage = PeerMessage(fileName: string, payload: string, chunkNo: int, totalNo: int)

  /** The chunks of a file: at least one, which is empty for an empty file. */
  function Pieces(payload: seq<Byte>, chunkLength: nat): (pieces: seq<seq<Byte>>)
    requires chunkLength > 0
    ensures |pieces| > 0
  {
    if payload == [] then [[]] else Chunks(payload, chunkLength)
  }

  function FileMessages(payload: seq<Byte>, fileName: string, chunkLength: nat): seq<PeerMessage>
    requires chunkLength > 0
  {
    var pieces := Pieces(payload, chunkLength);
    seq(|pieces|, i requires 0 <= i < |pieces| => PeerMessage(fileName, HexEncode(pieces[i]), i + 1, |pieces|))
  }

  lemma ConcatPieces(payload: seq<Byte>, chunkLength: nat)
    requires chunkLength > 0
    ensures Concat(Pieces(payload, chunkLength)) == payload
  {
    ConcatChunks(payload, chunkLength);
    var one: seq<seq<Byte>> := [[]];
    assert one[..0] == [];
  }

  /** `i` chunk lengths. */
  function Offset(i: nat, chunkLength: nat): nat { if i == 0 then 0 else Offset(i - 1, chunkLength) + chunkLength }

  lemma {:induction false} OffsetIsProduct(i: nat, chunkLength: nat)
    ensures Offset(i, chunkLength) == i * chunkLength
  {
    if i > 0 {
      OffsetIsProduct(i - 1, chunkLength);
      assert (i - 1) * chunkLength + chunkLength == i * chunkLength;
    }
  }

  lemma PiecesTail(payload: seq<Byte>, chunkLength: nat)
    requires chunkLength > 0
    ensures if |payload| <= chunkLength then Pieces(payload, chunkLength) == [payload]
            else Pieces(payload, chunkLength) == [payload[..chunkLength]] + Pieces(payload[chunkLength..], chunkLength)
  {}

  lemma SliceOfDrop(s: seq<Byte>, d: nat, lo: nat, hi: nat)
    requires d + lo <= d + hi <= |s|
    ensures s[d..][lo..hi] == s[d + lo..d + hi]
  {}

  /** The piece with a given index, by the offsets the program computes. */
  lemma {:induction false} PieceAt(payload: seq<Byte>, chunkLength: nat, i: nat)
    requires chunkLength > 0 && i < |Pieces(payload, chunkLength)|
    ensures Offset(i, chunkLength) <= |payload|
    ensures Pieces(payload, chunkLength)[i]
            == payload[Offset(i, chunkLength)..Min(|payload|, Offset(i + 1, chunkLength))]
    decreases i
  {
    hide Pieces, Chunks;
    PiecesTail(payload, chunkLength);
    assert Offset(1, chunkLength) == chunkLength;
    assert payload[..|payload|] == payload;
    if i > 0 {
      var rest := payload[chunkLength..];
      PieceAt(rest, chunkLength, i - 1);
      SliceOfDrop(payload, chunkLength, Offset(i - 1, chunkLength), Min(|rest|, Offset(i, chunkLength)));
    }
  }

  /** `generated` is the name derived from the payload's hash, used when none is given. */
  method ChunkPeerToPeerMessages(payload: seq<Byte>, fileName: Option<string>, generated: string, chunkLength: nat)
    returns (name: string, out: seq<PeerMessage>)
    requires chunkLength > 0
    ensures name == if fileName.Some? then fileName.value else generated
    ensures out == FileMessages(payload, name, chunkLength)
  {
    name := if fileName.Some? then fileName.value else generated;
    var ceil := (|payload| + chunkLength - 1) / chunkLength;
    var totalNo := if ceil > 1 then ceil else 1;
    CeilCounts(payload, chunkLength);
    hide HexEncode, Pieces;
    out := [];
    var chunkNo := 1;
    while chunkNo <= totalNo
      invariant 1 <= chunkNo <= totalNo + 1
      invariant out == FileMessages(payload, name, chunkLength)[..chunkNo - 1]
    {
      var payloadChunk := Subarray(payload, chunkLength, chunkNo);
      out := out + [PeerMessage(name, HexEncode(payloadChunk), chunkNo, totalNo)];
      chunkNo := chunkNo + 1;
    }
  }

  method Subarray(payload: seq<Byte>, chunkLength: nat, chunkNo: nat) returns (chunk: seq<Byte>)
    requires chunkLength > 0 && 1 <= chunkNo <= |Pieces(payload, chunkLength)|
    ensures chunk == Pieces(payload, chunkLength)[chunkNo - 1]
  {
    hide Pieces;
    PieceAt(payload, chunkLength, chunkNo - 1);
    OffsetIsProduct(chunkNo - 1, chunkLength);
    OffsetIsProduct(chunkNo, chunkLength);
    var start := (chunkNo - 1) * chunkLength;
    var end := Min(|payload|, chunkNo * chunkLength);
    chunk := payload[start..end];
  }

  lemma CeilCounts(payload: seq<Byte>, chunkLength: nat)
    requires chunkLength > 0
    ensures var ceil := (|payload| + chunkLength - 1) / chunkLength;
            |Pieces(payload, chunkLength)| == if ceil > 1 then ceil else 1
  {
    ChunkCount(payload, chunkLength);
    if payload == [] { DivideSmall(chunkLength - 1, chunkLength); }
  }

  // ---------- collecting chunks ----------

  /** A received chunk with its payload decoded. */
  datatype Incoming = Incoming(fileName: string, payload: seq<Byte>, chunkNo: int, totalNo: int)

  type Inner = map<int, seq<Byte>>

  type ChunkCollector = map<string, Inner>

  function Decoded(m: PeerMessage): Incoming { Incoming(m.fileName, HexDecode(m.payload), m.chunkNo, m.totalNo) }

  lemma {:induction false} LeastExists(keys: set<int>)
    requires keys != {}
    ensures exists k :: k in keys && forall j :: j in keys ==> k <= j
    decreases |keys|
  {
    var x := AnyOf(keys);
    var rest := keys - {x};
    if rest == {} {
      assert keys == {x};
    } else {
      LeastExists(rest);
      var y :| y in rest && forall j :: j in rest ==> y <= j;
      var k := if x < y then x else y;
      assert keys == rest + {x};
      assert k in keys && forall j :: j in keys ==> k <= j;
    }
  }

  ghost function Least(keys: set<int>): (k: int)
    requires keys != {}
    ensures k in keys && forall j :: j in keys ==> k <= j
  {
    LeastExists(keys);
    var k :| k in keys && forall j :: j in keys ==> k <= j;
    k
  }

  /** The payloads of a chunk map in the order of their numbers. */
  ghost function SortedPayloads(m: Inner, keys: set<int>): seq<seq<Byte>>
    requires keys <= m.Keys
    decreases |keys|
  {
    if keys == {} then [] else [m[Least(keys)]] + SortedPayloads(m, keys - {Least(keys)})
  }

  /** The pieces held of a chunk's file once the chunk is added. */
  function Added(c: ChunkCollector, chunk: Incoming): Inner
  {
    (if chunk.fileName in c then c[chunk.fileName] else map[])[chunk.chunkNo := chunk.payload]
  }

  /** Adding a chunk: the collector after it, and the full message that is emitted, if any. */
  ghost function AddChunk(c: ChunkCollector, chunk: Incoming): (ChunkCollector, Option<seq<Byte>>)
  {
    var inner := Added(c, chunk);
    if |inner| != chunk.totalNo then (c[chunk.fileName := inner], None)
    else (c - {chunk.fileName}, Some(Concat(SortedPayloads(inner, inner.Keys))))
  }

  class ConnectedToPeer {
    var chunkCollector: ChunkCollector

    constructor ()
      ensures chunkCollector == map[]
    {
      chunkCollector := map[];
    }

    method AddToChunkCollector(chunk: Incoming) returns (full: Option<seq<Byte>>)
      modifies this
      ensures (chunkCollector, full) == AddChunk(old(chunkCollector), chunk)
    {
      var inner: Inner := if chunk.fileName in chunkCollector then chunkCollector[chunk.fileName] else map[];
      inner := inner[chunk.chunkNo := chunk.payload];
      chunkCollector := chunkCollector[chunk.fileName := inner];
      if |inner| != chunk.totalNo { return None; }
      var list := SortEntries(inner);
      chunkCollector := chunkCollector - {chunk.fileName};
      full := Some(Concat(list));
      assert old(chunkCollector)[chunk.fileName := inner] - {chunk.fileName} == old(chunkCollector) - {chunk.fileName};
    }
  }

  method SortEntries(m: Inner) returns (list: seq<seq<Byte>>)
    ensures list == SortedPayloads(m, m.Keys)
  {
    list := [];
    var keys := m.Keys;
    while keys != {}
      invariant keys <= m.Keys
      invariant list + SortedPayloads(m, keys) == SortedPayloads(m, m.Keys)
      decreases |keys|
    {
      LeastExists(keys);
      var k :| k in keys && forall j :: j in keys ==> k <= j;
      assert k == Least(keys);
      list := list + [m[k]];
      keys := keys - {k};
    }
  }

  // ---------- what collecting achieves ----------

  datatype File = File(payload: seq<Byte>, chunkLength: nat)

  type Catalog = map<string, File>

  ghost predicate CatalogOk(files: Catalog) { forall name :: name in files ==> files[name].chunkLength > 0 }

  function PiecesOf(f: File): (pieces: seq<seq<Byte>>)
    requires f.chunkLength > 0
    ensures |pieces| > 0
  {
    Pieces(f.payload, f.chunkLength)
  }

  /** The chunk is one that was cut from the file of its name. */
  ghost predicate Genuine(files: Catalog, chunk: Incoming)
    requires CatalogOk(files)
  {
    && chunk.fileName in files
    && var pieces := PiecesOf(files[chunk.fileName]);
       chunk.totalNo == |pieces| && 1 <= chunk.chunkNo <= chunk.totalNo && chunk.payload == pieces[chunk.chunkNo - 1]
  }

  /** Every message that is cut from a file is received as a genuine chunk. */
  lemma MessagesAreGenuine(files: Catalog, name: string, k: nat)
    requires CatalogOk(files) && name in files && k < |FileMessages(files[name].payload, name, files[name].chunkLength)|
    ensures Genuine(files, Decoded(FileMessages(files[name].payload, name, files[name].chunkLength)[k]))
  {
    hide HexEncode, HexDecode, Pieces;
    HexRoundTrip(PiecesOf(files[name])[k]);
  }

  ghost function Collected(chunks: seq<Incoming>): ChunkCollector
  {
    if chunks == [] then map[] else AddChunk(Collected(chunks[..|chunks| - 1]), chunks[|chunks| - 1]).0
  }

  /** The full message emitted with the last chunk, if any. */
  ghost function EmittedLast(chunks: seq<Incoming>): Option<seq<Byte>>
    requires chunks != []
  {
    AddChunk(Collected(chunks[..|chunks| - 1]), chunks[|chunks| - 1]).1
  }

  /** Whether a full message of the given name was emitted over a run. */
  ghost predicate Emitted(chunks: seq<Incoming>, name: string)
  {
    chunks != [] && (Emitted(chunks[..|chunks| - 1], name)
                     || (chunks[|chunks| - 1].fileName == name && EmittedLast(chunks).Some?))
  }

  /** The chunk numbers of a file that have arrived over a run. */
  function ArrivedNos(chunks: seq<Incoming>, name: string): (s: set<int>)
    ensures forall k ::
              k in s <==> exists i :: 0 <= i < |chunks| && chunks[i].fileName == name && chunks[i].chunkNo == k
  {
    if chunks == [] then {}
    else
      var prefix, last := chunks[..|chunks| - 1], chunks[|chunks| - 1];
      assert forall i :: 0 <= i < |prefix| ==> prefix[i] == chunks[i];
      ArrivedNos(prefix, name) + if last.fileName == name then {last.chunkNo} else {}
  }

  ghost predicate AllGenuine(files: Catalog, chunks: seq<Incoming>)
    requires CatalogOk(files)
  {
    forall i :: 0 <= i < |chunks| ==> Genuine(files, chunks[i])
  }

  function Interval(a: int, n: int): (s: set<int>)
    ensures forall k :: k in s <==> a <= k <= n
    ensures |s| == if a <= n then n - a + 1 else 0
    decreases n - a
  {
    if a > n then {} else {a} + Interval(a + 1, n)
  }

  lemma {:induction false} SortedInterval(m: Inner, pieces: seq<seq<Byte>>, a: int)
    requires 1 <= a <= |pieces| + 1 && Interval(a, |pieces|) <= m.Keys
    requires MadeOf(m, pieces)
    ensures SortedPayloads(m, Interval(a, |pieces|)) == pieces[a - 1..]
    decreases |pieces| - a
  {
    hide Interval;
    var keys := Interval(a, |pieces|);
    if a <= |pieces| {
      assert a in keys && Least(keys) == a;
      assert keys - {a} == Interval(a + 1, |pieces|);
      SortedInterval(m, pieces, a + 1);
      assert pieces[a - 1..] == [pieces[a - 1]] + pieces[a..];
    }
  }

  /** What the collector holds of one file: genuine pieces, at least one of them still missing. */
  ghost predicate InnerOk(inner: Inner, pieces: seq<seq<Byte>>)
  {
    |inner| < |pieces| && MadeOf(inner, pieces)
  }

  ghost predicate MadeOf(inner: Inner, pieces: seq<seq<Byte>>)
  {
    forall k :: k in inner ==> 1 <= k <= |pieces| && inner[k] == pieces[k - 1]
  }

  ghost predicate CollectorOk(files: Catalog, c: ChunkCollector)
    requires CatalogOk(files)
  {
    forall name :: name in c ==> name in files && InnerOk(c[name], PiecesOf(files[name]))
  }

  /** A chunk map with genuine pieces is complete exactly when it has every number, and then spells the file. */
  lemma InnerComplete(inner: Inner, pieces: seq<seq<Byte>>)
    requires MadeOf(inner, pieces)
    ensures |inner| <= |pieces|
    ensures |inner| == |pieces| <==> inner.Keys == Interval(1, |pieces|)
    ensures |inner| == |pieces| ==> SortedPayloads(inner, inner.Keys) == pieces
  {
    hide Interval, SortedPayloads;
    var all := Interval(1, |pieces|);
    assert |inner.Keys| == |inner|;
    SubsetCount(inner.Keys, all);
    if |inner| == |pieces| {
      SortedInterval(inner, pieces, 1);
    }
  }

  lemma AddPiece(inner: Inner, pieces: seq<seq<Byte>>, k: int)
    requires 1 <= k <= |pieces| && MadeOf(inner, pieces)
    ensures var more := inner[k := pieces[k - 1]]; MadeOf(more, pieces) && more.Keys == inner.Keys + {k}
  {}

  lemma AddedPieces(files: Catalog, c: ChunkCollector, chunk: Incoming)
    requires CatalogOk(files) && CollectorOk(files, c) && Genuine(files, chunk)
    ensures var inner := Added(c, chunk); var pieces := PiecesOf(files[chunk.fileName]);
            && inner.Keys == Held(c, chunk.fileName) + {chunk.chunkNo}
            && (|inner| == |pieces| <==> inner.Keys == Interval(1, |pieces|))
            && (|inner| == |pieces| ==> Concat(SortedPayloads(inner, inner.Keys)) == files[chunk.fileName].payload)
            && (|inner| != |pieces| ==> InnerOk(inner, pieces))
  {
    hide Pieces, Interval, SortedPayloads, Concat, MadeOf;
    var f := files[chunk.fileName];
    ConcatPieces(f.payload, f.chunkLength);
    var inner := if chunk.fileName in c then c[chunk.fileName] else map[];
    assert MadeOf(inner, PiecesOf(f)) by { NothingMade(PiecesOf(f)); }
    AddPiece(inner, PiecesOf(f), chunk.chunkNo);
    InnerComplete(Added(c, chunk), PiecesOf(f));
  }

  lemma NothingMade(pieces: seq<seq<Byte>>)
    ensures MadeOf(map[], pieces)
  {}

  lemma AddKeepsOk(files: Catalog, c: ChunkCollector, chunk: Incoming)
    requires CatalogOk(files) && CollectorOk(files, c) && Genuine(files, chunk)
    ensures CollectorOk(files, AddChunk(c, chunk).0)
  {
    hide Pieces, Interval, SortedPayloads, Concat, InnerOk, Added, Held;
    AddedPieces(files, c, chunk);
  }

  /** One genuine chunk: the file is emitted when the last missing chunk comes in; other files are untouched. */
  lemma AddGenuine(files: Catalog, c: ChunkCollector, chunk: Incoming)
    requires CatalogOk(files) && CollectorOk(files, c) && Genuine(files, chunk)
    ensures var (after, full) := AddChunk(c, chunk);
            && (full.Some? ==> full.value == files[chunk.fileName].payload)
            && (full.Some? <==> Held(c, chunk.fileName) + {chunk.chunkNo} == Interval(1, chunk.totalNo))
            && (forall name :: Held(after, name) == if name != chunk.fileName then Held(c, name)
                                                    else if full.Some? then {} else Held(c, name) + {chunk.chunkNo})
  {
    hide Pieces, Interval, SortedPayloads, Concat, InnerOk, Added, CollectorOk;
    AddedPieces(files, c, chunk);
  }

  /** The chunk numbers held of one file. */
  function Held(c: ChunkCollector, name: string): set<int> { if name in c then c[name].Keys else {} }

  lemma {:induction false} CollectedOk(files: Catalog, chunks: seq<Incoming>)
    requires CatalogOk(files) && AllGenuine(files, chunks)
    ensures CollectorOk(files, Collected(chunks))
  {
    hide AddChunk, Genuine, CollectorOk;
    if chunks == [] {
      NothingHeld(files);
    } else {
      CollectedOk(files, chunks[..|chunks| - 1]);
      AddKeepsOk(files, Collected(chunks[..|chunks| - 1]), chunks[|chunks| - 1]);
    }
  }

  lemma NothingHeld(files: Catalog)
    requires CatalogOk(files)
    ensures CollectorOk(files, map[])
  {}

  /** Every full message is the file of its name, for any order, with repeats and other files interleaved. */
  lemma FullMessagesAreFiles(files: Catalog, chunks: seq<Incoming>)
    requires CatalogOk(files) && AllGenuine(files, chunks) && chunks != [] && EmittedLast(chunks).Some?
    ensures EmittedLast(chunks).value == files[chunks[|chunks| - 1].fileName].payload
  {
    hide AddChunk, CollectorOk, Pieces;
    CollectedOk(files, chunks[..|chunks| - 1]);
    AddGenuine(files, Collected(chunks[..|chunks| - 1]), chunks[|chunks| - 1]);
  }

  /** Until a file is first emitted, the collector holds exactly the chunks of it that have arrived. */
  lemma {:induction false} HeldIsArrived(files: Catalog, chunks: seq<Incoming>, name: string)
    requires CatalogOk(files) && AllGenuine(files, chunks) && name in files
    ensures if Emitted(chunks, name) then Interval(1, |PiecesOf(files[name])|) <= ArrivedNos(chunks, name)
            else Held(Collected(chunks), name) == ArrivedNos(chunks, name)
  {
    hide AddChunk, Pieces, CollectorOk, Held, EmittedLast, Interval;
    if chunks == [] {
      NoneHeld(name);
    } else {
      var prefix, last := chunks[..|chunks| - 1], chunks[|chunks| - 1];
      HeldIsArrived(files, prefix, name);
      CollectedOk(files, prefix);
      AddGenuine(files, Collected(prefix), last);
      EmittedLastIs(chunks);
    }
  }

  lemma NoneHeld(name: string)
    ensures Held(Collected([]), name) == {}
  {}

  lemma EmittedLastIs(chunks: seq<Incoming>)
    requires chunks != []
    ensures EmittedLast(chunks) == AddChunk(Collected(chunks[..|chunks| - 1]), chunks[|chunks| - 1]).1
  {}

  ghost predicate Arrived(chunks: seq<Incoming>, name: string, k: int)
  {
    exists i :: 0 <= i < |chunks| && chunks[i].fileName == name && chunks[i].chunkNo == k
  }

  /** A file is emitted once every one of its chunks has arrived, and not before. */
  lemma EmittedIffAllArrived(files: Catalog, chunks: seq<Incoming>, name: string)
    requires CatalogOk(files) && AllGenuine(files, chunks) && name in files
    ensures Emitted(chunks, name) <==> forall k :: 1 <= k <= |PiecesOf(files[name])| ==> Arrived(chunks, name, k)
  {
    hide AddChunk, Pieces, Emitted, Collected, Interval;
    var n := |PiecesOf(files[name])|;
    HeldIsArrived(files, chunks, name);
    CollectedOk(files, chunks);
    if Interval(1, n) <= ArrivedNos(chunks, name) && !Emitted(chunks, name) {
      NeverAllHeld(files, Collected(chunks), name);
    }
    assert forall k :: k in ArrivedNos(chunks, name) <==> Arrived(chunks, name, k);
    hide Arrived, ArrivedNos;
    assert Interval(1, n) <= ArrivedNos(chunks, name) <==> forall k :: k in Interval(1, n) ==> Arrived(chunks, name, k);
  }

  lemma NeverAllHeld(files: Catalog, c: ChunkCollector, name: string)
    requires CatalogOk(files) && CollectorOk(files, c) && name in files
    ensures !(Interval(1, |PiecesOf(files[name])|) <= Held(c, name))
  {
    hide Pieces, Interval;
    var n := |PiecesOf(files[name])|;
    if name in c {
      InnerComplete(c[name], PiecesOf(files[name]));
    } else {
      assert 1 in Interval(1, n);
    }
  }

  // ---------- how often a file is emitted ----------

  /** How often a full message of the given name was emitted over a run. */
  ghost function EmittedCount(chunks: seq<Incoming>, name: string): nat
  {
    if chunks == [] then 0
    else
      EmittedCount(chunks[..|chunks| - 1], name)
      + if chunks[|chunks| - 1].fileName == name && EmittedLast(chunks).Some? then 1 else 0
  }

  /** How often chunk `k` of the given name arrived over a run. */
  function ArrivedCount(chunks: seq<Incoming>, name: string, k: int): nat
  {
    if chunks == [] then 0
    else
      ArrivedCount(chunks[..|chunks| - 1], name, k)
      + if chunks[|chunks| - 1].fileName == name && chunks[|chunks| - 1].chunkNo == k then 1 else 0
  }

  lemma {:induction false} EmittedCounts(chunks: seq<Incoming>, name: string)
    ensures EmittedCount(chunks, name) > 0 <==> Emitted(chunks, name)
  {
    hide EmittedLast;
    if chunks != [] { EmittedCounts(chunks[..|chunks| - 1], name); }
  }

  /** One genuine chunk: an emission uses up a copy of every chunk of its file. */
  lemma EmissionIsPaidFor(files: Catalog, c: ChunkCollector, chunk: Incoming, name: string, k: int)
    requires CatalogOk(files) && CollectorOk(files, c) && Genuine(files, chunk) && name in files
    requires 1 <= k <= |PiecesOf(files[name])|
    ensures var (after, full) := AddChunk(c, chunk);
            (if chunk.fileName == name && full.Some? then 1 else 0) + (if k in Held(after, name) then 1 else 0)
            <= (if k in Held(c, name) then 1 else 0) + (if chunk.fileName == name && chunk.chunkNo == k then 1 else 0)
  {
    hide AddChunk, CollectorOk, Held, Interval, Pieces;
    AddGenuine(files, c, chunk);
    assert k in Interval(1, |PiecesOf(files[name])|);
  }

  /** A file is emitted at most as often as any one of its chunks arrives. */
  lemma {:induction false} EmittedAtMostAsArrived(files: Catalog, chunks: seq<Incoming>, name: string, k: int)
    requires CatalogOk(files) && AllGenuine(files, chunks) && name in files && 1 <= k <= |PiecesOf(files[name])|
    ensures EmittedCount(chunks, name) + (if k in Held(Collected(chunks), name) then 1 else 0)
         <= ArrivedCount(chunks, name, k)
  {
    hide AddChunk, CollectorOk, Held, Genuine, Pieces;
    if chunks == [] {
      NoneHeld(name);
    } else {
      var prefix, last := chunks[..|chunks| - 1], chunks[|chunks| - 1];
      EmittedAtMostAsArrived(files, prefix, name, k);
      CollectedOk(files, prefix);
      EmissionIsPaidFor(files, Collected(prefix), last, name, k);
    }
  }

  /** The chunks of a file in order. */
  function Round(files: Catalog, name: string): (chunks: seq<Incoming>)
    requires CatalogOk(files) && name in files
    ensures |chunks| == |PiecesOf(files[name])|
  {
    var pieces := PiecesOf(files[name]);
    seq(|pieces|, i requires 0 <= i < |pieces| => Incoming(name, pieces[i], i + 1, |pieces|))
  }

  lemma RoundChunk(files: Catalog, name: string, j: nat)
    requires CatalogOk(files) && name in files && j < |Round(files, name)|
    ensures var chunk := Round(files, name)[j];
            Genuine(files, chunk) && chunk.fileName == name && chunk.chunkNo == j + 1
            && chunk.totalNo == |Round(files, name)|
  {
    hide Pieces;
  }

  lemma NextOfRound(files: Catalog, c: ChunkCollector, chunk: Incoming, j: int)
    requires CatalogOk(files) && CollectorOk(files, c) && Genuine(files, chunk)
    requires 1 <= j == chunk.chunkNo <= chunk.totalNo && Held(c, chunk.fileName) == Interval(1, j - 1)
    ensures var (after, full) := AddChunk(c, chunk);
            && (full.Some? <==> j == chunk.totalNo)
            && Held(after, chunk.fileName) == if j == chunk.totalNo then {} else Interval(1, j)
  {
    hide AddChunk, CollectorOk, Held, Genuine, Pieces, Interval;
    AddGenuine(files, c, chunk);
    var n := chunk.totalNo;
    assert Interval(1, j - 1) + {j} == Interval(1, j);
    if j < n { assert n in Interval(1, n) && n !in Interval(1, j); }
  }

  lemma OneMoreGenuine(files: Catalog, prefix: seq<Incoming>, last: Incoming)
    requires CatalogOk(files) && AllGenuine(files, prefix) && Genuine(files, last)
    ensures AllGenuine(files, prefix + [last])
  {
    hide Genuine;
  }

  /** The first `j` chunks of another round. */
  lemma {:induction false} AnotherRound(files: Catalog, before: seq<Incoming>, name: string, j: nat, k: int)
    requires CatalogOk(files) && AllGenuine(files, before) && name in files && j <= |Round(files, name)|
    requires Held(Collected(before), name) == {}
    ensures var chunks := before + Round(files, name)[..j]; var n := |Round(files, name)|;
            && AllGenuine(files, chunks)
            && Held(Collected(chunks), name) == (if j == n then {} else Interval(1, j))
            && EmittedCount(chunks, name) == EmittedCount(before, name) + (if j == n then 1 else 0)
            && ArrivedCount(chunks, name, k) == ArrivedCount(before, name, k) + (if 1 <= k <= j then 1 else 0)
  {
    hide AddChunk, CollectorOk, Held, Genuine, Pieces, Collected, EmittedCount, ArrivedCount, Round, AllGenuine,
      Interval;
    var chunks := before + Round(files, name)[..j];
    if j == 0 {
      assert chunks == before;
    } else {
      AnotherRound(files, before, name, j - 1, k);
      var prefix, last := before + Round(files, name)[..j - 1], Round(files, name)[j - 1];
      assert chunks == prefix + [last];
      RoundChunk(files, name, j - 1);
      CollectedOk(files, prefix);
      NextOfRound(files, Collected(prefix), last, j);
      OneMore(prefix, last, name, k);
      OneMoreGenuine(files, prefix, last);
    }
  }

  lemma OneMore(prefix: seq<Incoming>, last: Incoming, name: string, k: int)
    ensures var chunks := prefix + [last]; var (after, full) := AddChunk(Collected(prefix), last);
            && Collected(chunks) == after
            && EmittedCount(chunks, name)
               == EmittedCount(prefix, name) + (if last.fileName == name && full.Some? then 1 else 0)
            && ArrivedCount(chunks, name, k)
               == ArrivedCount(prefix, name, k) + (if last.fileName == name && last.chunkNo == k then 1 else 0)
  {
    hide AddChunk;
    assert (prefix + [last])[..|prefix|] == prefix;
  }

  /** The bound is attained for every file and every number of emissions, at all of its chunks at once. */
  lemma {:induction false} EmissionBoundIsAttained(files: Catalog, name: string, n: nat) returns (chunks: seq<Incoming>)
    requires CatalogOk(files) && name in files
    ensures AllGenuine(files, chunks) && Held(Collected(chunks), name) == {} && EmittedCount(chunks, name) == n
    ensures forall k :: 1 <= k <= |PiecesOf(files[name])| ==> ArrivedCount(chunks, name, k) == n
    decreases n
  {
    hide Collected, EmittedCount, ArrivedCount, Pieces, Genuine, Held, Round;
    if n == 0 {
      chunks := [];
      assert EmittedCount([], name) == 0 by { hide *; NothingEmitted(name); }
      NoneHeld(name);
      assert forall k :: ArrivedCount([], name, k) == 0 by { hide *; NothingEmitted(name); }
    } else {
      var before := EmissionBoundIsAttained(files, name, n - 1);
      var round := Round(files, name);
      chunks := before + round;
      assert round[..|round|] == round;
      AnotherRound(files, before, name, |round|, 1);
      forall k | 1 <= k <= |PiecesOf(files[name])| ensures ArrivedCount(chunks, name, k) == n {
        AnotherRound(files, before, name, |round|, k);
      }
    }
  }

  lemma NothingEmitted(name: string)
    ensures EmittedCount([], name) == 0 && forall k :: ArrivedCount([], name, k) == 0
  {}

  // ---------- any chunk whatever ----------

  predicate Ascending(nos: seq<int>) { forall i, j :: 0 <= i < j < |nos| ==> nos[i] < nos[j] }

  /** The numbers are exactly those of `keys`, in ascending order. */
  ghost predicate Lists(nos: seq<int>, keys: set<int>) { Ascending(nos) && forall k :: k in nos <==> k in keys }

  function PayloadsOf(m: Inner, nos: seq<int>): seq<seq<Byte>>
    requires forall i :: 0 <= i < |nos| ==> nos[i] in m
  {
    seq(|nos|, i requires 0 <= i < |nos| => m[nos[i]])
  }

  lemma {:induction false} SortedIsAscending(m: Inner, keys: set<int>, nos: seq<int>)
    requires keys <= m.Keys && Lists(nos, keys)
    ensures (forall i :: 0 <= i < |nos| ==> nos[i] in m) && SortedPayloads(m, keys) == PayloadsOf(m, nos)
    decreases |keys|
  {
    assert forall i :: 0 <= i < |nos| ==> nos[i] in nos;
    if nos == [] {
      NoKeys(keys);
    } else {
      var rest := nos[1..];
      LeastIsFirst(keys, nos);
      assert PayloadsOf(m, nos) == [m[nos[0]]] + PayloadsOf(m, rest);
      SortedIsAscending(m, keys - {nos[0]}, rest);
    }
  }

  lemma NoKeys(keys: set<int>)
    requires Lists([], keys)
    ensures keys == {}
  {
    var none: seq<int> := [];
    forall k ensures k !in keys { assert k in none <==> k in keys; }
  }

  lemma LeastIsFirst(keys: set<int>, nos: seq<int>)
    requires nos != [] && Lists(nos, keys)
    ensures nos[0] in keys && Least(keys) == nos[0] && Lists(nos[1..], keys - {nos[0]})
  {
    assert nos[0] in nos;
    forall k | k in keys ensures nos[0] <= k {
      var i :| 0 <= i < |nos| && nos[i] == k;
    }
    forall k ensures k in nos[1..] <==> k in keys - {nos[0]} {
      if k in keys && k != nos[0] {
        var i :| 0 <= i < |nos| && nos[i] == k;
        assert nos[1..][i - 1] == k;
      }
    }
  }

  /**
   What any chunk does, genuine or not: it is kept under its number, in the place of one with the same number; once as
   many numbers are held as it says there are,
     the payloads are emitted in ascending order of their numbers and forgotten.
   */
  lemma AddExact(c: ChunkCollector, chunk: Incoming, nos: seq<int>)
    requires Lists(nos, Held(c, chunk.fileName) + {chunk.chunkNo})
    ensures var held: Inner := if chunk.fileName in c then c[chunk.fileName] else map[];
            var more, (after, full) := held[chunk.chunkNo := chunk.payload], AddChunk(c, chunk);
            && after - {chunk.fileName} == c - {chunk.fileName}
            && (forall i :: 0 <= i < |nos| ==> nos[i] in more)
            && (full.Some? <==> |nos| == chunk.totalNo)
            && (full.Some? <==> chunk.fileName !in after)
            && (full.None? ==> after[chunk.fileName] == more)
            && (full.Some? ==> full.value == Concat(PayloadsOf(more, nos)))
  {
    hide SortedPayloads, Concat, Ascending, PayloadsOf;
    var inner := Added(c, chunk);
    assert inner.Keys == Held(c, chunk.fileName) + {chunk.chunkNo};
    hide Lists;
    SortedIsAscending(inner, inner.Keys, nos);
    ListSize(nos, inner.Keys);
    assert |inner.Keys| == |inner|;
  }

  lemma {:induction false} ListSize(nos: seq<int>, keys: set<int>)
    requires Lists(nos, keys)
    ensures |nos| == |keys|
    decreases |nos|
  {
    if nos == [] {
      NoKeys(keys);
    } else {
      LeastIsFirst(keys, nos);
      ListSize(nos[1..], keys - {nos[0]});
    }
  }

  /** Hex digits are lower-case, the high half of a byte first. */
  lemma {:induction false} HexIsLowerCase(bytes: seq<Byte>, i: nat)
    requires i < |bytes|
    ensures |HexEncode(bytes)| == 2 * |bytes|
    ensures var high, low := HexEncode(bytes)[2 * i], HexEncode(bytes)[2 * i + 1];
            && high == "0123456789abcdef"[bytes[i] / 16] && low == "0123456789abcdef"[bytes[i] % 16]
  {
    HexLength(bytes);
    if i > 0 {
      HexLength(bytes[1..]);
      HexIsLowerCase(bytes[1..], i - 1);
      assert HexEncode(bytes)[2..] == HexEncode(bytes[1..]);
    }
  }

  lemma {:induction false} HexLength(bytes: seq<Byte>)
    ensures |HexEncode(bytes)| == 2 * |bytes|
  {
    if bytes != [] { HexLength(bytes[1..]); }
  }
}
