/** Bytes, and the cutting of a buffer into chunks (src/utils/bufferUtils.ts). */
module BufferUtils {

  type Byte = n: int | 0 <= n < 256

  // ---------- chunking ----------

  /** The consecutive pieces of `buffer`, `size` bytes each but for a shorter last one. */
  function Chunks(buffer: seq<Byte>, size: nat): (chunks: seq<seq<Byte>>)
    requires size > 0
    ensures forall k :: 0 <= k < |chunks| ==> 0 < |chunks[k]| <= size
    ensures chunks == [] <==> buffer == []
    decreases |buffer|
  {
    if |buffer| == 0 then []
    else if |buffer| <= size then [buffer]
    else [buffer[..size]] + Chunks(buffer[size..], size)
  }

  /** There are as many chunks as the length divided by the size, rounded up. */
  lemma {:induction false} ChunkCount(buffer: seq<Byte>, size: nat)
    requires size > 0
    ensures |Chunks(buffer, size)| == (|buffer| + size - 1) / size
    decreases |buffer|
  {
    if |buffer| == 0 {
      DivideSmall(size - 1, size);
    } else {
      DivideStep(|buffer| - 1, size);
      if |buffer| <= size {
        DivideSmall(|buffer| - 1, size);
      } else {
        ChunkCount(buffer[size..], size);
      }
    }
  }

  lemma DivideSmall(n: nat, size: nat)
    requires n < size
    ensures n / size == 0
  {}

  lemma DivideStep(n: nat, size: nat)
    requires size > 0
    ensures (n + size) / size == n / size + 1
  {
    var p, q := (n + size) / size, n / size;
    assert n + size == p * size + (n + size) % size && n == q * size + n % size;
    assert (q + 1) * size == q * size + size;
    if p > q + 1 { Exceeds(p, q + 1, size); }
    if p < q + 1 { Exceeds(q + 1, p, size); }
  }

  lemma Exceeds(p: int, q: int, size: nat)
    requires p > q
    ensures p * size >= q * size + size
  {
    assert (p - q - 1) * size >= 0;
  }

  lemma SubsetCount<T>(a: set<T>, b: set<T>)
    requires a <= b
    ensures |a| <= |b|
    ensures |a| == |b| ==> a == b
  {
    assert b == a + (b - a);
    if |a| == |b| { assert |b - a| == 0; }
  }

  ghost function AnyOf<T>(s: set<T>): (x: T)
    requires s != {}
    ensures x in s
  {
    var x :| x in s;
    x
  }

  /** All parts laid end to end. */
  function Concat(parts: seq<seq<Byte>>): seq<Byte>
  {
    if parts == [] then [] else Concat(parts[..|parts| - 1]) + parts[|parts| - 1]
  }

  lemma {:induction false} ConcatCons(head: seq<Byte>, tail: seq<seq<Byte>>)
    ensures Concat([head] + tail) == head + Concat(tail)
  {
    var all := [head] + tail;
    if tail == [] {
      assert all[..0] == [];
    } else {
      ConcatCons(head, tail[..|tail| - 1]);
      assert all[..|all| - 1] == [head] + tail[..|tail| - 1];
    }
  }

  /** Chunking loses nothing: the chunks laid end to end are the buffer. */
  lemma {:induction false} ConcatChunks(buffer: seq<Byte>, size: nat)
    requires size > 0
    ensures Concat(Chunks(buffer, size)) == buffer
    decreases |buffer|
  {
    if |buffer| > size {
      ConcatCons(buffer[..size], Chunks(buffer[size..], size));
      ConcatChunks(buffer[size..], size);
    } else if |buffer| > 0 {
      assert [buffer][..0] == [];
      assert Concat([buffer]) == Concat([]) + buffer;
    }
  }

  method ChunkBuffer(buffer: seq<Byte>, chunkSize: nat) returns (chunks: seq<seq<Byte>>)
    requires chunkSize > 0
    ensures chunks == Chunks(buffer, chunkSize)
  {
    hide Chunks;
    chunks := [];
    var i := 0;
    assert buffer[0..] == buffer;
    while i < |buffer|
      invariant 0 <= i
      invariant chunks + Chunks(buffer[Min(i, |buffer|)..], chunkSize) == Chunks(buffer, chunkSize)
    {
      NextChunk(buffer, i, chunkSize);
      chunks := chunks + [buffer[i..Min(i + chunkSize, |buffer|)]];
      i := i + chunkSize;
    }
    assert Chunks([], chunkSize) == [] by { hide *; NoChunks(chunkSize); }
  }

  lemma NoChunks(size: nat)
    requires size > 0
    ensures Chunks([], size) == []
  {}

  /** The chunks from position `i` on start with the next `size` bytes, or what is left of them. */
  lemma NextChunk(buffer: seq<Byte>, i: nat, size: nat)
    requires i < |buffer| && size > 0
    ensures var end := Min(i + size, |buffer|);
            Chunks(buffer[i..], size) == [buffer[i..end]] + Chunks(buffer[end..], size)
  {
    var rest := buffer[i..];
    if i + size < |buffer| {
      assert rest[size..] == buffer[i + size..] && rest[..size] == buffer[i..i + size];
    } else {
      assert buffer[|buffer|..] == [] && rest == buffer[i..|buffer|];
    }
  }

  function Min(a: int, b: int): int { if a < b then a else b }

  // ---------- sizes of maps ----------

  lemma RemoveSize<K, V>(m: map<K, V>, k: K)
    ensures |m - {k}| == |m| - if k in m then 1 else 0
  {
    assert (m - {k}).Keys == m.Keys - {k};
    assert |m.Keys| == |m| && |(m - {k}).Keys| == |m - {k}|;
  }

  lemma InsertSize<K, V>(m: map<K, V>, k: K, v: V)
    ensures |m[k := v]| == |m| + if k in m then 0 else 1
  {
    assert m[k := v].Keys == m.Keys + {k};
    assert |m.Keys| == |m| && |m[k := v].Keys| == |m[k := v]|;
  }
}
