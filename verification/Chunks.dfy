/**
Byte strings kept in chunks: a string made of items of one length is cut into chunks of at
most `MAX_CHUNK_SIZE` bytes, stored under numbered keys, and read back item by item. No item
straddles two chunks when the chunk size is a multiple of the item length.
*/
module Chunks {
  import opened Arithmetic
  import opened Bytes

  const MAX_CHUNK_SIZE: nat := 128_000

  function DivCeil(a: nat, b: nat): (d: nat)
    requires b > 0
  {
    a / b + if a % b > 0 then 1 else 0
  }

  function NumChunks(bytes: seq<Byte>): nat {
    DivCeil(|bytes|, MAX_CHUNK_SIZE)
  }

  function Chunk(bytes: seq<Byte>, n: nat): seq<Byte>
    requires n < NumChunks(bytes)
  {
    var start := n * MAX_CHUNK_SIZE;
    bytes[start..if start + MAX_CHUNK_SIZE < |bytes| then start + MAX_CHUNK_SIZE else |bytes|]
  }

  /** The chunks of a string, by key number. */
  ghost function ChunksOf(bytes: seq<Byte>): map<nat, seq<Byte>> {
    map n: nat | n < NumChunks(bytes) :: Chunk(bytes, n)
  }

  lemma ChunksPresent(bytes: seq<Byte>)
    ensures ChunksOf(bytes) != map[] <==> bytes != []
  {
    if bytes != [] {
      var n: nat := 0;
      assert n < NumChunks(bytes);
      assert n in ChunksOf(bytes);
    }
  }

  /** All chunks are full, at 128000 bytes, but for the last, which is not empty. */
  lemma ChunkSizes(bytes: seq<Byte>, n: nat)
    requires n < NumChunks(bytes)
    ensures if n < NumChunks(bytes) - 1 then |Chunk(bytes, n)| == 128_000
            else |Chunk(bytes, n)| == |bytes| - 128_000 * n && 0 < |Chunk(bytes, n)| <= 128_000
  {
  }

  /** Cut a string into chunks under the first of `keys` keys. */
  method ShardBytesToObject(keys: nat, bytes: seq<Byte>) returns (chunks: map<nat, seq<Byte>>)
    requires NumChunks(bytes) <= keys
    ensures chunks == ChunksOf(bytes)
  {
    chunks := map[];
    var base := 0;
    for n := 0 to NumChunks(bytes)
      invariant base == if n * MAX_CHUNK_SIZE < |bytes| then n * MAX_CHUNK_SIZE else |bytes|
      invariant chunks == map m: nat | m < n :: Chunk(bytes, m)
    {
      var end := if base + MAX_CHUNK_SIZE < |bytes| then base + MAX_CHUNK_SIZE else |bytes|;
      chunks := chunks[n := bytes[base..end]];
      base := end;
    }
  }

  // ---- Items

  ghost predicate AllLen(items: seq<seq<Byte>>, w: nat) {
    forall i | 0 <= i < |items| :: |items[i]| == w
  }

  ghost function Flat(items: seq<seq<Byte>>): seq<Byte> {
    if items == [] then [] else Flat(items[..|items| - 1]) + items[|items| - 1]
  }

  lemma {:induction false} FlatSnoc(items: seq<seq<Byte>>, x: seq<Byte>)
    ensures Flat(items + [x]) == Flat(items) + x
  {
    assert (items + [x])[..|items|] == items;
  }

  lemma {:induction false} FlatLen(items: seq<seq<Byte>>, w: nat)
    requires AllLen(items, w)
    ensures |Flat(items)| == |items| * w
  {
    if items != [] {
      FlatLen(items[..|items| - 1], w);
      assert |items| * w == (|items| - 1) * w + w;
    }
  }

  lemma Below(i: nat, n: nat, w: nat)
    requires i < n
    ensures 0 <= i * w <= i * w + w <= n * w
  {
    assert i * w + w == (i + 1) * w <= n * w;
  }

  /** Item `i` of a string of items. */
  lemma {:induction false} FlatAt(items: seq<seq<Byte>>, w: nat, i: nat)
    requires AllLen(items, w) && i < |items|
    ensures i * w + w <= |Flat(items)| && Flat(items)[i * w..i * w + w] == items[i]
  {
    var n := |items| - 1;
    FlatLen(items, w);
    FlatLen(items[..n], w);
    Below(i, |items|, w);
    if i < n {
      Below(i, n, w);
      FlatAt(items[..n], w, i);
      assert Flat(items)[i * w..i * w + w] == Flat(items[..n])[i * w..i * w + w];
    }
  }

  // ---- Reading back

  lemma Offset(w: nat, per: nat, n: nat, i: nat)
    requires w * per == MAX_CHUNK_SIZE
    ensures (n * per + i) * w == n * MAX_CHUNK_SIZE + i * w
  {
    assert (n * per) * w == n * (w * per);
  }

  lemma MulMono(a: nat, b: nat, w: nat)
    requires w > 0
    ensures a <= b <==> a * w <= b * w
  {
    if a <= b {
      MulLe(a, b, w);
    } else {
      MulLe(b + 1, a, w);
      assert (b + 1) * w == b * w + w;
    }
  }

  lemma EnoughChunks(len: nat, n: nat)
    requires DivCeil(len, MAX_CHUNK_SIZE) <= n
    ensures len <= n * MAX_CHUNK_SIZE
  {
  }

  /** Chunk `n` holds a whole number of items, and these start at item `n * per`. */
  lemma {:induction false} ChunkItems(items: seq<seq<Byte>>, w: nat, per: nat, n: nat)
    requires AllLen(items, w) && w > 0 && w * per == MAX_CHUNK_SIZE && n < NumChunks(Flat(items))
    ensures var count := if (n + 1) * per <= |items| then per else |items| - n * per;
            && n * per < |items| && |Chunk(Flat(items), n)| == count * w
  {
    FlatLen(items, w);
    ChunkCount(|items|, w, per, n);
  }

  lemma ChunkCount(k: nat, w: nat, per: nat, n: nat)
    requires w > 0 && w * per == MAX_CHUNK_SIZE && n * MAX_CHUNK_SIZE < k * w
    ensures n * per < k
    ensures if (n + 1) * per <= k then (n + 1) * MAX_CHUNK_SIZE <= k * w
            else k * w < (n + 1) * MAX_CHUNK_SIZE && k * w - n * MAX_CHUNK_SIZE == (k - n * per) * w
  {
    Offset(w, per, n, 0);
    Offset(w, per, n + 1, 0);
    MulMono(k, n * per, w);
    MulMono((n + 1) * per, k, w);
    Offset(w, per, n, k - n * per);
  }

  lemma {:induction false} ChunkItem(items: seq<seq<Byte>>, w: nat, per: nat, n: nat, i: nat)
    requires AllLen(items, w) && w > 0 && w * per == MAX_CHUNK_SIZE && n < NumChunks(Flat(items))
    requires i * w + w <= |Chunk(Flat(items), n)| && n * per + i < |items|
    ensures Chunk(Flat(items), n)[i * w..i * w + w] == items[n * per + i]
  {
    FlatAt(items, w, n * per + i);
    Offset(w, per, n, i);
    SubSlice(Flat(items), n * MAX_CHUNK_SIZE, |Chunk(Flat(items), n)|, i * w, w);
  }

  lemma SubSlice<T>(s: seq<T>, a: nat, len: nat, i: nat, w: nat)
    requires a + len <= |s| && i + w <= len
    ensures s[a..a + len][i..i + w] == s[a + i..a + i + w]
  {
    var t := s[a..a + len];
    assert forall k | i <= k < i + w :: t[k] == s[a + k];
  }

  /** Read the items back from the chunks, key by key. */
  method ReadItems(chunks: map<nat, seq<Byte>>, keys: nat, w: nat, ghost items: seq<seq<Byte>>, ghost per: nat)
    returns (out: seq<seq<Byte>>)
    requires AllLen(items, w) && w > 0 && w * per == MAX_CHUNK_SIZE
    requires chunks == ChunksOf(Flat(items)) && NumChunks(Flat(items)) <= keys
    ensures out == items
  {
    out := [];
    for n := 0 to keys
      invariant out == items[..ReadUpTo(items, per, n)]
    {
      if n in chunks {
        out := ReadChunk(chunks[n], w, out, items, per, n);
      } else {
        ReadAll(items, w, per, n);
      }
    }
    ReadAll(items, w, per, keys);
  }

  /** The number of items in the first `n` chunks. */
  ghost function ReadUpTo(items: seq<seq<Byte>>, per: nat, n: nat): nat {
    if n * per < |items| then n * per else |items|
  }

  lemma {:induction false} ReadAll(items: seq<seq<Byte>>, w: nat, per: nat, n: nat)
    requires AllLen(items, w) && w > 0 && w * per == MAX_CHUNK_SIZE && NumChunks(Flat(items)) <= n
    ensures |items| <= n * per && |items| <= (n + 1) * per
  {
    FlatLen(items, w);
    EnoughChunks(|items| * w, n);
    ReadAllCount(|items|, w, per, n);
  }

  lemma ReadAllCount(k: nat, w: nat, per: nat, n: nat)
    requires w > 0 && w * per == MAX_CHUNK_SIZE && k * w <= n * MAX_CHUNK_SIZE
    ensures k <= n * per && k <= (n + 1) * per
  {
    Offset(w, per, n, 0);
    MulMono(k, n * per, w);
    MulLe(n, n + 1, per);
  }

  method ReadChunk(chunk: seq<Byte>, w: nat, before: seq<seq<Byte>>, ghost items: seq<seq<Byte>>, ghost per: nat,
                   ghost n: nat)
    returns (out: seq<seq<Byte>>)
    requires AllLen(items, w) && w > 0 && w * per == MAX_CHUNK_SIZE
    requires n < NumChunks(Flat(items)) && chunk == Chunk(Flat(items), n)
    requires before == items[..ReadUpTo(items, per, n)]
    ensures out == items[..ReadUpTo(items, per, n + 1)]
  {
    out := before;
    ChunkItems(items, w, per, n);
    ghost var count := if (n + 1) * per <= |items| then per else |items| - n * per;
    assert (n + 1) * per == n * per + per;
    var pos := 0;
    ghost var i := 0;
    while pos + w <= |chunk|
      invariant pos == i * w && i <= count
      invariant out == items[..n * per + i]
      decreases |chunk| - pos
    {
      Below(i, i + 1, w);
      Fewer(i, count, w);
      ChunkItem(items, w, per, n, i);
      out := out + [chunk[pos..pos + w]];
      assert items[..n * per + i + 1] == items[..n * per + i] + [items[n * per + i]];
      pos, i := pos + w, i + 1;
    }
    if i < count {
      Below(i, count, w);
    }
  }

  lemma Fewer(i: nat, count: nat, w: nat)
    requires i * w + w <= count * w && w > 0
    ensures i < count && (i + 1) * w == i * w + w
  {
    MulMono(i + 1, count, w);
  }
}
