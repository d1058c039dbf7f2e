/** The compressed root image: the writer of "OXUZIP01" files, and the memory disk that reads them. */
module Uzip {
  import opened Words

  const CHUNK: nat := 65536
  const BLOCK: nat := 4096
  const MAGIC: seq<byte> := [0x4f, 0x58, 0x55, 0x5a, 0x49, 0x50, 0x30, 0x31]
  const CACHED_CHUNKS: nat := 2

  /** A file's contents; a `Vec` holds fewer than 2^63 bytes. */
  type Image = s: seq<byte> | |s| < TWO_63

  /** The compressor, and the decoder filling a buffer of a given length (`None` if it doesn't). */
  datatype Codec = Codec(compress: seq<byte> -> seq<byte>, decompress: (seq<byte>, nat) -> Option<seq<byte>>)

  ghost predicate Lossless(codec: Codec) {
    forall c: seq<byte> :: codec.decompress(codec.compress(c), |c|) == Some(c)
  }

  // ---- Chunks ----

  /** `div_ceil`: how many steps of `b` it takes to cover `a`. */
  function CeilDiv(a: nat, b: nat): nat
    requires b > 0
    decreases a
  {
    if a == 0 then 0 else if a <= b then 1 else 1 + CeilDiv(a - b, b)
  }

  /** How many whole steps of `b` fit in `a`. */
  function Quotient(a: nat, b: nat): nat
    requires b > 0
    decreases a
  {
    if a < b then 0 else 1 + Quotient(a - b, b)
  }

  lemma {:induction false} QuotientBounds(a: nat, b: nat)
    requires b > 0
    ensures Quotient(a, b) * b <= a < Quotient(a, b) * b + b
    decreases a
  {
    if a >= b {
      QuotientBounds(a - b, b);
      OneMore(Quotient(a - b, b), b);
    }
  }

  lemma {:induction false} QuotientIsDivision(a: nat, b: nat)
    requires b > 0
    ensures a / b == Quotient(a, b)
  {
    QuotientBounds(a, b);
    DivUnique(a, b, Quotient(a, b));
  }

  lemma {:induction false} DivUnique(a: nat, b: nat, q: nat)
    requires b > 0 && q * b <= a < q * b + b
    ensures a / b == q
  {
    var d := a / b;
    assert d * b <= a < d * b + b;
    if d < q {
      MulAtMost(d + 1, q, b);
    } else if q < d {
      MulAtMost(q + 1, d, b);
    }
  }

  lemma {:induction false} CeilDivMeaning(a: nat, b: nat, n: nat)
    requires b > 0
    ensures n < CeilDiv(a, b) <==> n * b < a
    decreases a
  {
    if a > b && n > 0 {
      CeilDivMeaning(a - b, b, n - 1);
      OneMore(n - 1, b);
    } else if n > 0 {
      MulAtMost(1, n, b);
    }
  }

  function Count(data: seq<byte>): nat {
    CeilDiv(|data|, CHUNK)
  }

  function Min(a: nat, b: nat): nat {
    if a < b then a else b
  }

  lemma OneMore(q: nat, b: nat)
    ensures (q + 1) * b == q * b + b
  {
  }

  lemma MulAtMost(a: nat, b: nat, c: nat)
    requires a <= b
    ensures a * c <= b * c
  {
  }

  /** Chunk `n` of the image; only the last may be short. */
  function ChunkOf(data: seq<byte>, n: nat): (c: seq<byte>)
    requires n < Count(data)
    ensures n * CHUNK < |data| && |c| == Min(CHUNK, |data| - n * CHUNK)
  {
    CeilDivMeaning(|data|, CHUNK, n);
    data[n * CHUNK..Min(|data|, (n + 1) * CHUNK)]
  }

  /** A chunk as the file holds it: compressed if that is shorter. */
  function Stored(codec: Codec, c: seq<byte>): (s: seq<byte>)
    ensures |s| <= |c|
  {
    if |codec.compress(c)| < |c| then codec.compress(c) else c
  }

  /** What the reader makes of a stored chunk that should be `len` bytes. */
  function Unpack(codec: Codec, stored: seq<byte>, len: nat): (r: Option<seq<byte>>)
    ensures r.Some? ==> |r.value| == len
  {
    if |stored| == len then Some(stored)
    else match codec.decompress(stored, len)
      case None => None
      case Some(d) => if |d| == len then Some(d) else None
  }

  /** A chunk's stored length tells which it is. */
  lemma {:induction false} UnpackStored(codec: Codec, c: seq<byte>)
    requires Lossless(codec)
    ensures Unpack(codec, Stored(codec, c), |c|) == Some(c)
  {
  }

  // ---- The file ----

  /** Every chunk as stored. */
  function StoredChunks(codec: Codec, data: seq<byte>): (parts: seq<seq<byte>>)
    ensures |parts| == Count(data)
  {
    seq(Count(data), n requires 0 <= n < Count(data) => Stored(codec, ChunkOf(data, n)))
  }

  /** The first `n` parts, one after the other. */
  function Body(parts: seq<seq<byte>>, n: nat): seq<byte>
    requires n <= |parts|
  {
    if n == 0 then [] else Body(parts, n - 1) + parts[n - 1]
  }

  /** Where the parts start, after the preamble and the offset table. */
  function BodyStart(parts: seq<seq<byte>>): nat {
    24 + 8 * (|parts| + 1)
  }

  /** Where part `n` starts in the file; at the count, where the last one ends. */
  function Offset(parts: seq<seq<byte>>, n: nat): nat
    requires n <= |parts|
  {
    BodyStart(parts) + |Body(parts, n)|
  }

  function Offsets(parts: seq<seq<byte>>, n: nat): (r: seq<nat>)
    requires n <= |parts| + 1
    ensures |r| == n && forall i :: 0 <= i < n ==> r[i] == Offset(parts, i)
  {
    if n == 0 then [] else Offsets(parts, n - 1) + [Offset(parts, n - 1)]
  }

  /** Numbers of eight bytes each, one after the other. */
  function Table(entries: seq<nat>): (t: seq<byte>)
    ensures |t| == 8 * |entries|
  {
    if entries == [] then [] else Table(entries[..|entries| - 1]) + LeBytes(entries[|entries| - 1], 8)
  }

  function Preamble(chunks: nat, size: nat): (p: seq<byte>)
    ensures |p| == 24
  {
    MAGIC + LeBytes(CHUNK, 4) + LeBytes(chunks % TWO_32, 4) + LeBytes(size, 8)
  }

  function Container(size: nat, parts: seq<seq<byte>>): seq<byte> {
    Preamble(|parts|, size) + Table(Offsets(parts, |parts| + 1)) + Body(parts, |parts|)
  }

  /** The whole file. */
  function UzipFile(codec: Codec, data: seq<byte>): seq<byte> {
    Container(|data|, StoredChunks(codec, data))
  }

  method StoreChunks(codec: Codec, data: Image) returns (stored: seq<seq<byte>>)
    ensures stored == StoredChunks(codec, data)
  {
    stored := [];
    for n := 0 to Count(data)
      invariant |stored| == n && forall k :: 0 <= k < n ==> stored[k] == Stored(codec, ChunkOf(data, k))
    {
      var chunk := ChunkOf(data, n);
      var packed := codec.compress(chunk);
      stored := stored + [if |packed| < |chunk| then packed else chunk];
    }
  }

  lemma {:induction false} TableSnoc(entries: seq<nat>, v: nat)
    ensures Table(entries + [v]) == Table(entries) + LeBytes(v, 8)
  {
    assert (entries + [v])[..|entries|] == entries;
  }

  method OffsetTable(stored: seq<seq<byte>>) returns (table: seq<byte>)
    ensures table == Table(Offsets(stored, |stored| + 1))
  {
    table := [];
    var at := 24 + 8 * (|stored| + 1);
    for n := 0 to |stored|
      invariant table == Table(Offsets(stored, n)) && at == Offset(stored, n)
    {
      TableSnoc(Offsets(stored, n), at);
      table := table + LeBytes(at, 8);
      at := at + |stored[n]|;
    }
    TableSnoc(Offsets(stored, |stored|), at);
    table := table + LeBytes(at, 8);
  }

  method JoinChunks(stored: seq<seq<byte>>) returns (body: seq<byte>)
    ensures body == Body(stored, |stored|)
  {
    body := [];
    for n := 0 to |stored|
      invariant body == Body(stored, n)
    {
      body := body + stored[n];
    }
  }

  /** `compress_mfsroot`. */
  method CompressImage(codec: Codec, data: Image) returns (file: seq<byte>)
    ensures file == UzipFile(codec, data)
  {
    var stored := StoreChunks(codec, data);
    file := MAGIC + LeBytes(CHUNK, 4) + LeBytes(|stored| % TWO_32, 4) + LeBytes(|data|, 8);
    var table := OffsetTable(stored);
    var body := JoinChunks(stored);
    file := file + table + body;
  }

  // ---- What the file holds ----

  lemma {:induction false} TableEntry(entries: seq<nat>, i: nat)
    requires i < |entries|
    ensures Table(entries)[8 * i..8 * i + 8] == LeBytes(entries[i], 8)
  {
    var init := entries[..|entries| - 1];
    if i < |init| {
      TableEntry(init, i);
      assert Table(entries)[8 * i..8 * i + 8] == Table(init)[8 * i..8 * i + 8];
    }
  }

  lemma {:induction false} BodyPrefix(parts: seq<seq<byte>>, i: nat, n: nat)
    requires i <= n <= |parts|
    ensures |Body(parts, i)| <= |Body(parts, n)| && Body(parts, n)[..|Body(parts, i)|] == Body(parts, i)
  {
    if i < n {
      BodyPrefix(parts, i, n - 1);
    }
  }

  /** Part `i` lies between its offset and the next. */
  lemma {:induction false} BodyEntry(parts: seq<seq<byte>>, n: nat, i: nat)
    requires i < n <= |parts|
    ensures |Body(parts, i)| <= |Body(parts, i + 1)| <= |Body(parts, n)|
    ensures Body(parts, n)[|Body(parts, i)|..|Body(parts, i + 1)|] == parts[i]
  {
    BodyPrefix(parts, i + 1, n);
    var whole, upTo := Body(parts, n), Body(parts, i + 1);
    assert whole[|Body(parts, i)|..|upTo|] == whole[..|upTo|][|Body(parts, i)|..];
  }

  // ---- The reader ----

  function NumberAt(file: seq<byte>, at: nat, n: nat): Option<nat> {
    if at + n <= |file| then Some(ReadLe(file, at, n)) else None
  }

  datatype Shape = Shape(chunk: nat, chunks: nat, size: nat)

  function ShapeOf(file: seq<byte>): Option<Shape> {
    var chunk, chunks, size := NumberAt(file, 8, 4), NumberAt(file, 12, 4), NumberAt(file, 16, 8);
    if chunk.None? || chunks.None? || size.None? then None else Some(Shape(chunk.value, chunks.value, size.value))
  }

  predicate OffsetOk(file: seq<byte>, i: nat) {
    24 + 8 * i + 8 <= |file| && ReadLe(file, 24 + 8 * i, 8) <= |file|
  }

  predicate Rising(file: seq<byte>, i: nat) {
    OffsetOk(file, i) && OffsetOk(file, i + 1) && ReadLe(file, 24 + 8 * i, 8) <= ReadLe(file, 24 + 8 * (i + 1), 8)
  }

  /** The checks `Compressed::new` makes of the numbers before the chunks. */
  predicate SaneFor(file: seq<byte>, s: Shape) {
    && s.chunk > 0 && s.chunk % BLOCK == 0 && s.chunk <= 0x10_0000 && CeilDiv(s.size, s.chunk) == s.chunks
    && (forall i :: 0 <= i <= s.chunks ==> OffsetOk(file, i))
    && (forall i :: 0 <= i < s.chunks ==> Rising(file, i))
  }

  predicate Sane(file: seq<byte>) {
    ShapeOf(file).Some? && SaneFor(file, ShapeOf(file).value)
  }

  /** Chunk `n`, decoded afresh. */
  function ChunkAt(codec: Codec, file: seq<byte>, s: Shape, n: nat): (r: Option<seq<byte>>)
    requires SaneFor(file, s) && n < s.chunks
    ensures n * s.chunk < s.size && (r.Some? ==> |r.value| == Min(s.chunk, s.size - n * s.chunk))
  {
    CeilDivMeaning(s.size, s.chunk, n);
    assert Rising(file, n);
    Unpack(codec, file[ReadLe(file, 24 + 8 * n, 8)..ReadLe(file, 24 + 8 * (n + 1), 8)],
           Min(s.chunk, s.size - n * s.chunk))
  }

  /** Bytes `[from, from + BLOCK)` of a chunk, with zeros past its end. */
  function BlockIn(data: seq<byte>, from: nat): (r: seq<byte>)
    requires from <= |data|
    ensures |r| == BLOCK
  {
    var to := Min(from + BLOCK, |data|);
    data[from..to] + Zeros(BLOCK - (to - from))
  }

  lemma {:induction false} InChunk(at: nat, size: nat, chunk: nat)
    requires chunk > 0 && at < size
    ensures var n := Quotient(at, chunk); n < CeilDiv(size, chunk) && n * chunk <= at < n * chunk + chunk
  {
    QuotientBounds(at, chunk);
    CeilDivMeaning(size, chunk, Quotient(at, chunk));
  }

  /** Block `b`, decoded afresh. */
  function BlockAt(codec: Codec, file: seq<byte>, s: Shape, b: nat): (r: Option<seq<byte>>)
    requires SaneFor(file, s)
    ensures r.Some? ==> |r.value| == BLOCK
  {
    var at := b * BLOCK;
    if at >= s.size then Some(Zeros(BLOCK))
    else
      InChunk(at, s.size, s.chunk);
      BlockFrom(codec, file, s, at, Quotient(at, s.chunk))
  }

  function BlockFrom(codec: Codec, file: seq<byte>, s: Shape, at: nat, n: nat): (r: Option<seq<byte>>)
    requires SaneFor(file, s) && n < s.chunks && at < s.size && n * s.chunk <= at < n * s.chunk + s.chunk
    ensures r.Some? ==> |r.value| == BLOCK
  {
    match ChunkAt(codec, file, s, n)
    case None => None
    case Some(data) => Some(BlockIn(data, at - n * s.chunk))
  }

  datatype Cached = Cached(n: nat, data: seq<byte>)

  predicate IsChunk(codec: Codec, file: seq<byte>, s: Shape, c: Cached)
    requires SaneFor(file, s)
  {
    c.n < s.chunks && ChunkAt(codec, file, s, c.n) == Some(c.data)
  }

  /** No chunk twice, each as decoding it afresh would give. */
  ghost predicate GoodCache(codec: Codec, file: seq<byte>, s: Shape, cache: seq<Cached>)
    requires SaneFor(file, s)
  {
    && (forall i :: 0 <= i < |cache| ==> IsChunk(codec, file, s, cache[i]))
    && (forall i, j :: 0 <= i < j < |cache| ==> cache[i].n != cache[j].n)
  }

  lemma {:induction false} AddedIsGood(codec: Codec, file: seq<byte>, s: Shape, cache: seq<Cached>, c: Cached)
    requires SaneFor(file, s) && GoodCache(codec, file, s, cache) && IsChunk(codec, file, s, c)
    requires forall i :: 0 <= i < |cache| ==> cache[i].n != c.n
    ensures GoodCache(codec, file, s, [c] + cache)
  {
  }

  lemma {:induction false} FrontIsGood(codec: Codec, file: seq<byte>, s: Shape, cache: seq<Cached>, i: nat)
    requires SaneFor(file, s) && GoodCache(codec, file, s, cache) && i < |cache|
    ensures GoodCache(codec, file, s, [cache[i]] + cache[..i] + cache[i + 1..])
  {
    var rest := cache[..i] + cache[i + 1..];
    AddedIsGood(codec, file, s, rest, cache[i]);
    assert [cache[i]] + cache[..i] + cache[i + 1..] == [cache[i]] + rest;
  }

  method Divide(a: nat, b: nat) returns (q: nat)
    requires b > 0
    ensures q == Quotient(a, b)
  {
    QuotientIsDivision(a, b);
    q := a / b;
  }

  /** What a chunk holds from `from` on, then zeros. */
  method CopyBlock(data: seq<byte>, from: nat, out: array<byte>)
    requires out.Length == BLOCK && from <= |data|
    modifies out
    ensures out[..] == BlockIn(data, from)
  {
    var to := Min(from + BLOCK, |data|);
    forall i | 0 <= i < BLOCK {
      out[i] := if i < to - from then data[from + i] else 0;
    }
  }

  class Compressed {
    const codec: Codec
    const file: seq<byte>
    const shape: Shape
    /** The chunks decoded last, the most recent first. */
    var cache: seq<Cached>

    constructor (codec: Codec, file: seq<byte>, shape: Shape)
      requires SaneFor(file, shape)
      ensures Valid() && this.codec == codec && this.file == file && this.shape == shape && cache == []
    {
      this.codec, this.file, this.shape, cache := codec, file, shape, [];
    }

    ghost predicate Valid()
      reads this
    {
      SaneFor(file, shape) && |cache| <= CACHED_CHUNKS && GoodCache(codec, file, shape, cache)
    }

    /** `Compressed::chunk`: what decoding afresh would give, from the cache if it's there. */
    method Chunk(n: nat) returns (r: Option<seq<byte>>)
      requires Valid() && n < shape.chunks
      modifies this`cache
      ensures Valid() && r == ChunkAt(codec, file, shape, n)
      ensures r.Some? ==> cache != [] && cache[0] == Cached(n, r.value)
    {
      for i := 0 to |cache|
        invariant forall k :: 0 <= k < i ==> cache[k].n != n
      {
        if cache[i].n == n {
          FrontIsGood(codec, file, shape, cache, i);
          cache := [cache[i]] + cache[..i] + cache[i + 1..];
          return Some(cache[0].data);
        }
      }
      r := ChunkAt(codec, file, shape, n);
      if r.Some? {
        var kept := if |cache| > CACHED_CHUNKS - 1 then cache[..CACHED_CHUNKS - 1] else cache;
        AddedIsGood(codec, file, shape, kept, Cached(n, r.value));
        cache := [Cached(n, r.value)] + kept;
      }
    }

    /** `read_block`. */
    method ReadBlock(b: nat, out: array<byte>) returns (ok: bool)
      requires Valid() && out.Length == BLOCK
      modifies this`cache, out
      ensures Valid() && ok == BlockAt(codec, file, shape, b).Some?
      ensures ok ==> out[..] == BlockAt(codec, file, shape, b).value
    {
      var at := b * BLOCK;
      if at >= shape.size {
        CopyBlock([], 0, out);
        assert BlockIn([], 0) == Zeros(BLOCK);
        return true;
      }
      InChunk(at, shape.size, shape.chunk);
      var n := Divide(at, shape.chunk);
      ok := ReadFrom(at, n, out);
    }

    method ReadFrom(at: nat, n: nat, out: array<byte>) returns (ok: bool)
      requires Valid() && out.Length == BLOCK
      requires n < shape.chunks && at < shape.size && n * shape.chunk <= at < n * shape.chunk + shape.chunk
      modifies this`cache, out
      ensures Valid() && ok == BlockFrom(codec, file, shape, at, n).Some?
      ensures ok ==> out[..] == BlockFrom(codec, file, shape, at, n).value
    {
      var data := Chunk(n);
      if data.None? {
        return false;
      }
      CopyBlock(data.value, at - n * shape.chunk, out);
      return true;
    }
  }

  /** `Compressed::new`. */
  method Open(codec: Codec, file: seq<byte>) returns (r: Option<Compressed>)
    ensures r.Some? <==> Sane(file)
    ensures r.Some? ==> fresh(r.value) && r.value.Valid() && r.value.codec == codec && r.value.file == file
    ensures r.Some? ==> r.value.shape == ShapeOf(file).value
  {
    if !Sane(file) {
      return None;
    }
    var c := new Compressed(codec, file, ShapeOf(file).value);
    return Some(c);
  }

  // ---- The round trip ----

  /** `file` holds `parts`, and the table of where they are. */
  ghost predicate Holds(file: seq<byte>, parts: seq<seq<byte>>) {
    && |file| == BodyStart(parts) + |Body(parts, |parts|)| < TWO_64
    && file[24..BodyStart(parts)] == Table(Offsets(parts, |parts| + 1))
    && file[BodyStart(parts)..] == Body(parts, |parts|)
  }

  lemma {:induction false} EntryRead(file: seq<byte>, entries: seq<nat>, i: nat)
    requires i < |entries| && entries[i] < TWO_64
    requires 24 + 8 * |entries| <= |file| && file[24..24 + 8 * |entries|] == Table(entries)
    ensures ReadLe(file, 24 + 8 * i, 8) == entries[i]
  {
    Pow256Values();
    TableEntry(entries, i);
    SliceSlice(file, 24, 24 + 8 * |entries|, 8 * i, 8 * i + 8);
    ReadLeAfterWrite(file, 24 + 8 * i, 8, entries[i]);
  }

  /** The table holds each part's offset, in order, up to the end of the file. */
  lemma {:induction false} OffsetRead(file: seq<byte>, parts: seq<seq<byte>>, i: nat)
    requires Holds(file, parts) && i <= |parts|
    ensures OffsetOk(file, i) && ReadLe(file, 24 + 8 * i, 8) == Offset(parts, i) <= |file|
  {
    BodyPrefix(parts, i, |parts|);
    EntryRead(file, Offsets(parts, |parts| + 1), i);
  }

  lemma {:induction false} OffsetsRise(file: seq<byte>, parts: seq<seq<byte>>, i: nat)
    requires Holds(file, parts) && i < |parts|
    ensures Rising(file, i)
  {
    OffsetRead(file, parts, i);
    OffsetRead(file, parts, i + 1);
    BodyPrefix(parts, i, i + 1);
  }

  lemma {:induction false} TailSlice(file: seq<byte>, start: nat, tail: seq<byte>, from: nat, to: nat, part: seq<byte>)
    requires start <= |file| && file[start..] == tail && from <= to <= |tail| && tail[from..to] == part
    ensures file[start + from..start + to] == part
  {
    assert file[start..|file|] == tail;
    SliceSlice(file, start, |file|, from, to);
  }

  lemma {:induction false} PartSlice(file: seq<byte>, parts: seq<seq<byte>>, n: nat)
    requires Holds(file, parts) && n < |parts|
    ensures Offset(parts, n) <= Offset(parts, n + 1) <= |file|
            && file[Offset(parts, n)..Offset(parts, n + 1)] == parts[n]
  {
    BodyEntry(parts, |parts|, n);
    TailSlice(file, BodyStart(parts), Body(parts, |parts|), |Body(parts, n)|, |Body(parts, n + 1)|, parts[n]);
  }

  lemma {:induction false} HeldIsSane(file: seq<byte>, parts: seq<seq<byte>>, s: Shape)
    requires Holds(file, parts) && s.chunk == CHUNK && s.chunks == |parts| == CeilDiv(s.size, CHUNK)
    ensures SaneFor(file, s)
  {
    forall i | 0 <= i <= |parts|
      ensures OffsetOk(file, i)
    {
      OffsetRead(file, parts, i);
    }
    forall i | 0 <= i < |parts|
      ensures Rising(file, i)
    {
      OffsetsRise(file, parts, i);
    }
  }

  /** The reader's slice for chunk `n` is part `n`. */
  lemma {:induction false} StoredSlice(file: seq<byte>, parts: seq<seq<byte>>, n: nat)
    requires Holds(file, parts) && n < |parts|
    ensures Rising(file, n) && file[ReadLe(file, 24 + 8 * n, 8)..ReadLe(file, 24 + 8 * (n + 1), 8)] == parts[n]
  {
    OffsetRead(file, parts, n);
    OffsetRead(file, parts, n + 1);
    PartSlice(file, parts, n);
  }

  lemma {:induction false} ChunkIs(codec: Codec, file: seq<byte>, s: Shape, n: nat, part: seq<byte>)
    requires SaneFor(file, s) && n < s.chunks
    requires Rising(file, n) && file[ReadLe(file, 24 + 8 * n, 8)..ReadLe(file, 24 + 8 * (n + 1), 8)] == part
    ensures n * s.chunk < s.size
            && ChunkAt(codec, file, s, n) == Unpack(codec, part, Min(s.chunk, s.size - n * s.chunk))
  {
    CeilDivMeaning(s.size, s.chunk, n);
  }

  /** What the reader decodes for chunk `n` is what part `n` unpacks to. */
  lemma {:induction false} PartDecodes(codec: Codec, file: seq<byte>, parts: seq<seq<byte>>, s: Shape, n: nat)
    requires Holds(file, parts) && SaneFor(file, s) && n < s.chunks == |parts|
    ensures n * s.chunk < s.size
            && ChunkAt(codec, file, s, n) == Unpack(codec, parts[n], Min(s.chunk, s.size - n * s.chunk))
  {
    StoredSlice(file, parts, n);
    ChunkIs(codec, file, s, n, parts[n]);
  }

  // ---- The image ----

  lemma {:induction false} FourParts(m: seq<byte>, a: seq<byte>, b: seq<byte>, c: seq<byte>)
    requires |m| == 8 && |a| == 4 && |b| == 4 && |c| == 8
    ensures var p := m + a + b + c; p[8..12] == a && p[12..16] == b && p[16..24] == c
  {
    var p := m + a + b + c;
    assert p[8..12] == a;
    assert p[12..16] == b;
    assert p[16..24] == c;
  }

  lemma {:induction false} PreambleRead(file: seq<byte>, chunks: nat, size: nat)
    requires size < TWO_64 && |file| >= 24 && file[..24] == Preamble(chunks, size)
    ensures ShapeOf(file) == Some(Shape(CHUNK, chunks % TWO_32, size))
  {
    var p := Preamble(chunks, size);
    Pow256Values();
    FourParts(MAGIC, LeBytes(CHUNK, 4), LeBytes(chunks % TWO_32, 4), LeBytes(size, 8));
    SliceSlice(file, 0, 24, 8, 12);
    SliceSlice(file, 0, 24, 12, 16);
    SliceSlice(file, 0, 24, 16, 24);
    assert file[0..24] == file[..24];
    ReadLeAfterWrite(file, 8, 4, CHUNK);
    ReadLeAfterWrite(file, 12, 4, chunks % TWO_32);
    ReadLeAfterWrite(file, 16, 8, size);
  }

  lemma {:induction false} BodyBound(codec: Codec, data: seq<byte>, parts: seq<seq<byte>>, n: nat)
    requires parts == StoredChunks(codec, data) && n <= |parts|
    ensures |Body(parts, n)| <= |data| && (n < |parts| ==> |Body(parts, n)| <= n * CHUNK)
  {
    if n > 0 {
      BodyBound(codec, data, parts, n - 1);
      CeilDivMeaning(|data|, CHUNK, n - 1);
    }
  }

  lemma {:induction false} ContainerParts(size: nat, parts: seq<seq<byte>>)
    requires BodyStart(parts) + |Body(parts, |parts|)| < TWO_64
    ensures Holds(Container(size, parts), parts) && Container(size, parts)[..24] == Preamble(|parts|, size)
  {
  }

  lemma {:induction false} FileHolds(codec: Codec, data: Image)
    ensures var file, parts := UzipFile(codec, data), StoredChunks(codec, data);
            Holds(file, parts) && file[..24] == Preamble(|parts|, |data|)
  {
    var parts := StoredChunks(codec, data);
    BodyBound(codec, data, parts, |parts|);
    if |parts| > 0 {
      CeilDivMeaning(|data|, CHUNK, |parts| - 1);
    }
    ContainerParts(|data|, parts);
  }

  lemma {:induction false} HeldOpens(file: seq<byte>, parts: seq<seq<byte>>, size: nat)
    requires Holds(file, parts) && |file| >= 24 && file[..24] == Preamble(|parts|, size)
    requires size < TWO_64 && |parts| == CeilDiv(size, CHUNK)
    ensures Sane(file) <==> |parts| < TWO_32
    ensures |parts| < TWO_32 ==> ShapeOf(file) == Some(Shape(CHUNK, |parts|, size))
  {
    PreambleRead(file, |parts|, size);
    if |parts| < TWO_32 {
      HeldIsSane(file, parts, Shape(CHUNK, |parts|, size));
    }
  }

  /** The reader takes the file exactly when its number of chunks fits the header's field. */
  lemma {:induction false} OpensIffCountFits(codec: Codec, data: Image)
    ensures Sane(UzipFile(codec, data)) <==> Count(data) < TWO_32
    ensures Count(data) < TWO_32 ==> ShapeOf(UzipFile(codec, data)) == Some(Shape(CHUNK, Count(data), |data|))
  {
    FileHolds(codec, data);
    HeldOpens(UzipFile(codec, data), StoredChunks(codec, data), |data|);
  }

  /** Every chunk decodes to the image's own. */
  lemma {:induction false} ChunkRoundTrip(codec: Codec, data: Image, file: seq<byte>, s: Shape, n: nat)
    requires Lossless(codec) && Holds(file, StoredChunks(codec, data)) && s == Shape(CHUNK, Count(data), |data|)
    requires SaneFor(file, s) && n < Count(data)
    ensures ChunkAt(codec, file, s, n) == Some(ChunkOf(data, n))
  {
    PartDecodes(codec, file, StoredChunks(codec, data), s, n);
    UnpackStored(codec, ChunkOf(data, n));
  }

  /** A block of the image, with zeros past its end. */
  function ImageBlock(data: seq<byte>, b: nat): (r: seq<byte>)
    ensures |r| == BLOCK
  {
    if b * BLOCK >= |data| then Zeros(BLOCK) else BlockIn(data, b * BLOCK)
  }

  /** Chunks hold whole blocks. */
  lemma {:induction false} BlockWithinChunk(at: nat, n: nat)
    requires at % BLOCK == 0 && n * CHUNK <= at < n * CHUNK + CHUNK
    ensures at + BLOCK <= n * CHUNK + CHUNK
  {
    var x := at - n * CHUNK;
    assert CHUNK == 16 * BLOCK;
  }

  lemma {:induction false} BlockInChunk(data: seq<byte>, at: nat, n: nat)
    requires n < Count(data) && at < |data| && at % BLOCK == 0 && n * CHUNK <= at < n * CHUNK + CHUNK
    ensures BlockIn(ChunkOf(data, n), at - n * CHUNK) == BlockIn(data, at)
  {
    BlockWithinChunk(at, n);
    var c, from := ChunkOf(data, n), at - n * CHUNK;
    var to := Min(from + BLOCK, |c|);
    SliceSlice(data, n * CHUNK, Min(|data|, (n + 1) * CHUNK), from, to);
  }

  lemma {:induction false} BlockRoundTrip(codec: Codec, data: Image, file: seq<byte>, s: Shape, b: nat)
    requires Lossless(codec) && Holds(file, StoredChunks(codec, data)) && s == Shape(CHUNK, Count(data), |data|)
    requires SaneFor(file, s)
    ensures BlockAt(codec, file, s, b) == Some(ImageBlock(data, b))
  {
    var at := b * BLOCK;
    if at < |data| {
      InChunk(at, |data|, CHUNK);
      ChunkRoundTrip(codec, data, file, s, Quotient(at, CHUNK));
      InsideBlock(codec, data, file, s, b, Quotient(at, CHUNK));
    } else {
      PastEnd(codec, data, file, s, b);
    }
  }

  lemma {:induction false} PastEnd(codec: Codec, data: seq<byte>, file: seq<byte>, s: Shape, b: nat)
    requires SaneFor(file, s) && s.size == |data| <= b * BLOCK
    ensures BlockAt(codec, file, s, b) == Some(ImageBlock(data, b))
  {
  }

  lemma {:induction false} InsideBlock(codec: Codec, data: seq<byte>, file: seq<byte>, s: Shape, b: nat, n: nat)
    requires SaneFor(file, s) && s == Shape(CHUNK, Count(data), |data|) && n < Count(data) && b * BLOCK < |data|
    requires n == Quotient(b * BLOCK, CHUNK) && ChunkAt(codec, file, s, n) == Some(ChunkOf(data, n))
    ensures BlockAt(codec, file, s, b) == Some(ImageBlock(data, b))
  {
    InChunk(b * BLOCK, |data|, CHUNK);
    BlockDecodes(codec, data, file, s, b * BLOCK, n);
  }

  lemma {:induction false} BlockDecodes(codec: Codec, data: seq<byte>, file: seq<byte>, s: Shape, at: nat, n: nat)
    requires SaneFor(file, s) && s == Shape(CHUNK, Count(data), |data|) && n < Count(data)
    requires at % BLOCK == 0 && at < |data| && n * CHUNK <= at < n * CHUNK + CHUNK
    requires ChunkAt(codec, file, s, n) == Some(ChunkOf(data, n))
    ensures BlockFrom(codec, file, s, at, n) == Some(BlockIn(data, at))
  {
    BlockInChunk(data, at, n);
  }

  /** Compressing an image and reading it back gives every block of it, and zeros past its end. */
  lemma {:induction false} ImageRoundTrip(codec: Codec, data: Image, b: nat)
    requires Lossless(codec) && Count(data) < TWO_32
    ensures Sane(UzipFile(codec, data))
    ensures BlockAt(codec, UzipFile(codec, data), ShapeOf(UzipFile(codec, data)).value, b) == Some(ImageBlock(data, b))
  {
    OpensIffCountFits(codec, data);
    FileHolds(codec, data);
    BlockRoundTrip(codec, data, UzipFile(codec, data), Shape(CHUNK, Count(data), |data|), b);
  }
}
