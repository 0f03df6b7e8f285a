/**
 The active layer and the two ways of appending a write to it.

 `Shipped` is the code as it stands; `Documented` is what its comments and tests promise.
 They differ in two formulas only: the file size a write starts from, and the layer offset
 of the chunk that zero-fills a gap.
 */
module Layers {
  import opened FlatFile
  import opened Overlay

  /** The half-open range [lo, hi). */
  datatype Range = Range(lo: nat, hi: nat) {
    predicate IsEmpty() {
      hi <= lo
    }

    predicate Has(p: nat) {
      lo <= p < hi
    }

    function Length(): nat {
      if lo <= hi then hi - lo else 0
    }
  }

  predicate RangesOverlap(a: Range, b: Range) {
    a.lo < b.hi && b.lo < a.hi
  }

  datatype Chunk = Chunk(layerId: nat, flushed: bool, layerRange: Range, fileRange: Range)

  datatype Layer = Layer(chunks: seq<Chunk>, data: seq<byte>, size: nat)

  const EMPTY_LAYER := Layer([], [], 0)

  datatype Rule = Shipped | Documented

  /** The highest file offset any of the chunks reaches. */
  function ChunkEnd(chunks: seq<Chunk>): nat {
    if chunks == [] then 0
    else Max(ChunkEnd(chunks[..|chunks| - 1]), chunks[|chunks| - 1].fileRange.hi)
  }

  function SizeWith(rule: Rule, committedEnd: nat, layer: Layer): nat {
    match rule
    case Shipped => if layer.chunks != [] then ChunkEnd(layer.chunks) else committedEnd
    case Documented => Max(committedEnd, ChunkEnd(layer.chunks))
  }

  function LayerEnd(layer: Layer): nat {
    if layer.chunks == [] then 0 else layer.chunks[|layer.chunks| - 1].layerRange.hi
  }

  /** Where the gap chunk's layer range starts. */
  function GapStart(rule: Rule, layer: Layer): nat {
    if layer.chunks == [] then 0
    else
      var last := layer.chunks[|layer.chunks| - 1];
      if rule.Shipped? then last.fileRange.hi else last.layerRange.hi
  }

  function AppendChunk(layer: Layer, start: nat, at: nat, bytes: seq<byte>): Layer {
    var chunk := Chunk(0, false, Range(start, start + |bytes|), Range(at, at + |bytes|));
    Layer(layer.chunks + [chunk], layer.data + bytes, start + |bytes|)
  }

  function LayerWrite(rule: Rule, layer: Layer, fileSize: nat, offset: nat, data: seq<byte>): Layer {
    var grown := if offset > fileSize
                 then AppendChunk(layer, GapStart(rule, layer), fileSize, Zeros(offset - fileSize))
                 else layer;
    AppendChunk(grown, LayerEnd(grown), offset, data)
  }

  // ---------- What the chunks denote ----------

  /** `bytes` cut to the range; empty when the range does not lie within the bytes. */
  function Slice(bytes: seq<byte>, r: Range): seq<byte> {
    if r.lo <= r.hi <= |bytes| then bytes[r.lo..r.hi] else []
  }

  function ActivePiece(layer: Layer, chunk: Chunk): Piece {
    Piece(chunk.fileRange.lo, Slice(layer.data, chunk.layerRange))
  }

  function ActiveLog(layer: Layer): seq<Piece> {
    seq(|layer.chunks|, i requires 0 <= i < |layer.chunks| => ActivePiece(layer, layer.chunks[i]))
  }

  /** Both ranges of a chunk have the same length; true of every chunk ever written. */
  predicate Matched(layerRange: Range, fileRange: Range) {
    && layerRange.lo <= layerRange.hi
    && fileRange.lo <= fileRange.hi
    && layerRange.Length() == fileRange.Length()
  }

  predicate WellMatched(layer: Layer) {
    forall i :: 0 <= i < |layer.chunks| ==>
      Matched(layer.chunks[i].layerRange, layer.chunks[i].fileRange) && !layer.chunks[i].flushed
  }

  /** Chunk `i` is not empty and starts where the chunk before it stops. */
  predicate TiledAt(chunks: seq<Chunk>, i: nat)
    requires i < |chunks|
  {
    && chunks[i].layerRange.lo == (if i == 0 then 0 else chunks[i - 1].layerRange.hi)
    && !chunks[i].layerRange.IsEmpty()
  }

  /** The layer ranges are consecutive, non-empty, and cover the data exactly. */
  predicate Tiled(layer: Layer) {
    && WellMatched(layer)
    && (forall i :: 0 <= i < |layer.chunks| ==> TiledAt(layer.chunks, i))
    && LayerEnd(layer) == |layer.data|
    && layer.size == |layer.data|
  }

  lemma {:induction false} TiledBound(layer: Layer, i: nat)
    requires Tiled(layer) && i < |layer.chunks|
    ensures layer.chunks[i].layerRange.hi <= |layer.data|
    decreases |layer.chunks| - i
  {
    if i + 1 < |layer.chunks| {
      assert TiledAt(layer.chunks, i + 1);
      TiledBound(layer, i + 1);
    }
  }

  lemma {:induction false} TiledOrder(layer: Layer, i: nat, j: nat)
    requires Tiled(layer) && i < j < |layer.chunks|
    ensures layer.chunks[i].layerRange.hi <= layer.chunks[j].layerRange.lo
    decreases j - i
  {
    assert TiledAt(layer.chunks, j) && TiledAt(layer.chunks, j - 1);
    if i + 1 < j {
      TiledOrder(layer, i, j - 1);
    }
  }

  /** Tiling implies what the EXCLUDE constraint on the chunks table asks for. */
  lemma TiledChunksDisjoint(layer: Layer, i: nat, j: nat)
    requires Tiled(layer) && i < |layer.chunks| && j < |layer.chunks| && i != j
    ensures !RangesOverlap(layer.chunks[i].layerRange, layer.chunks[j].layerRange)
  {
    if i < j {
      TiledOrder(layer, i, j);
    } else {
      TiledOrder(layer, j, i);
    }
  }

  /** Every layer offset below the data's end belongs to one of the chunks. */
  lemma {:induction false} TiledCovers(layer: Layer, p: nat) returns (i: nat)
    requires Tiled(layer) && p < |layer.data|
    ensures i < |layer.chunks| && layer.chunks[i].layerRange.lo <= p < layer.chunks[i].layerRange.hi
  {
    i := |layer.chunks| - 1;
    while layer.chunks[i].layerRange.lo > p
      invariant 0 <= i < |layer.chunks|
      invariant p < layer.chunks[i].layerRange.hi
      decreases i
    {
      assert TiledAt(layer.chunks, i);
      i := i - 1;
    }
  }

  lemma {:induction false} TiledEnds(layer: Layer)
    requires Tiled(layer)
    ensures ChunkEnd(layer.chunks) == End(ActiveLog(layer))
  {
    TiledPrefixEnds(layer, |layer.chunks|);
    assert layer.chunks[..|layer.chunks|] == layer.chunks;
    assert ActiveLog(layer)[..|layer.chunks|] == ActiveLog(layer);
  }

  lemma {:induction false} TiledPrefixEnds(layer: Layer, n: nat)
    requires Tiled(layer) && n <= |layer.chunks|
    ensures ChunkEnd(layer.chunks[..n]) == End(ActiveLog(layer)[..n])
  {
    if n > 0 {
      TiledPrefixEnds(layer, n - 1);
      TiledBound(layer, n - 1);
      assert layer.chunks[..n][..n - 1] == layer.chunks[..n - 1];
      assert ActiveLog(layer)[..n][..n - 1] == ActiveLog(layer)[..n - 1];
    }
  }

  // ---------- Appending ----------

  /** Appending keeps the tiling exactly when it appends something, where the data ends. */
  lemma AppendTiledIff(layer: Layer, start: nat, at: nat, bytes: seq<byte>)
    requires WellMatched(layer) && layer.size == LayerEnd(layer)
    ensures Tiled(AppendChunk(layer, start, at, bytes)) <==>
            Tiled(layer) && start == |layer.data| && bytes != []
  {
    var grown := AppendChunk(layer, start, at, bytes);
    var n := |layer.chunks|;
    assert grown.chunks[n].layerRange == Range(start, start + |bytes|);
    assert forall i :: 0 <= i < n ==> grown.chunks[i] == layer.chunks[i];
    assert TiledAt(grown.chunks, n) <==> start == LayerEnd(layer) && bytes != [];
    assert forall i :: 0 <= i < n ==> (TiledAt(grown.chunks, i) <==> TiledAt(layer.chunks, i));
    if Tiled(grown) {
      forall i | 0 <= i < n ensures TiledAt(layer.chunks, i) {
        assert TiledAt(grown.chunks, i);
      }
      assert forall i :: 0 <= i < n ==> Matched(grown.chunks[i].layerRange, grown.chunks[i].fileRange);
    }
  }

  lemma AppendLog(layer: Layer, at: nat, bytes: seq<byte>)
    requires Tiled(layer)
    ensures ActiveLog(AppendChunk(layer, |layer.data|, at, bytes)) == ActiveLog(layer) + [Piece(at, bytes)]
  {
    var grown := AppendChunk(layer, |layer.data|, at, bytes);
    var n := |layer.chunks|;
    assert grown.data[|layer.data|..|layer.data| + |bytes|] == bytes;
    forall i | 0 <= i < n ensures ActiveLog(grown)[i] == ActiveLog(layer)[i] {
      TiledBound(layer, i);
      assert grown.chunks[i] == layer.chunks[i];
      var r := layer.chunks[i].layerRange;
      assert grown.data[r.lo..r.hi] == layer.data[r.lo..r.hi];
    }
  }

  lemma WriteWellMatched(rule: Rule, layer: Layer, fileSize: nat, offset: nat, data: seq<byte>)
    requires WellMatched(layer)
    ensures WellMatched(LayerWrite(rule, layer, fileSize, offset, data))
    ensures LayerWrite(rule, layer, fileSize, offset, data).size
         == LayerEnd(LayerWrite(rule, layer, fileSize, offset, data))
  {
  }

  // ---------- When a write does what it promises ----------

  /**
   The guard of the two defects, checkable before the call: the write is not empty and either needs
   no gap, or the gap chunk starts where the zeroes go and only zeroes lie where it is painted.
   */
  predicate SafeWrite(rule: Rule, flat: seq<byte>, layer: Layer, fileSize: nat, offset: nat, data: seq<byte>) {
    && data != []
    && (offset > fileSize ==>
          && GapStart(rule, layer) == |layer.data|
          && forall p :: fileSize <= p < Min(offset, |flat|) ==> flat[p] == 0)
  }

  /** A zero-fill followed by the write proper, position by position. */
  lemma GapThenWrite(flat: seq<byte>, size: nat, offset: nat, data: seq<byte>, p: nat)
    requires size <= |flat| && size < offset && data != []
    ensures var left := Write(Write(flat, size, Zeros(offset - size)), offset, data);
            var right := Write(flat, offset, data);
            && |left| == |right|
            && (p < |left| ==> left[p] == if size <= p < offset then 0 else right[p])
  {
    var zeros := Zeros(offset - size);
    var mid := Write(flat, size, zeros);
    WriteSpecified(flat, size, zeros);
    assert forall i :: size <= i < offset ==> mid[i] == mid[size..size + |zeros|][i - size];
    WriteSpecified(mid, offset, data);
    WriteSpecified(flat, offset, data);
    var left, right := Write(mid, offset, data), Write(flat, offset, data);
    if offset <= p < offset + |data| {
      assert left[p] == left[offset..offset + |data|][p - offset];
      assert right[p] == right[offset..offset + |data|][p - offset];
    }
  }

  /** Zeroing a stretch changes nothing exactly when it was zero. */
  lemma ZeroedExact(left: seq<byte>, right: seq<byte>, lo: nat, hi: nat)
    requires |left| == |right| && hi <= |right|
    requires forall p :: 0 <= p < |left| ==> left[p] == if lo <= p < hi then 0 else right[p]
    ensures left == right <==> forall p :: lo <= p < hi ==> right[p] == 0
  {
    if left == right {
      forall p | lo <= p < hi ensures right[p] == 0 {
        assert left[p] == 0;
      }
    }
  }

  /** So the two together are the flat write exactly when only zeroes were painted over. */
  lemma GapThenWriteExact(flat: seq<byte>, size: nat, offset: nat, data: seq<byte>)
    requires size <= |flat| && size < offset && data != []
    ensures Write(Write(flat, size, Zeros(offset - size)), offset, data) == Write(flat, offset, data) <==>
            forall p :: size <= p < Min(offset, |flat|) ==> flat[p] == 0
  {
    var left, right := Write(Write(flat, size, Zeros(offset - size)), offset, data), Write(flat, offset, data);
    assert |right| == Max(|flat|, offset + |data|) &&
           forall p :: 0 <= p < offset ==> right[p] == if p < |flat| then flat[p] else 0 by {
      WriteSpecified(flat, offset, data);
    }
    assert |left| == |right| &&
           forall p :: 0 <= p < |left| ==> left[p] == if size <= p < offset then 0 else right[p] by {
      forall p: nat
        ensures |left| == |right| && (p < |left| ==> left[p] == if size <= p < offset then 0 else right[p])
      {
        GapThenWrite(flat, size, offset, data, p);
      }
    }
    hide FlatFile.Write, Zeros;
    ZeroedExact(left, right, size, offset);
  }

  /** A write with no gap to fill: exact but for the empty one. */
  lemma PlainWriteExact(base: seq<Piece>, layer: Layer, offset: nat, data: seq<byte>)
    requires Tiled(layer) && Contiguous(base + ActiveLog(layer))
    requires offset <= End(base + ActiveLog(layer))
    ensures var log := base + ActiveLog(layer);
            var layer' := AppendChunk(layer, |layer.data|, offset, data);
            && (Tiled(layer') <==> data != [])
            && (data != [] ==> Contents(base + ActiveLog(layer')) == Write(Contents(log), offset, data))
            && (data != [] ==> Contiguous(base + ActiveLog(layer')))
  {
    AppendTiledIff(layer, |layer.data|, offset, data);
    if data != [] {
      AppendLog(layer, offset, data);
      AppendIsWrite(base + ActiveLog(layer), Piece(offset, data));
      assert base + ActiveLog(AppendChunk(layer, |layer.data|, offset, data))
          == base + ActiveLog(layer) + [Piece(offset, data)];
    }
  }

  /**
   Exactly when a write to the active layer is the flat write: for any committed pieces `base`
   below the layer, under either rule, for every offset and every data, the empty one included.
   */
  lemma WriteExact(rule: Rule, base: seq<Piece>, layer: Layer, fileSize: nat, offset: nat, data: seq<byte>)
    requires Tiled(layer) && Contiguous(base + ActiveLog(layer))
    requires fileSize <= End(base + ActiveLog(layer))
    ensures var flat := Contents(base + ActiveLog(layer));
            var layer' := LayerWrite(rule, layer, fileSize, offset, data);
            (Tiled(layer') && Contents(base + ActiveLog(layer')) == Write(flat, offset, data))
            <==> SafeWrite(rule, flat, layer, fileSize, offset, data)
    ensures var layer' := LayerWrite(rule, layer, fileSize, offset, data);
            Tiled(layer') ==> Contiguous(base + ActiveLog(layer'))
  {
    hide Contiguous, Contents, ActiveLog, FlatFile.Write;
    if offset <= fileSize {
      PlainWriteExact(base, layer, offset, data);
    } else {
      var zeros := Zeros(offset - fileSize);
      var grown := AppendChunk(layer, GapStart(rule, layer), fileSize, zeros);
      AppendTiledIff(layer, GapStart(rule, layer), fileSize, zeros);
      AppendTiledIff(grown, LayerEnd(grown), offset, data);
      if Tiled(grown) {
        PlainWriteExact(base, layer, fileSize, zeros);
        WriteSpecified(Contents(base + ActiveLog(layer)), fileSize, zeros);
        PlainWriteExact(base, grown, offset, data);
        if data != [] {
          GapThenWriteExact(Contents(base + ActiveLog(layer)), fileSize, offset, data);
        }
      }
    }
  }
}
