/**
 Where the shipped formulas depart from the documented ones, and what comes of it: concrete inputs,
 and for each defect the whole family of inputs it affects.
 */
module Defects {
  import opened FlatFile
  import opened Overlay
  import opened Layers
  import opened Tables
  import opened Reads
  import opened Machine
  import opened Stored
  import opened Refinement
  import opened CheckpointRun
  import opened Atomicity
  import opened Consequences

  // ---------- The gap chunk's layer offset ----------

  /**
   A gap chunk placed by the last chunk's file offset, where that differs from the end of the data,
   makes a layer that cannot be flushed and read back as it stands: either two of its layer ranges
   overlap, so the EXCLUDE constraint rejects it, or its last chunk reaches past the data, so the
   object would not have all of its bytes.  Later writes may undo both, and then the damage is silent.
   */
  lemma BrokenGap(layer: Layer, fileSize: nat, offset: nat, data: seq<byte>)
    requires Tiled(layer) && offset > fileSize
    requires GapStart(Shipped, layer) != |layer.data|
    ensures var grown := LayerWrite(Shipped, layer, fileSize, offset, data);
            var last := grown.chunks[|grown.chunks| - 1];
            !Disjoint(grown.chunks) || last.layerRange.hi > |grown.data|
  {
    var start := GapStart(Shipped, layer);
    var grown := LayerWrite(Shipped, layer, fileSize, offset, data);
    var n := |layer.chunks|;
    if start < |layer.data| {
      var i := TiledCovers(layer, start);
      assert grown.chunks[i] == layer.chunks[i];
      assert grown.chunks[n].layerRange == Range(start, start + (offset - fileSize));
      assert SqlOverlap(grown.chunks[i].layerRange, grown.chunks[n].layerRange);
    }
  }

  /** A committed chunk is fetched exactly when its range lies in the object and has two bytes or more. */
  lemma FetchExact(t: Tables, objects: Objects, chunk: Chunk)
    requires chunk.layerId in t.layers && t.layers[chunk.layerId].objectKey != ""
    requires t.layers[chunk.layerId].objectKey in objects
    ensures FetchCommitted(t, objects, chunk).Got? <==>
            chunk.layerRange.hi <= |ObjectBytes(t, objects, chunk.layerId)| && chunk.layerRange.Length() >= 2
    ensures FetchCommitted(t, objects, chunk).Got? ==>
            FetchCommitted(t, objects, chunk).data == Slice(ObjectBytes(t, objects, chunk.layerId), chunk.layerRange)
  {
  }

  // ---------- What becomes of a broken layer ----------

  /** Chunks are only added, and what is not tiled does not become so. */
  ghost predicate Onward(layer: Layer, layer': Layer) {
    && layer.chunks <= layer'.chunks
    && (Tiled(layer') ==> Tiled(layer))
  }

  lemma OnwardAppend(layer: Layer, start: nat, at: nat, bytes: seq<byte>)
    requires WellMatched(layer) && layer.size == LayerEnd(layer)
    ensures var layer' := AppendChunk(layer, start, at, bytes);
            WellMatched(layer') && layer'.size == LayerEnd(layer') && Onward(layer, layer')
  {
    AppendTiledIff(layer, start, at, bytes);
  }

  lemma OnwardWrite(rule: Rule, layer: Layer, fileSize: nat, offset: nat, data: seq<byte>)
    requires WellMatched(layer) && layer.size == LayerEnd(layer)
    ensures Onward(layer, LayerWrite(rule, layer, fileSize, offset, data))
  {
    hide Tiled, AppendChunk, WellMatched;
    var grown := layer;
    if offset > fileSize {
      grown := AppendChunk(layer, GapStart(rule, layer), fileSize, Zeros(offset - fileSize));
      OnwardAppend(layer, GapStart(rule, layer), fileSize, Zeros(offset - fileSize));
    }
    OnwardAppend(grown, LayerEnd(grown), offset, data);
  }

  lemma ActiveOk(s: State, f: nat)
    requires Intact(s)
    ensures WellMatched(Active(s, f)) && Active(s, f).size == LayerEnd(Active(s, f))
    ensures Active(s, f) != EMPTY_LAYER ==> f in s.t.files.Values
  {
  }

  lemma OnwardStep(rule: Rule, s: State, e: Event, f: nat)
    requires Intact(s) && !DropsLayer(s, e, f)
    ensures Onward(Active(s, f), Active(Apply(rule, s, e), f))
  {
    hide Intact, Apply, Tiled, Active, DropsLayer, CalcSizeOf, LayerWrite, HeadVersion, WellMatched;
    if Accepted(rule, s, e) && s.t.files[e.name] == f {
      ActiveOk(s, f);
      AcceptedWriteLayer(rule, s, e);
      OnwardWrite(rule, Active(s, f), CalcSizeOf(rule, s.t, Active(s, f), f, e.faults).bytes, e.offset, e.data);
    } else {
      ActiveStep(rule, s, e, f);
    }
  }

  lemma {:induction false} OnwardRun(rule: Rule, s: State, es: seq<Event>, f: nat)
    requires Intact(s) && KeepsLayer(rule, s, es, f)
    ensures Onward(Active(s, f), Active(Run(rule, s, es), f))
    decreases |es|
  {
    if es != [] {
      hide Intact, Apply, Active, Tiled, DropsLayer;
      StepIntact(rule, s, es[0]);
      OnwardStep(rule, s, es[0], f);
      OnwardRun(rule, Apply(rule, s, es[0]), es[1..], f);
    }
  }

  /**
   No later write repairs it: until the layer is dropped after its commit, or lost in a crash, a layer
   that is not tiled stays so, and the file refines no history of writes whatever.
   */
  lemma UntiledForever(rule: Rule, s: State, es: seq<Event>, f: nat, g: Books)
    requires Intact(s) && KeepsLayer(rule, s, es, f) && !Tiled(Active(s, f))
    ensures !Tiled(Active(Run(rule, s, es), f))
    ensures !RefinesAt(Run(rule, s, es), g, f)
  {
    var s' := Run(rule, s, es);
    assert Tiled(EMPTY_LAYER);
    hide Intact, Run, FileOk, Tiled, Active;
    OnwardRun(rule, s, es, f);
    RunIntact(rule, s, es);
    ActiveOk(s', f);
    if RefinesAt(s', g, f) {
      ActiveTiled(s', g, f);
    }
  }

  // ---------- What a caller sees of it ----------

  lemma LastChunk(rule: Rule, layer: Layer, fileSize: nat, offset: nat, data: seq<byte>)
    ensures var chunks := LayerWrite(rule, layer, fileSize, offset, data).chunks;
            && chunks != []
            && chunks[|chunks| - 1].fileRange == Range(offset, offset + |data|)
            && chunks[|chunks| - 1].layerRange.hi == chunks[|chunks| - 1].layerRange.lo + |data|
            && !chunks[|chunks| - 1].flushed
  {
  }

  /** The newest chunk, covering the whole window, decides the bytes of a read that answers. */
  lemma NewestDecides(t: Tables, objects: Objects, layer: Layer, spare: seq<byte>, faults: set<Call>, f: nat,
                      offset: nat, size: nat)
    requires size > 0 && layer.chunks != []
    requires var last := layer.chunks[|layer.chunks| - 1];
             && last.fileRange == Range(offset, offset + size) && !last.flushed
             && last.layerRange.hi == last.layerRange.lo + size
    requires ReadBelow(t, objects, layer, spare, faults, f, 0, offset, size).Bytes?
    ensures var r := layer.chunks[|layer.chunks| - 1].layerRange;
            && r.hi <= |layer.data + spare|
            && ReadBelow(t, objects, layer, spare, faults, f, 0, offset, size).bytes == (layer.data + spare)[r.lo..r.hi]
  {
    var last := layer.chunks[|layer.chunks| - 1];
    hide Selected, ReadBelow;
    var older := NewestLast(t, layer, f, Range(offset, offset + size));
    var sel := older + [last];
    assert Fetch(t, objects, layer, spare, faults, sel, |older|) == FetchActive(layer, spare, last);
    NewestRead(t, objects, layer, spare, faults, f, older, last, offset, size);
  }

  /** The newest chunk, if it overlaps the window, is selected last. */
  lemma NewestLast(t: Tables, layer: Layer, f: nat, range: Range) returns (older: seq<Chunk>)
    requires layer.chunks != [] && RangesOverlap(layer.chunks[|layer.chunks| - 1].fileRange, range)
    ensures Selected(t, layer, f, 0, range) == older + [layer.chunks[|layer.chunks| - 1]]
  {
    hide FileRows, SelectOverlapping;
    older := ToChunks(OverlappingRows(t, f, 0, range)) + ActiveOverlapping(layer.chunks[..|layer.chunks| - 1], range);
  }

  lemma NewestRead(t: Tables, objects: Objects, layer: Layer, spare: seq<byte>, faults: set<Call>, f: nat,
                   older: seq<Chunk>, last: Chunk, offset: nat, size: nat)
    requires size > 0 && last.fileRange == Range(offset, offset + size)
    requires last.layerRange.hi == last.layerRange.lo + size
    requires Selected(t, layer, f, 0, Range(offset, offset + size)) == older + [last]
    requires Fetch(t, objects, layer, spare, faults, older + [last], |older|) == FetchActive(layer, spare, last)
    requires ReadBelow(t, objects, layer, spare, faults, f, 0, offset, size).Bytes?
    ensures var r := last.layerRange;
            && r.hi <= |layer.data + spare|
            && ReadBelow(t, objects, layer, spare, faults, f, 0, offset, size).bytes == (layer.data + spare)[r.lo..r.hi]
  {
    hide Selected, Fetch, FetchedPieces, ChunkEnd, Cut;
    var sel, m := older + [last], |older|;
    var fetched := FetchAll(t, objects, layer, spare, faults, sel);
    assert sel[m] == last && fetched[m] == FetchActive(layer, spare, last);
    ChunkEndBound(sel, m);
    FetchedShorter(sel, fetched);
    forall i | 0 <= i < |fetched| ensures fetched[i].Got? {
      if !fetched[i].Got? {
        FetchedAllGot(sel, fetched, i);
      }
    }
    FetchedUpTo(sel, fetched, |sel|);
    var pieces := FetchedPieces(sel, fetched);
    assert pieces[m] == Piece(offset, fetched[m].data);
    LastWins(pieces, offset, size);
  }

  /** Where the newest piece covers everything, the rest does not show. */
  lemma LastWins(pieces: seq<Piece>, offset: nat, size: nat)
    requires pieces != [] && pieces[|pieces| - 1].at == offset && |pieces[|pieces| - 1].bytes| == size
    ensures Cut(pieces, offset, size) == pieces[|pieces| - 1].bytes
  {
    var a, b := Cut(pieces, offset, size), pieces[|pieces| - 1].bytes;
    forall i | 0 <= i < |a| ensures a[i] == b[i] {
      assert Covers(pieces[|pieces| - 1], offset + i);
      assert a[i] == ByteAt(pieces, offset + i);
    }
  }

  lemma HeadlessRead(s: State, name: string, pick: nat, spare: seq<byte>, faults: set<Call>, offset: nat, size: nat)
    requires name in s.t.files && (HeadQuery in faults || HeadVersion(s.t, s.t.files[name]).None?)
    requires ReadFile(s.t, s.objects, s.memtable, name, pick, spare, faults, offset, size).Bytes?
    ensures ReadFile(s.t, s.objects, s.memtable, name, pick, spare, faults, offset, size)
         == ReadBelow(s.t, s.objects, Active(s, s.t.files[name]), spare, faults, s.t.files[name], 0, offset, size)
  {
    hide ReadBelow, HeadVersion;
  }

  /**
   Reading back what was just written, in any state whatever: if the read answers, it answers the bytes
   the newest chunk's layer range points at.  They are the bytes written where that range ends with the
   layer's data, as in a tiled layer; after a broken gap it does not.
   */
  lemma ReadYourWrite(rule: Rule, s: State, e: Event, pick: nat, spare: seq<byte>, faults: set<Call>)
    requires Accepted(rule, s, e) && e.data != []
    requires HeadQuery in faults || HeadVersion(s.t, s.t.files[e.name]).None?
    requires var s' := Apply(rule, s, e);
             ReadFile(s'.t, s'.objects, s'.memtable, e.name, pick, spare, faults, e.offset, |e.data|).Bytes?
    ensures var s' := Apply(rule, s, e);
            var layer := Active(s', s.t.files[e.name]);
            && layer.chunks != []
            && var r := layer.chunks[|layer.chunks| - 1].layerRange;
               var reply := ReadFile(s'.t, s'.objects, s'.memtable, e.name, pick, spare, faults, e.offset, |e.data|);
               && r.lo <= r.hi <= |layer.data + spare|
               && reply.bytes == (layer.data + spare)[r.lo..r.hi]
               && (r.hi == |layer.data| ==> reply.bytes == e.data)
  {
    hide Apply, CalcSizeOf, LayerWrite, ReadFile, ReadBelow, HeadVersion, Active, Accepted;
    assert e.WriteFile? && e.name in s.t.files by { AcceptedKnown(rule, s, e); }
    AcceptedWriteLayer(rule, s, e);
    var s', f := Apply(rule, s, e), s.t.files[e.name];
    var size := CalcSizeOf(rule, s.t, Active(s, f), f, e.faults).bytes;
    var layer := Active(s', f);
    LastChunk(rule, Active(s, f), size, e.offset, e.data);
    LastData(rule, Active(s, f), size, e.offset, e.data);
    HeadlessRead(s', e.name, pick, spare, faults, e.offset, |e.data|);
    NewestDecides(s'.t, s'.objects, layer, spare, faults, f, e.offset, |e.data|);
    var r := layer.chunks[|layer.chunks| - 1].layerRange;
    if r.hi == |layer.data| {
      TailSlice(layer.data, spare, r.lo, e.data);
    }
  }

  lemma TailSlice(data: seq<byte>, spare: seq<byte>, lo: nat, tail: seq<byte>)
    requires lo + |tail| == |data| && data[|data| - |tail|..] == tail
    ensures (data + spare)[lo..|data|] == tail
  {
    assert (data + spare)[lo..|data|] == data[lo..];
  }

  lemma LastData(rule: Rule, layer: Layer, fileSize: nat, offset: nat, data: seq<byte>)
    ensures var layer' := LayerWrite(rule, layer, fileSize, offset, data);
            |layer'.data| >= |data| && layer'.data[|layer'.data| - |data|..] == data
  {
  }

  // ---------- When a layer can be flushed and fetched ----------

  function TotalLength(chunks: seq<Chunk>): nat {
    if chunks == [] then 0
    else TotalLength(chunks[..|chunks| - 1]) + chunks[|chunks| - 1].layerRange.Length()
  }

  /** As many bytes of data as the layer ranges are long together; true of every layer ever written. */
  predicate Measured(layer: Layer) {
    TotalLength(layer.chunks) == |layer.data|
  }

  /** Every chunk's bytes are there. */
  predicate Within(layer: Layer) {
    forall i :: 0 <= i < |layer.chunks| ==> layer.chunks[i].layerRange.hi <= |layer.data|
  }

  predicate InChunk(chunks: seq<Chunk>, i: nat, p: nat)
    requires i < |chunks|
  {
    chunks[i].layerRange.lo <= p < chunks[i].layerRange.hi
  }

  /** Exactly one chunk has layer offset `p`. */
  predicate CoveredOnce(chunks: seq<Chunk>, p: nat) {
    exists i: nat :: i < |chunks| && InChunk(chunks, i, p)
                     && forall j: nat :: j < |chunks| && InChunk(chunks, j, p) ==> j == i
  }

  /** The non-empty layer ranges partition the data: in some order, not always this one, they tile it. */
  predicate Partitions(layer: Layer) {
    forall p: nat :: p < |layer.data| ==> CoveredOnce(layer.chunks, p)
  }

  function Positions(lo: nat, hi: nat): set<nat> {
    if hi <= lo then {} else Positions(lo, hi - 1) + {hi - 1}
  }

  lemma {:induction false} InPositions(lo: nat, hi: nat, p: nat)
    ensures p in Positions(lo, hi) <==> lo <= p < hi
  {
    if lo < hi {
      InPositions(lo, hi - 1, p);
    }
  }

  function ChunkPositions(chunks: seq<Chunk>): set<nat> {
    if chunks == [] then {}
    else
      var r := chunks[|chunks| - 1].layerRange;
      ChunkPositions(chunks[..|chunks| - 1]) + Positions(r.lo, r.hi)
  }

  lemma {:induction false} PositionsCount(lo: nat, hi: nat)
    ensures |Positions(lo, hi)| == Range(lo, hi).Length()
  {
    if lo < hi {
      PositionsCount(lo, hi - 1);
      InPositions(lo, hi - 1, hi - 1);
    }
  }

  lemma {:induction false} PositionsIn(chunks: seq<Chunk>, p: nat)
    ensures p in ChunkPositions(chunks) <==> exists i: nat :: i < |chunks| && InChunk(chunks, i, p)
  {
    if chunks != [] {
      var n := |chunks| - 1;
      PositionsIn(chunks[..n], p);
      InPositions(chunks[n].layerRange.lo, chunks[n].layerRange.hi, p);
      if i: nat :| i < n && InChunk(chunks[..n], i, p) {
        assert InChunk(chunks, i, p);
      }
      if i: nat :| i < |chunks| && InChunk(chunks, i, p) {
        assert i < n ==> InChunk(chunks[..n], i, p);
        assert i == n ==> p in Positions(chunks[n].layerRange.lo, chunks[n].layerRange.hi);
      }
      if p in Positions(chunks[n].layerRange.lo, chunks[n].layerRange.hi) {
        assert InChunk(chunks, n, p);
      }
    }
  }

  /** Disjoint chunks have as many positions as they are long. */
  lemma {:induction false} DisjointCount(chunks: seq<Chunk>)
    requires Disjoint(chunks)
    ensures |ChunkPositions(chunks)| == TotalLength(chunks)
  {
    if chunks != [] {
      var n := |chunks| - 1;
      var r := chunks[n].layerRange;
      DisjointCount(chunks[..n]);
      PositionsCount(r.lo, r.hi);
      forall p | p in ChunkPositions(chunks[..n]) ensures p !in Positions(r.lo, r.hi) {
        PositionsIn(chunks[..n], p);
        InPositions(r.lo, r.hi, p);
        var i: nat :| i < n && InChunk(chunks[..n], i, p);
        assert !SqlOverlap(chunks[i].layerRange, r);
      }
    }
  }

  lemma FullSet(small: set<nat>, big: set<nat>)
    requires small <= big && |small| == |big|
    ensures small == big
  {
    if p :| p in big && p !in small {
      assert small <= big - {p};
      SubsetCount(small, big - {p});
    }
  }

  lemma {:induction false} SubsetCount(small: set<nat>, big: set<nat>)
    requires small <= big
    ensures |small| <= |big|
  {
    if p :| p in small {
      SubsetCount(small - {p}, big - {p});
    }
  }

  lemma DisjointCovers(layer: Layer, p: nat)
    requires Measured(layer) && Within(layer) && Disjoint(layer.chunks) && p < |layer.data|
    ensures exists i: nat :: i < |layer.chunks| && InChunk(layer.chunks, i, p)
  {
    hide ChunkPositions, TotalLength;
    var n := |layer.data|;
    DisjointCount(layer.chunks);
    PositionsCount(0, n);
    forall q | q in ChunkPositions(layer.chunks) ensures q in Positions(0, n) {
      PositionsIn(layer.chunks, q);
      InPositions(0, n, q);
    }
    InPositions(0, n, p);
    FullSet(ChunkPositions(layer.chunks), Positions(0, n));
    PositionsIn(layer.chunks, p);
  }

  /**
   When a layer can be flushed with all its chunks within its object: exactly when its non-empty layer
   ranges partition the data.  So if it is not tiled, its chunks are out of place, not missing.
   */
  lemma PartitionExact(layer: Layer)
    requires Measured(layer) && Within(layer)
    ensures Disjoint(layer.chunks) <==> Partitions(layer)
  {
    var chunks := layer.chunks;
    if Disjoint(chunks) {
      forall p: nat | p < |layer.data| ensures CoveredOnce(chunks, p) {
        DisjointCovers(layer, p);
        var i: nat :| i < |chunks| && InChunk(chunks, i, p);
        forall j: nat | j < |chunks| && InChunk(chunks, j, p) ensures j == i {
          assert i < j ==> !SqlOverlap(chunks[i].layerRange, chunks[j].layerRange);
          assert j < i ==> !SqlOverlap(chunks[j].layerRange, chunks[i].layerRange);
        }
      }
    }
    if Partitions(layer) {
      forall i, j | 0 <= i < j < |chunks| ensures !SqlOverlap(chunks[i].layerRange, chunks[j].layerRange) {
        if SqlOverlap(chunks[i].layerRange, chunks[j].layerRange) {
          var p := Max(chunks[i].layerRange.lo, chunks[j].layerRange.lo);
          assert InChunk(chunks, i, p) && InChunk(chunks, j, p) && CoveredOnce(chunks, p);
        }
      }
    }
  }

  lemma MeasuredAppend(layer: Layer, start: nat, at: nat, bytes: seq<byte>)
    requires Measured(layer)
    ensures Measured(AppendChunk(layer, start, at, bytes))
  {
    assert AppendChunk(layer, start, at, bytes).chunks[..|layer.chunks|] == layer.chunks;
  }

  lemma MeasuredWrite(rule: Rule, layer: Layer, fileSize: nat, offset: nat, data: seq<byte>)
    requires Measured(layer)
    ensures Measured(LayerWrite(rule, layer, fileSize, offset, data))
  {
    hide Measured, AppendChunk;
    var grown := layer;
    if offset > fileSize {
      grown := AppendChunk(layer, GapStart(rule, layer), fileSize, Zeros(offset - fileSize));
      MeasuredAppend(layer, GapStart(rule, layer), fileSize, Zeros(offset - fileSize));
    }
    MeasuredAppend(grown, LayerEnd(grown), offset, data);
  }

  ghost predicate AllMeasured(s: State) {
    forall f :: Measured(Active(s, f))
  }

  lemma MeasuredStep(rule: Rule, s: State, e: Event, f: nat)
    requires Measured(Active(s, f))
    ensures Measured(Active(Apply(rule, s, e), f))
  {
    hide Apply, Measured, Active, CalcSizeOf, LayerWrite, HeadVersion;
    if Accepted(rule, s, e) && s.t.files[e.name] == f {
      AcceptedWriteLayer(rule, s, e);
      MeasuredWrite(rule, Active(s, f), CalcSizeOf(rule, s.t, Active(s, f), f, e.faults).bytes, e.offset, e.data);
    } else if DropsLayer(s, e, f) {
      DroppedLayer(rule, s, e, f);
    } else {
      ActiveStep(rule, s, e, f);
    }
  }

  lemma DroppedLayer(rule: Rule, s: State, e: Event, f: nat)
    requires DropsLayer(s, e, f)
    ensures Active(Apply(rule, s, e), f) == EMPTY_LAYER && Measured(EMPTY_LAYER)
  {
  }

  lemma {:induction false} MeasuredRun(rule: Rule, s: State, es: seq<Event>)
    requires AllMeasured(s)
    ensures AllMeasured(Run(rule, s, es))
    decreases |es|
  {
    if es != [] {
      hide Apply, Measured, Active;
      forall f: nat ensures Measured(Active(Apply(rule, s, es[0]), f)) {
        MeasuredStep(rule, s, es[0], f);
      }
      MeasuredRun(rule, Apply(rule, s, es[0]), es[1..]);
    }
  }

  /** Of every run from the empty system. */
  lemma FlushablePartition(rule: Rule, es: seq<Event>, f: nat)
    requires Within(Active(Run(rule, INITIAL, es), f))
    ensures var layer := Active(Run(rule, INITIAL, es), f);
            Disjoint(layer.chunks) <==> Partitions(layer)
  {
    assert AllMeasured(INITIAL);
    hide Run, Active, Within, Disjoint, Partitions;
    MeasuredRun(rule, INITIAL, es);
    PartitionExact(Active(Run(rule, INITIAL, es), f));
  }
}
