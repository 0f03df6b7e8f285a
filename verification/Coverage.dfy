/**
 No holes, over every run of the shipped code: whatever is written, lost or crashed, the file ranges of
 a file's chunks leave no position below their highest end uncovered, in the latest contents and in
 every version.  So every read that succeeds has the exact length.
 */
module Coverage {
  import opened FlatFile
  import opened Overlay
  import opened Layers
  import opened Tables
  import opened Reads
  import opened Machine
  import opened Stored
  import opened Isolation
  import opened Atomicity

  /** A file range, as a piece whose bytes do not matter. */
  function Extent(r: Range): Piece {
    Piece(r.lo, Zeros(r.Length()))
  }

  function RowExtents(rows: seq<ChunkRow>): seq<Piece> {
    seq(|rows|, i requires 0 <= i < |rows| => Extent(rows[i].fileRange))
  }

  function ChunkExtents(chunks: seq<Chunk>): seq<Piece> {
    seq(|chunks|, i requires 0 <= i < |chunks| => Extent(chunks[i].fileRange))
  }

  /** The ranges a read may meet: below a version bound, or of everything stored (bound 0). */
  function Extents(t: Tables, layer: Layer, f: nat, bound: nat): seq<Piece> {
    RowExtents(FileRows(t, f, Top(t, bound))) + if bound == 0 then ChunkExtents(layer.chunks) else []
  }

  function LatestExtents(s: State, f: nat): seq<Piece> {
    Extents(s.t, Active(s, f), f, 0)
  }

  ghost predicate AllContiguous(s: State) {
    forall f :: Contiguous(LatestExtents(s, f))
  }

  // ---------- Ends ----------

  lemma {:induction false} ChunkExtentsEnd(chunks: seq<Chunk>)
    requires forall i :: 0 <= i < |chunks| ==> Matched(chunks[i].layerRange, chunks[i].fileRange)
    ensures End(ChunkExtents(chunks)) == ChunkEnd(chunks)
  {
    if chunks != [] {
      var n := |chunks| - 1;
      ChunkExtentsEnd(chunks[..n]);
      assert ChunkExtents(chunks)[..n] == ChunkExtents(chunks[..n]);
    }
  }

  lemma {:induction false} RowExtentsEnd(rows: seq<ChunkRow>)
    requires forall i :: 0 <= i < |rows| ==> Matched(rows[i].layerRange, rows[i].fileRange)
    ensures End(RowExtents(rows)) == RowsEnd(rows)
  {
    if rows != [] {
      var n := |rows| - 1;
      RowExtentsEnd(rows[..n]);
      assert RowExtents(rows)[..n] == RowExtents(rows[..n]);
    }
  }

  lemma RowsMatched(s: State, f: nat, top: nat)
    requires Intact(s)
    ensures forall i :: 0 <= i < |FileRows(s.t, f, top)| ==>
              Matched(FileRows(s.t, f, top)[i].layerRange, FileRows(s.t, f, top)[i].fileRange)
  {
    hide FileRows, Matched;
    var rows := FileRows(s.t, f, top);
    forall i | 0 <= i < |rows| ensures Matched(rows[i].layerRange, rows[i].fileRange) {
      assert rows[i] in rows;
      FileRowsIn(s.t, f, top, rows[i]);
    }
  }

  /** The size a write starts from, under either rule, lies within what is covered. */
  lemma SizeCovered(rule: Rule, s: State, f: nat, faults: set<Call>)
    requires Intact(s) && CalcSizeOf(rule, s.t, Active(s, f), f, faults).Size?
    ensures CalcSizeOf(rule, s.t, Active(s, f), f, faults).bytes <= End(LatestExtents(s, f))
  {
    var rows := AllRows(s, f);
    assert WellMatched(Active(s, f));
    RowsMatched(s, f, s.t.lastLayer);
    hide Intact, FileRows, Matched, End, RowExtents, ChunkExtents, HasEmptyRange;
    RowExtentsEnd(rows);
    ChunkExtentsEnd(Active(s, f).chunks);
    EndConcat(RowExtents(rows), ChunkExtents(Active(s, f).chunks));
  }

  // ---------- Writing ----------

  lemma AppendExtent(base: seq<Piece>, layer: Layer, start: nat, at: nat, bytes: seq<byte>)
    requires Contiguous(base + ChunkExtents(layer.chunks)) && at <= End(base + ChunkExtents(layer.chunks))
    ensures Contiguous(base + ChunkExtents(AppendChunk(layer, start, at, bytes).chunks))
    ensures at + |bytes| <= End(base + ChunkExtents(AppendChunk(layer, start, at, bytes).chunks))
  {
    var log := base + ChunkExtents(layer.chunks);
    var x := Extent(Range(at, at + |bytes|));
    assert base + ChunkExtents(AppendChunk(layer, start, at, bytes).chunks) == log + [x];
    assert (log + [x])[..|log|] == log;
  }

  lemma WriteCovered(rule: Rule, base: seq<Piece>, layer: Layer, fileSize: nat, offset: nat, data: seq<byte>)
    requires Contiguous(base + ChunkExtents(layer.chunks)) && fileSize <= End(base + ChunkExtents(layer.chunks))
    ensures Contiguous(base + ChunkExtents(LayerWrite(rule, layer, fileSize, offset, data).chunks))
  {
    hide Contiguous, End, ChunkExtents, AppendChunk;
    var grown := layer;
    if offset > fileSize {
      grown := AppendChunk(layer, GapStart(rule, layer), fileSize, Zeros(offset - fileSize));
      AppendExtent(base, layer, GapStart(rule, layer), fileSize, Zeros(offset - fileSize));
    }
    AppendExtent(base, grown, LayerEnd(grown), offset, data);
  }

  // ---------- Steps ----------

  lemma StoredExtents(s: State, s': State, f: nat)
    requires AllRows(s', f) == AllRows(s, f) && Active(s', f) == Active(s, f)
    ensures LatestExtents(s', f) == LatestExtents(s, f)
  {
    hide FileRows;
  }

  lemma WriteStep(rule: Rule, s: State, e: Event)
    requires Intact(s) && Accepted(rule, s, e)
    requires Contiguous(LatestExtents(s, s.t.files[e.name]))
    ensures Contiguous(LatestExtents(Apply(rule, s, e), s.t.files[e.name]))
  {
    hide Intact, Accepted, Apply, CalcSizeOf, LayerWrite, Contiguous, RowExtents, ChunkExtents, FileRows, Active, End;
    AcceptedWriteLayer(rule, s, e);
    var f := s.t.files[e.name];
    SizeCovered(rule, s, f, e.faults);
    WriteCovered(rule, RowExtents(AllRows(s, f)), Active(s, f),
                 CalcSizeOf(rule, s.t, Active(s, f), f, e.faults).bytes, e.offset, e.data);
  }

  lemma RowsOfLayerExtents(layerId: nat, chunks: seq<Chunk>)
    ensures RowExtents(ToRows(layerId, chunks)) == ChunkExtents(chunks)
  {
  }

  lemma CommitStep(s: State, e: Event)
    requires Intact(s) && Commits(s, e) && Contiguous(LatestExtents(s, s.stage.fileId))
    ensures Contiguous(LatestExtents(StepCommit(s, e.reply), s.stage.fileId))
  {
    hide Intact, StepCommit, Contiguous, FileRows, RowExtents, ChunkExtents;
    var s', f := StepCommit(s, e.reply), s.stage.fileId;
    CommitShape(s, e);
    CommitRows(s);
    RowsOfLayerExtents(s.stage.layerId, Active(s, f).chunks);
    RowExtentsConcat(AllRows(s, f), s.stage.rows);
    SuffixIdempotent(RowExtents(AllRows(s, f)), ChunkExtents(Active(s, f).chunks));
  }

  lemma RowExtentsConcat(a: seq<ChunkRow>, b: seq<ChunkRow>)
    ensures RowExtents(a + b) == RowExtents(a) + RowExtents(b)
  {
  }

  /** Without its active layer a file is still contiguous. */
  lemma DroppedExtents(s: State, s': State, f: nat)
    requires Contiguous(LatestExtents(s, f)) && AllRows(s', f) == AllRows(s, f) && Active(s', f) == EMPTY_LAYER
    ensures Contiguous(LatestExtents(s', f))
  {
    hide FileRows, Contiguous;
    ContiguousPrefix(RowExtents(AllRows(s, f)), ChunkExtents(Active(s, f).chunks));
    assert ChunkExtents([]) == [] && RowExtents(AllRows(s, f)) + [] == RowExtents(AllRows(s, f));
  }

  lemma SameTables(s: State, s': State, f: nat)
    requires s'.t == s.t
    ensures AllRows(s', f) == AllRows(s, f)
  {
  }

  lemma StepContiguous(rule: Rule, s: State, e: Event, f: nat)
    requires Intact(s) && Contiguous(LatestExtents(s, f))
    ensures Contiguous(LatestExtents(Apply(rule, s, e), f))
  {
    var s' := Apply(rule, s, e);
    hide Intact, Contiguous, LatestExtents, AllRows;
    if !Stores(s, e, f) {
      StepIsolated(rule, s, e, f);
      StoredExtents(s, s', f);
    } else if e.WriteFile? {
      if Accepted(rule, s, e) {
        WriteStep(rule, s, e);
      } else {
        UnalteringWrite(rule, s, e, f);
        SameTables(s, s', f);
        StoredExtents(s, s', f);
      }
    } else if e.Commit? && Commits(s, e) {
      CommitStep(s, e);
    } else if e.Commit? {
      IdleCommit(s, e);
      SameTables(s, s', f);
      StoredExtents(s, s', f);
    } else {
      SameTables(s, s', f);
      if e.Crash? || s.stage.Committed? {
        DroppedExtents(s, s', f);
      } else {
        StoredExtents(s, s', f);
      }
    }
  }

  lemma {:induction false} RunContiguous(rule: Rule, s: State, es: seq<Event>)
    requires Intact(s) && AllContiguous(s)
    ensures AllContiguous(Run(rule, s, es))
    decreases |es|
  {
    if es != [] {
      hide Intact, Apply, LatestExtents, Contiguous;
      StepIntact(rule, s, es[0]);
      forall f: nat ensures Contiguous(LatestExtents(Apply(rule, s, es[0]), f)) {
        StepContiguous(rule, s, es[0], f);
      }
      RunContiguous(rule, Apply(rule, s, es[0]), es[1..]);
    }
  }

  lemma InitiallyContiguous()
    ensures Intact(INITIAL) && AllContiguous(INITIAL)
  {
  }

  /** The bounds a read may use: none, or a committed layer of the file. */
  predicate IsBound(t: Tables, f: nat, bound: nat) {
    bound == 0 || IsLayerOf(t, f, bound)
  }

  lemma BelowExtents(t: Tables, layer: Layer, f: nat, bound: nat) returns (above: seq<Piece>)
    requires 0 < bound <= t.lastLayer
    ensures Extents(t, layer, f, 0) == Extents(t, layer, f, bound) + above
  {
    hide FileRows, RowExtents, ChunkExtents;
    FileRowsPrefix(t, f, bound, t.lastLayer);
    var low, all := FileRows(t, f, bound), FileRows(t, f, t.lastLayer);
    assert all == low + all[|low|..];
    RowExtentsConcat(low, all[|low|..]);
    above := RowExtents(all[|low|..]) + ChunkExtents(layer.chunks);
  }

  /** A version's ranges are a prefix of the latest ones, so they are contiguous too. */
  lemma VersionContiguous(s: State, f: nat, bound: nat)
    requires Intact(s) && AllContiguous(s) && IsBound(s.t, f, bound)
    ensures Contiguous(Extents(s.t, Active(s, f), f, bound))
  {
    assert bound <= s.t.lastLayer;
    assert Contiguous(LatestExtents(s, f));
    hide Intact, AllContiguous, Contiguous, Extents;
    if bound != 0 {
      var above := BelowExtents(s.t, Active(s, f), f, bound);
      ContiguousPrefix(Extents(s.t, Active(s, f), f, bound), above);
    }
  }

  /**
   No holes, ever: after any run from the empty system, in the latest contents of any file and in any
   of its versions, every position below the highest end is in the file range of some chunk.
   */
  lemma NoHolesEver(rule: Rule, es: seq<Event>, f: nat, bound: nat, p: nat)
    requires IsBound(Run(rule, INITIAL, es).t, f, bound)
    requires var s := Run(rule, INITIAL, es); p < End(Extents(s.t, Active(s, f), f, bound))
    ensures var s := Run(rule, INITIAL, es); Covered(Extents(s.t, Active(s, f), f, bound), p)
  {
    hide Intact, AllContiguous, Run, Contiguous, Extents, End;
    var s := Run(rule, INITIAL, es);
    InitiallyContiguous();
    RunIntact(rule, INITIAL, es);
    RunContiguous(rule, INITIAL, es);
    VersionContiguous(s, f, bound);
    NoHoles(Extents(s.t, Active(s, f), f, bound), p);
  }

  // ---------- The length of a read ----------

  /** A selected chunk's file range is one of those a read may meet, and overlaps the window. */
  lemma SelectedExtent(t: Tables, layer: Layer, f: nat, bound: nat, range: Range, c: Chunk) returns (x: Piece)
    requires c in Selected(t, layer, f, bound, range)
    ensures x in Extents(t, layer, f, bound) && x == Extent(c.fileRange) && RangesOverlap(c.fileRange, range)
  {
    hide FileRows, SelectOverlapping, ActiveOverlapping;
    x := Extent(c.fileRange);
    var rows := FileRows(t, f, Top(t, bound));
    var sel := OverlappingRows(t, f, bound, range);
    if c in ToChunks(sel) {
      var i :| 0 <= i < |sel| && ToChunk(sel[i]) == c;
      SelectedIn(rows, range, sel[i]);
      var k :| 0 <= k < |rows| && rows[k] == sel[i];
      assert RowExtents(rows)[k] == x;
    } else {
      ActiveSelected(layer.chunks, range, c);
      var k :| 0 <= k < |layer.chunks| && layer.chunks[k] == c;
      assert ChunkExtents(layer.chunks)[k] == x;
    }
  }

  /** A position of the window that is covered is covered by a selected chunk. */
  lemma CoveredSelected(t: Tables, layer: Layer, f: nat, bound: nat, range: Range, p: nat) returns (c: Chunk)
    requires range.lo <= p < range.hi && Covered(Extents(t, layer, f, bound), p)
    ensures c in Selected(t, layer, f, bound, range) && p < c.fileRange.hi
  {
    hide FileRows, SelectOverlapping, ActiveOverlapping;
    var rows := FileRows(t, f, Top(t, bound));
    var sel := OverlappingRows(t, f, bound, range);
    var x :| 0 <= x < |Extents(t, layer, f, bound)| && Covers(Extents(t, layer, f, bound)[x], p);
    if x < |rows| {
      assert Extents(t, layer, f, bound)[x] == Extent(rows[x].fileRange);
      SelectedIn(rows, range, rows[x]);
      var i :| 0 <= i < |sel| && sel[i] == rows[x];
      c := ToChunk(sel[i]);
      assert ToChunks(sel)[i] == c;
    } else {
      c := layer.chunks[x - |rows|];
      assert Extents(t, layer, f, bound)[x] == Extent(c.fileRange);
      ActiveSelected(layer.chunks, range, c);
    }
  }

  lemma {:induction false} ChunkEndReached(chunks: seq<Chunk>) returns (c: Chunk)
    requires chunks != []
    ensures c in chunks && c.fileRange.hi == ChunkEnd(chunks)
  {
    var n := |chunks| - 1;
    c := chunks[n];
    assert ChunkEnd(chunks) == Max(ChunkEnd(chunks[..n]), c.fileRange.hi);
    if chunks[n].fileRange.hi < ChunkEnd(chunks) {
      c := ChunkEndReached(chunks[..n]);
    }
  }

  /** How far the selected chunks reach: to the end of the window or of the file, and not past the file. */
  lemma SelectedReach(t: Tables, layer: Layer, f: nat, bound: nat, lo: nat, hi: nat)
    requires Contiguous(Extents(t, layer, f, bound)) && lo < hi
    requires forall c :: c in Selected(t, layer, f, bound, Range(lo, hi)) ==> c.fileRange.lo <= c.fileRange.hi
    ensures var sel, end := Selected(t, layer, f, bound, Range(lo, hi)), End(Extents(t, layer, f, bound));
            if lo < end then Min(hi, end) <= ChunkEnd(sel) <= end else sel == []
  {
    hide Contiguous, Extents, Selected, End, ChunkEnd;
    var ext := Extents(t, layer, f, bound);
    var sel := Selected(t, layer, f, bound, Range(lo, hi));
    if sel != [] {
      var c := ChunkEndReached(sel);
      var x := SelectedExtent(t, layer, f, bound, Range(lo, hi), c);
      EndBounds(ext, x);
    }
    if lo < End(ext) {
      NoHoles(ext, Min(hi, End(ext)) - 1);
      var c := CoveredSelected(t, layer, f, bound, Range(lo, hi), Min(hi, End(ext)) - 1);
      var i :| 0 <= i < |sel| && sel[i] == c;
      ChunkEndBound(sel, i);
    }
  }

  lemma SelectedMatched(s: State, f: nat, bound: nat, range: Range)
    requires Intact(s)
    ensures forall c :: c in Selected(s.t, Active(s, f), f, bound, range) ==> Matched(c.layerRange, c.fileRange)
  {
    assert WellMatched(Active(s, f));
    RowsMatched(s, f, Top(s.t, bound));
    hide Intact, FileRows, Matched, SelectOverlapping, ActiveOverlapping;
    var rows, layer := FileRows(s.t, f, Top(s.t, bound)), Active(s, f);
    var sel := OverlappingRows(s.t, f, bound, range);
    forall c | c in Selected(s.t, layer, f, bound, range) ensures Matched(c.layerRange, c.fileRange) {
      if c in ToChunks(sel) {
        var i :| 0 <= i < |sel| && ToChunk(sel[i]) == c;
        SelectedIn(rows, range, sel[i]);
      } else {
        ActiveSelected(layer.chunks, range, c);
      }
    }
  }

  lemma BytesLength(t: Tables, objects: Objects, layer: Layer, spare: seq<byte>, faults: set<Call>, f: nat, bound: nat,
                    offset: nat, size: nat)
    requires ReadBelow(t, objects, layer, spare, faults, f, bound, offset, size).Bytes?
    ensures var end := ChunkEnd(Selected(t, layer, f, bound, Range(offset, offset + size)));
            && offset <= end
            && |ReadBelow(t, objects, layer, spare, faults, f, bound, offset, size).bytes| == Min(end - offset, size)
  {
    hide Selected, FetchAll, FetchedPieces;
  }

  /** The length a read from `offset` ought to have, where the file is `end` long. */
  function Available(end: nat, offset: nat, size: nat): nat {
    if offset < end then Min(size, end - offset) else 0
  }

  /** Every read that succeeds is exactly as long as the file allows. */
  lemma ReadLength(s: State, f: nat, bound: nat, spare: seq<byte>, faults: set<Call>, offset: nat, size: nat)
    requires Intact(s) && AllContiguous(s) && IsBound(s.t, f, bound)
    requires ReadBelow(s.t, s.objects, Active(s, f), spare, faults, f, bound, offset, size).Bytes?
    ensures |ReadBelow(s.t, s.objects, Active(s, f), spare, faults, f, bound, offset, size).bytes|
         == Available(End(Extents(s.t, Active(s, f), f, bound)), offset, size)
  {
    hide Intact, AllContiguous, Contiguous, Extents, ReadBelow, Selected, End;
    BytesLength(s.t, s.objects, Active(s, f), spare, faults, f, bound, offset, size);
    if size > 0 {
      VersionContiguous(s, f, bound);
      SelectedMatched(s, f, bound, Range(offset, offset + size));
      SelectedReach(s.t, Active(s, f), f, bound, offset, offset + size);
    }
  }

  /** The bound ReadFile reads below. */
  function BoundOf(t: Tables, f: nat, pick: nat, faults: set<Call>): nat {
    if HeadQuery in faults || HeadVersion(t, f).None? then 0 else pick
  }

  /**
   After any run from the empty system, with or without a head, whatever fails: a read that answers at
   all answers min(size, highest end - offset) bytes, and none from that end on.
   */
  lemma ReadLengthEver(rule: Rule, es: seq<Event>, name: string, pick: nat, spare: seq<byte>, faults: set<Call>,
                       offset: nat, size: nat)
    requires var s := Run(rule, INITIAL, es);
             && name in s.t.files
             && ReadFile(s.t, s.objects, s.memtable, name, pick, spare, faults, offset, size).Bytes?
    ensures var s := Run(rule, INITIAL, es);
            var f := s.t.files[name];
            |ReadFile(s.t, s.objects, s.memtable, name, pick, spare, faults, offset, size).bytes|
            == Available(End(Extents(s.t, Active(s, f), f, BoundOf(s.t, f, pick, faults))), offset, size)
  {
    hide Intact, AllContiguous, Run, Extents, End, ReadBelow, HeadVersion, Available, HasEmptyRange;
    var s := Run(rule, INITIAL, es);
    var f := s.t.files[name];
    InitiallyContiguous();
    RunIntact(rule, INITIAL, es);
    RunContiguous(rule, INITIAL, es);
    ReadLength(s, f, BoundOf(s.t, f, pick, faults), spare, faults, offset, size);
  }
}
