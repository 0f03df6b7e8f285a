/**
 What the refinement of one file means for the callers of the storage manager, whatever state the other
 files are in: reads of its latest contents, its size, and flushing.
 */
module Consequences {
  import opened FlatFile
  import opened Overlay
  import opened Layers
  import opened Tables
  import opened Reads
  import opened Machine
  import opened Stored
  import opened Atomicity
  import opened Refinement
  import opened Recovery
  import opened CheckpointRun

  // ---------- Reads ----------

  lemma RowsReady(s: State, f: nat, top: nat)
    requires Intact(s) && RowsSound(s, f) && top <= s.t.lastLayer
    ensures forall i :: 0 <= i < |FileRows(s.t, f, top)| ==>
              var row := FileRows(s.t, f, top)[i];
              RowSound(s.t, s.objects, row) && row.layerId in s.t.layers && s.t.layers[row.layerId].objectKey != ""
  {
    hide FileRows, RowSound, RowsOf, HeadsOk, KeysOk, MemOk, StageOk, RemovalOk;
    FileRowsPrefix(s.t, f, top, s.t.lastLayer);
    var rows := FileRows(s.t, f, top);
    forall i | 0 <= i < |rows|
      ensures RowSound(s.t, s.objects, rows[i])
      ensures rows[i].layerId in s.t.layers && s.t.layers[rows[i].layerId].objectKey != ""
    {
      assert rows[i] == AllRows(s, f)[i];
      assert rows[i] in rows;
      FileRowsIn(s.t, f, top, rows[i]);
    }
  }

  lemma RefinesReadSound(s: State, g: Books, f: nat)
    requires RefinesAt(s, g, f)
    ensures ReadSound(s.t, s.objects, Active(s, f), f, 0)
    ensures ReadLog(s.t, s.objects, Active(s, f), f, 0) == Base(s, f) + ActiveLog(Active(s, f))
    ensures Contents(ReadLog(s.t, s.objects, Active(s, f), f, 0)) == Replay(Hist(g, f))
  {
    hide Intact, RowsSound, SnapsOk, Tiled, Contiguous, Contents, Replay, Hist, FileRows, RowSound, RowPieces,
         ActiveLog;
    RowsReady(s, f, s.t.lastLayer);
  }

  /**
   A read without a head answers the window of the file obtained by applying the accepted writes in
   order, for every offset and size and wherever the bytes are stored, with the exact exceptions.
   */
  lemma LatestRead(s: State, g: Books, name: string, pick: nat, spare: seq<byte>, offset: nat, size: nat)
    requires name in s.t.files && RefinesAt(s, g, s.t.files[name]) && HeadVersion(s.t, s.t.files[name]).None?
    requires offset + size < 0x8000_0000_0000_0000
    ensures var f := s.t.files[name];
            var flat := Replay(Hist(g, f));
            var sel := Selected(s.t, Active(s, f), f, 0, Range(offset, offset + size));
            && ReadFile(s.t, s.objects, s.memtable, name, pick, spare, {}, offset, size)
               == SoundReply(sel, flat, offset, size)
            && (size > 0 ==> (sel != [] <==> offset < |flat|))
  {
    var f := s.t.files[name];
    assert Intact(s);
    hide RefinesAt, ReadSound, SoundReply, Selected, Replay, Contents, ReadLog, ReadBelow;
    RefinesReadSound(s, g, f);
    ReadExact(s.t, s.objects, Active(s, f), spare, f, 0, offset, size);
  }

  /** With the head query failing, a read answers as if the file had no head; that failure does nothing else. */
  lemma HeadFaultRead(s: State, name: string, pick: nat, spare: seq<byte>, faults: set<Call>, offset: nat, size: nat)
    requires HeadQuery in faults
    ensures ReadFile(s.t, s.objects, s.memtable, name, pick, spare, faults, offset, size)
         == ReadFile(StepDeleteHead(s.t, name), s.objects, s.memtable, name, pick, spare, faults - {HeadQuery},
                     offset, size)
  {
    if BeginTx !in faults && FileQuery !in faults && name in s.t.files {
      var f, t' := s.t.files[name], StepDeleteHead(s.t, name);
      assert HeadVersion(t', f).None?;
      hide HeadVersion;
      SameTablesRead(s.t, t', s.objects, Active(s, f), spare, faults, faults - {HeadQuery}, f, 0, offset, size);
    }
  }

  /** A read below a bound looks at layers and rows only, and no failure but its own calls' concerns it. */
  lemma SameTablesRead(t: Tables, t': Tables, objects: Objects, layer: Layer, spare: seq<byte>, faults: set<Call>,
                       faults': set<Call>, f: nat, bound: nat, offset: nat, size: nat)
    requires t' == t.(heads := t'.heads)
    requires faults' == faults - {HeadQuery}
    ensures ReadBelow(t', objects, layer, spare, faults', f, bound, offset, size)
         == ReadBelow(t, objects, layer, spare, faults, f, bound, offset, size)
  {
    hide Assemble, SelectOverlapping, ActiveOverlapping;
    FileRowsFrame(t, t', f, Top(t, bound));
    var sel := Selected(t, layer, f, bound, Range(offset, offset + size));
    assert Selected(t', layer, f, bound, Range(offset, offset + size)) == sel;
    assert FetchAll(t', objects, layer, spare, faults', sel) == FetchAll(t, objects, layer, spare, faults, sel);
  }

  lemma FaultyBelow(t: Tables, objects: Objects, layer: Layer, spare: seq<byte>, faults: set<Call>, f: nat,
                    bound: nat, offset: nat, size: nat)
    ensures ReadBelow(t, objects, layer, spare, faults, f, bound, offset, size).Bytes? ==>
              ReadBelow(t, objects, layer, spare, faults, f, bound, offset, size)
              == ReadBelow(t, objects, layer, spare, {}, f, bound, offset, size)
  {
    hide ReadBelow;
    if ReadBelow(t, objects, layer, spare, faults, f, bound, offset, size).Bytes? {
      FaultyRead(t, objects, layer, spare, faults, f, bound, offset, size);
    }
  }

  /**
   Whatever fails, a read that answers at all answers what it answers when nothing fails, of the pinned
   version or, if it was the head query that failed, of the latest contents.
   */
  lemma FaultyReadFile(s: State, name: string, pick: nat, spare: seq<byte>, faults: set<Call>, offset: nat, size: nat)
    requires ReadFile(s.t, s.objects, s.memtable, name, pick, spare, faults, offset, size).Bytes?
    ensures var t' := if HeadQuery in faults then StepDeleteHead(s.t, name) else s.t;
            ReadFile(s.t, s.objects, s.memtable, name, pick, spare, faults, offset, size)
            == ReadFile(t', s.objects, s.memtable, name, pick, spare, {}, offset, size)
  {
    var t' := if HeadQuery in faults then StepDeleteHead(s.t, name) else s.t;
    if HeadQuery in faults {
      HeadFaultRead(s, name, pick, spare, faults, offset, size);
    }
    hide ReadBelow, HeadVersion;
    var f := t'.files[name];
    FaultyBelow(t', s.objects, Active(s, f), spare, faults - {HeadQuery}, f, 0, offset, size);
    FaultyBelow(t', s.objects, Active(s, f), spare, faults - {HeadQuery}, f, pick, offset, size);
    if HeadQuery !in faults {
      assert faults - {HeadQuery} == faults;
    }
  }

  /** An unflushed chunk has the offset strictly inside. */
  predicate InsideActive(chunks: seq<Chunk>, offset: nat) {
    exists i :: 0 <= i < |chunks| && chunks[i].fileRange.lo < offset < chunks[i].fileRange.hi
  }

  /** An empty window selects the unflushed chunks it lies strictly inside, and nothing else. */
  lemma EmptySelection(s: State, f: nat, offset: nat)
    ensures Selected(s.t, Active(s, f), f, 0, Range(offset, offset)) == [] <==>
            !InsideActive(Active(s, f).chunks, offset)
  {
    hide FileRows, ActiveOverlapping, SelectOverlapping;
    var chunks, range := Active(s, f).chunks, Range(offset, offset);
    SelectNothing(FileRows(s.t, f, s.t.lastLayer), offset);
    var sel := ActiveOverlapping(chunks, range);
    assert Selected(s.t, Active(s, f), f, 0, range) == sel;
    if sel != [] {
      ActiveSelected(chunks, range, sel[0]);
      var i :| 0 <= i < |chunks| && chunks[i] == sel[0];
      assert InsideActive(chunks, offset);
    }
    if InsideActive(chunks, offset) {
      var i :| 0 <= i < |chunks| && chunks[i].fileRange.lo < offset < chunks[i].fileRange.hi;
      ActiveSelected(chunks, range, chunks[i]);
    }
  }

  /**
   The window comes back, for every offset and size, exactly when it starts inside the file (or at 0)
   and no flushed chunk overlapping it is a single byte; an empty one exactly when it lies at 0 or
   strictly inside an unflushed chunk.
   */
  lemma LatestReadAnswers(s: State, g: Books, name: string, pick: nat, spare: seq<byte>, offset: nat, size: nat)
    requires name in s.t.files && RefinesAt(s, g, s.t.files[name]) && HeadVersion(s.t, s.t.files[name]).None?
    requires offset + size < 0x8000_0000_0000_0000
    ensures var f := s.t.files[name];
            var flat := Replay(Hist(g, f));
            ReadFile(s.t, s.objects, s.memtable, name, pick, spare, {}, offset, size)
            == Bytes(Window(flat, offset, size))
            <==> if size == 0 then offset == 0 || InsideActive(Active(s, f).chunks, offset)
                 else (offset < |flat| || offset == 0)
                      && !HasOneByteChunk(Selected(s.t, Active(s, f), f, 0, Range(offset, offset + size)))
  {
    hide RefinesAt, Selected, Replay, ReadFile, HasOneByteChunk, Window, InsideActive, ReadSound;
    LatestRead(s, g, name, pick, spare, offset, size);
    var f := s.t.files[name];
    var sel := Selected(s.t, Active(s, f), f, 0, Range(offset, offset + size));
    if sel == [] {
      assert !HasOneByteChunk(sel) by { NoneOneByte(sel); }
    }
    if size == 0 {
      EmptySelection(s, f, offset);
      RefinesReadSound(s, g, f);
      EmptyRead(s.t, s.objects, Active(s, f), spare, f, 0, offset);
    }
  }

  lemma NoneOneByte(sel: seq<Chunk>)
    requires sel == []
    ensures !HasOneByteChunk(sel)
  {
  }

  // ---------- Sizes ----------

  lemma AcceptedShape(rule: Rule, s: State, g: Books, e: Event)
    requires Accepted(rule, s, e)
    ensures e.WriteFile? && e.name in s.t.files
    ensures var f := s.t.files[e.name];
            && Apply(rule, s, e).t == s.t
            && Hist(Track(rule, g, s, e), f) == Hist(g, f) + [WriteOp(e.offset, e.data)]
            && (SafeFor(rule, s, e, f) ==> e.data != [])
  {
    hide CalcSizeOf, Latest, HeadVersion, LayerWrite;
  }

  lemma WriteLatest(rule: Rule, s: State, g: Books, e: Event)
    requires Accepted(rule, s, e) && RefinesAt(s, g, s.t.files[e.name]) && SafeFor(rule, s, e, s.t.files[e.name])
    ensures e.WriteFile? && e.name in s.t.files && e.data != []
    ensures Latest(Apply(rule, s, e), s.t.files[e.name]) == Write(Latest(s, s.t.files[e.name]), e.offset, e.data)
  {
    hide FileOk, Intact, SafeFor, Apply, Track, Latest, Replay, Accepted, Hist, Write;
    AcceptedShape(rule, s, g, e);
    var f := s.t.files[e.name];
    FileStepExact(rule, s, g, e, s.t.files[e.name]);
    LatestIsReplay(s, g, f);
    LatestIsReplay(Apply(rule, s, e), Track(rule, g, s, e), f);
    ReplayAppend(Hist(g, f), WriteOp(e.offset, e.data));
  }

  /** A safe write makes the file max(old length, end of the write) long and changes nothing else of it. */
  lemma SizeAfterWrite(rule: Rule, s: State, g: Books, e: Event)
    requires Accepted(rule, s, e) && RefinesAt(s, g, s.t.files[e.name]) && SafeFor(rule, s, e, s.t.files[e.name])
    ensures var f := s.t.files[e.name];
            var before, after := Latest(s, f), Latest(Apply(rule, s, e), f);
            && |after| == Max(|before|, e.offset + |e.data|)
            && after[e.offset..e.offset + |e.data|] == e.data
            && forall p :: 0 <= p < |after| && !(e.offset <= p < e.offset + |e.data|) ==>
                 after[p] == if p < |before| then before[p] else 0
  {
    hide FileOk, Intact, SafeFor, Apply, Latest, Accepted, Write;
    WriteLatest(rule, s, g, e);
    WriteSpecified(Latest(s, s.t.files[e.name]), e.offset, e.data);
  }

  lemma LayerWriteEnd(rule: Rule, layer: Layer, fileSize: nat, offset: nat, data: seq<byte>)
    ensures var grown := LayerWrite(rule, layer, fileSize, offset, data);
            grown.chunks != [] && ChunkEnd(grown.chunks) == Max(ChunkEnd(layer.chunks), offset + |data|)
  {
    var before := if offset > fileSize
                  then AppendChunk(layer, GapStart(rule, layer), fileSize, Zeros(offset - fileSize))
                  else layer;
    assert offset > fileSize ==> before.chunks[..|layer.chunks|] == layer.chunks;
    assert LayerWrite(rule, layer, fileSize, offset, data).chunks[..|before.chunks|] == before.chunks;
  }

  lemma AcceptedLayer(rule: Rule, s: State, e: Event)
    requires Accepted(rule, s, e) && e.name in s.t.files
    ensures var f, s' := s.t.files[e.name], Apply(rule, s, e);
            && s'.t == s.t
            && Active(s', f).chunks != []
            && ChunkEnd(Active(s', f).chunks) == Max(ChunkEnd(Active(s, f).chunks), e.offset + |e.data|)
  {
    hide LayerWrite, CalcSizeOf, HeadVersion, ChunkEnd;
    var f := s.t.files[e.name];
    AcceptedWriteLayer(rule, s, e);
    LayerWriteEnd(rule, Active(s, f), CalcSizeOf(rule, s.t, Active(s, f), f, e.faults).bytes, e.offset, e.data);
  }

  /**
   The size reported after a safe write is the new length, max(old length, end of the write), exactly
   when the unflushed chunks, the written one included, reach as far as what is committed.
   */
  lemma SizeReportedAfterWrite(rule: Rule, s: State, g: Books, e: Event)
    requires Accepted(rule, s, e) && RefinesAt(s, g, s.t.files[e.name]) && SafeFor(rule, s, e, s.t.files[e.name])
    ensures var f, s' := s.t.files[e.name], Apply(rule, s, e);
            CalcSizeOf(rule, s'.t, Active(s', f), f, {}) == Size(Max(|Latest(s, f)|, e.offset + |e.data|)) <==>
              || rule.Documented?
              || Max(ChunkEnd(Active(s, f).chunks), e.offset + |e.data|)
                 >= RowsEnd(AllRows(s, f))
  {
    hide FileOk, Intact, SafeFor, Apply, Track, Latest, Accepted, CalcSizeOf, FileRows, RowsEnd, ChunkEnd, Active,
         Hist, Replay;
    AcceptedShape(rule, s, g, e);
    SizeAfterWrite(rule, s, g, e);
    AcceptedLayer(rule, s, e);
    FileStepExact(rule, s, g, e, s.t.files[e.name]);
    SizeExact(rule, Apply(rule, s, e), Track(rule, g, s, e), s.t.files[e.name], {});
  }

  // ---------- Checkpoints ----------

  /** For a file that refines its history the EXCLUDE constraint never rejects the chunk a checkpoint inserts next. */
  lemma NeverExcluded(s: State, g: Books)
    requires s.stage.Inserting? && RefinesAt(s, g, s.stage.fileId)
    requires |s.stage.rows| < |Active(s, s.stage.fileId).chunks|
    ensures !Excluded(s.stage.rows, ToRow(s.stage.layerId, Active(s, s.stage.fileId).chunks[|s.stage.rows|]))
  {
    hide CommittedOk, Base, Contents, Contiguous, LayersOk, RowsOk, HeadsOk, KeysOk, FilesOk, Replay;
    var layer := Active(s, s.stage.fileId);
    forall i | 0 <= i < |s.stage.rows|
      ensures !RangesOverlap(s.stage.rows[i].layerRange, layer.chunks[|s.stage.rows|].layerRange)
    {
      assert s.stage.rows[i] == ToRow(s.stage.layerId, layer.chunks[..|s.stage.rows|][i]);
      TiledChunksDisjoint(layer, i, |s.stage.rows|);
    }
  }

  lemma CheckpointShape(rule: Rule, s: State, g: Books, e: Event, f: nat)
    requires IsCheckpointStep(e)
    ensures SafeFor(rule, s, e, f)
    ensures Hist(Track(rule, g, s, e), f) == Hist(g, f)
  {
    hide Replay, HeadVersion, Excluded, ObjectKey;
  }

  // ---------- A whole checkpoint ----------

  predicate CheckpointSteps(es: seq<Event>) {
    forall i :: 0 <= i < |es| ==> IsCheckpointStep(es[i])
  }

  lemma {:induction false} CheckpointStepsRun(rule: Rule, s: State, g: Books, es: seq<Event>, f: nat)
    requires RefinesAt(s, g, f) && CheckpointSteps(es)
    ensures RefinesAt(Run(rule, s, es), TrackRun(rule, g, s, es), f)
    ensures Hist(TrackRun(rule, g, s, es), f) == Hist(g, f)
    decreases |es|
  {
    hide FileOk, Intact, Apply, Track, IsCheckpointStep, SafeFor, Hist;
    if es != [] {
      assert IsCheckpointStep(es[0]) && CheckpointSteps(es[1..]);
      CheckpointShape(rule, s, g, es[0], f);
      FileStepExact(rule, s, g, es[0], f);
      CheckpointStepsRun(rule, Apply(rule, s, es[0]), Track(rule, g, s, es[0]), es[1..], f);
    }
  }

  lemma {:induction false} InsertsAreSteps(n: nat)
    ensures CheckpointSteps(Inserts(n))
  {
    if n > 0 {
      InsertsAreSteps(n - 1);
    }
  }

  lemma StepsAreSteps(name: string, tag: string, n: nat)
    ensures CheckpointSteps(Steps(name, tag, n))
  {
    InsertsAreSteps(n);
  }

  /**
   For a file that refines its history a checkpoint that meets no failure always goes through, and flushing keeps the
   contents and gives the file its true size, which an overwrite may have hidden before.
   */
  lemma CheckpointFlushes(rule: Rule, s: State, g: Books, name: string, tag: string)
    requires name in s.t.files && RefinesAt(s, g, s.t.files[name]) && s.stage.Idle?
    requires HeadVersion(s.t, s.t.files[name]).None?
    requires s.t.files[name] in s.memtable && s.memtable[s.t.files[name]].data != []
    requires |ObjectKey(name, s.t.files[name], s.t.lastVersion + 1)| <= 255
    ensures var f := s.t.files[name];
            var es := Steps(name, tag, |s.memtable[f].chunks|);
            var g' := TrackRun(rule, g, s, es);
            && Run(rule, s, es) == Done(s, name, tag)
            && RefinesAt(Done(s, name, tag), g', f)
            && Hist(g', f) == Hist(g, f)
            && Latest(Done(s, name, tag), f) == Latest(s, f)
            && CalcSizeOf(rule, Done(s, name, tag).t, Active(Done(s, name, tag), f), f, {}) == Size(|Latest(s, f)|)
  {
    var f := s.t.files[name];
    var es := Steps(name, tag, |s.memtable[f].chunks|);
    assert Intact(s);
    assert Disjoint(s.memtable[f].chunks) by {
      ActiveTiled(s, g, f);
      TiledDisjoint(s.memtable[f]);
    }
    DoneShape(s, name, tag);
    hide FileOk, Intact, Run, TrackRun, Steps, Done, Hist, Latest, Disjoint, HeadVersion, Replay, CalcSizeOf;
    CheckpointSucceeds(rule, s, name, tag);
    StepsAreSteps(name, tag, |s.memtable[f].chunks|);
    CheckpointStepsRun(rule, s, g, es, f);
    var done, g' := Done(s, name, tag), TrackRun(rule, g, s, es);
    LatestIsReplay(s, g, f);
    LatestIsReplay(done, g', f);
    SizeExact(rule, done, g', f, {});
  }

  lemma ActiveTiled(s: State, g: Books, f: nat)
    requires FileOk(s, g, f)
    ensures Tiled(Active(s, f))
  {
    hide Tiled;
  }

  lemma DoneShape(s: State, name: string, tag: string)
    requires name in s.t.files
    ensures Done(s, name, tag).t.files == s.t.files
    ensures Active(Done(s, name, tag), s.t.files[name]) == EMPTY_LAYER
  {
  }

  // ---------- What a checkpoint shows to readers ----------

  lemma {:induction false} SelectConcat(a: seq<ChunkRow>, b: seq<ChunkRow>, range: Range)
    ensures SelectOverlapping(a + b, range) == SelectOverlapping(a, range) + SelectOverlapping(b, range)
  {
    if b == [] {
      assert a + b == a;
    } else {
      assert (a + b)[..|a + b| - 1] == a + b[..|b| - 1];
      SelectConcat(a, b[..|b| - 1], range);
    }
  }

  /** Non-empty chunks are selected for a non-empty window alike, flushed or not. */
  lemma {:induction false} SelectFlushed(layerId: nat, chunks: seq<Chunk>, range: Range)
    requires !range.IsEmpty()
    requires forall i :: 0 <= i < |chunks| ==> !chunks[i].fileRange.IsEmpty()
    ensures SelectOverlapping(ToRows(layerId, chunks), range) == ToRows(layerId, ActiveOverlapping(chunks, range))
  {
    if chunks != [] {
      var n := |chunks| - 1;
      SelectFlushed(layerId, chunks[..n], range);
      assert ToRows(layerId, chunks)[..n] == ToRows(layerId, chunks[..n]);
    }
  }

  /** Both selections have chunks of the same layer ranges, in the same order; the second all flushed. */
  predicate SameButFlushed(sel: seq<Chunk>, sel': seq<Chunk>) {
    && |sel'| == |sel|
    && forall i :: 0 <= i < |sel| ==> sel'[i].layerRange == sel[i].layerRange && sel'[i].flushed
  }

  lemma TiledNonEmpty(layer: Layer)
    requires Tiled(layer)
    ensures forall i :: 0 <= i < |layer.chunks| ==> !layer.chunks[i].fileRange.IsEmpty()
  {
    forall i | 0 <= i < |layer.chunks| ensures !layer.chunks[i].fileRange.IsEmpty() {
      assert TiledAt(layer.chunks, i);
    }
  }

  lemma SameAfterFlush(rows: seq<ChunkRow>, chunks: seq<Chunk>, layerId: nat)
    ensures SameButFlushed(ToChunks(rows) + chunks, ToChunks(rows + ToRows(layerId, chunks)) + [])
  {
  }

  lemma FlushSelection(s: State, name: string, tag: string, range: Range)
    requires Intact(s) && name in s.t.files && !range.IsEmpty()
    requires Tiled(Active(s, s.t.files[name]))
    ensures var f, done := s.t.files[name], Done(s, name, tag);
            SameButFlushed(Selected(s.t, Active(s, f), f, 0, range), Selected(done.t, Active(done, f), f, 0, range))
  {
    var f, id := s.t.files[name], s.t.lastLayer + 1;
    var rows, chunks := FileRows(s.t, f, s.t.lastLayer), Active(s, f).chunks;
    TiledNonEmpty(Active(s, f));
    hide Intact, Tiled, FileRows, SelectOverlapping, ActiveOverlapping, Done, SameButFlushed, ToChunks, ToRows, Active;
    DoneShape(s, name, tag);
    DoneRows(s, name, tag);
    SelectConcat(rows, ToRows(id, chunks), range);
    SelectFlushed(id, chunks, range);
    NothingActive(range);
    SameAfterFlush(SelectOverlapping(rows, range), ActiveOverlapping(chunks, range), id);
  }

  lemma NothingActive(range: Range)
    ensures ActiveOverlapping([], range) == []
  {
  }

  /** Some chunk of the window, flushed or not, is a single byte. */
  predicate MeetsOneByte(chunks: seq<Chunk>) {
    exists i :: 0 <= i < |chunks| && chunks[i].layerRange.Length() == 1
  }

  /** What decides, before a checkpoint, whether it will change the answer of a read. */
  predicate FlushKeepsRead(s: State, f: nat, offset: nat, size: nat) {
    if offset + size >= 0x8000_0000_0000_0000 then true
    else if size == 0 then offset == 0 || !InsideActive(Active(s, f).chunks, offset)
    else
      var sel := Selected(s.t, Active(s, f), f, 0, Range(offset, offset + size));
      HasOneByteChunk(sel) || !MeetsOneByte(sel)
  }

  lemma OneByteFlushed(sel: seq<Chunk>, sel': seq<Chunk>)
    requires SameButFlushed(sel, sel')
    ensures HasOneByteChunk(sel') <==> MeetsOneByte(sel)
    ensures HasOneByteChunk(sel) ==> MeetsOneByte(sel)
  {
    if MeetsOneByte(sel) {
      var i :| 0 <= i < |sel| && sel[i].layerRange.Length() == 1;
      assert sel'[i].flushed && sel'[i].layerRange.Length() == 1;
    }
    if HasOneByteChunk(sel') {
      var i :| 0 <= i < |sel'| && sel'[i].flushed && sel'[i].layerRange.Length() == 1;
      assert sel[i].layerRange.Length() == 1;
    }
  }

  /** How the answers of two reads of the same bytes compare. */
  lemma RepliesAgree(sel: seq<Chunk>, sel': seq<Chunk>, flat: seq<byte>, offset: nat, size: nat)
    requires size > 0 ==> SameButFlushed(sel, sel')
    requires size == 0 ==> sel' == [] && (offset == 0 ==> sel == [])
    ensures SoundReply(sel, flat, offset, size) == SoundReply(sel', flat, offset, size) <==>
            if size == 0 then offset == 0 || sel == [] else HasOneByteChunk(sel) || !MeetsOneByte(sel)
  {
    if size > 0 {
      hide HasOneByteChunk, MeetsOneByte, Window;
      OneByteFlushed(sel, sel');
      if sel == [] {
        assert !MeetsOneByte(sel) by { NoneOneByte(sel); }
      }
    }
  }

  lemma EmptyFlushSelection(s: State, name: string, tag: string, offset: nat)
    requires name in s.t.files
    ensures var f, done, range := s.t.files[name], Done(s, name, tag), Range(offset, offset);
            && Selected(done.t, Active(done, f), f, 0, range) == []
            && (Selected(s.t, Active(s, f), f, 0, range) == [] <==> !InsideActive(Active(s, f).chunks, offset))
            && (offset == 0 ==> Selected(s.t, Active(s, f), f, 0, range) == [])
  {
    var f, done := s.t.files[name], Done(s, name, tag);
    DoneShape(s, name, tag);
    hide Done, Selected, InsideActive, Active;
    EmptySelection(s, f, offset);
    EmptySelection(done, f, offset);
    OutsideActive(Active(done, f).chunks, offset);
    if offset == 0 {
      OutsideActive(Active(s, f).chunks, offset);
    }
  }

  lemma FlushReplies(s: State, name: string, tag: string, flat: seq<byte>, offset: nat, size: nat)
    requires Intact(s) && name in s.t.files && Tiled(Active(s, s.t.files[name]))
    requires offset + size < 0x8000_0000_0000_0000
    ensures var f, done, range := s.t.files[name], Done(s, name, tag), Range(offset, offset + size);
            SoundReply(Selected(s.t, Active(s, f), f, 0, range), flat, offset, size)
            == SoundReply(Selected(done.t, Active(done, f), f, 0, range), flat, offset, size)
            <==> FlushKeepsRead(s, f, offset, size)
  {
    hide Intact, Tiled, Done, Selected, SoundReply, HasOneByteChunk, MeetsOneByte, InsideActive, SameButFlushed, Active;
    var f, done, range := s.t.files[name], Done(s, name, tag), Range(offset, offset + size);
    if size > 0 {
      FlushSelection(s, name, tag, range);
    } else {
      EmptyFlushSelection(s, name, tag, offset);
    }
    RepliesAgree(Selected(s.t, Active(s, f), f, 0, range), Selected(done.t, Active(done, f), f, 0, range),
                 flat, offset, size);
  }

  /**
   When flushing is invisible, exactly: for every offset and size a read answers the same before and
   after a checkpoint that meets no failure if and only if a condition on the state before it holds.
   A window meeting a one-byte chunk, flushed by the checkpoint, fails after it; an empty window inside
   an unflushed chunk is answered before it and panics after it; every other read agrees.
   */
  lemma FlushInvisibleExact(rule: Rule, s: State, g: Books, name: string, tag: string, pick: nat, spare: seq<byte>,
                            spare': seq<byte>, offset: nat, size: nat)
    requires name in s.t.files && RefinesAt(s, g, s.t.files[name]) && s.stage.Idle?
    requires HeadVersion(s.t, s.t.files[name]).None?
    requires s.t.files[name] in s.memtable && s.memtable[s.t.files[name]].data != []
    requires |ObjectKey(name, s.t.files[name], s.t.lastVersion + 1)| <= 255
    ensures var f := s.t.files[name];
            var done := Run(rule, s, Steps(name, tag, |s.memtable[f].chunks|));
            ReadFile(s.t, s.objects, s.memtable, name, pick, spare, {}, offset, size)
            == ReadFile(done.t, done.objects, done.memtable, name, pick, spare', {}, offset, size)
            <==> FlushKeepsRead(s, f, offset, size)
  {
    var f, done := s.t.files[name], Done(s, name, tag);
    assert Intact(s);
    DoneShape(s, name, tag);
    DoneHead(s, name, tag);
    ActiveTiled(s, g, f);
    hide FileOk, Intact, Run, TrackRun, Steps, Done, Hist, Latest, HeadVersion, Replay, CalcSizeOf, Selected, Tiled,
         ReadFile, SoundReply, FlushKeepsRead, ObjectKey;
    CheckpointFlushes(rule, s, g, name, tag);
    if offset + size >= 0x8000_0000_0000_0000 {
      FarRead(s, name, pick, spare, offset, size);
      FarRead(done, name, pick, spare', offset, size);
      assert FlushKeepsRead(s, f, offset, size) by { FarKept(s, f, offset, size); }
    } else {
      LatestRead(s, g, name, pick, spare, offset, size);
      var g' := TrackRun(rule, g, s, Steps(name, tag, |s.memtable[f].chunks|));
      LatestRead(done, g', name, pick, spare', offset, size);
      FlushReplies(s, name, tag, Replay(Hist(g, f)), offset, size);
    }
  }

  lemma FarKept(s: State, f: nat, offset: nat, size: nat)
    requires offset + size >= 0x8000_0000_0000_0000
    ensures FlushKeepsRead(s, f, offset, size)
  {
  }

  lemma OutsideActive(chunks: seq<Chunk>, offset: nat)
    requires offset == 0 || chunks == []
    ensures !InsideActive(chunks, offset)
  {
  }

  lemma DoneHead(s: State, name: string, tag: string)
    requires Intact(s) && name in s.t.files && HeadVersion(s.t, s.t.files[name]).None?
    ensures HeadVersion(Done(s, name, tag).t, s.t.files[name]).None?
  {
    var f := s.t.files[name];
    hide Intact, HeadVersion;
    if f in s.t.heads {
      HeadKnown(s, f);
      assert false;
    }
    assert HeadVersion(Done(s, name, tag).t, f).None? by { NoHead(Done(s, name, tag).t, f); }
  }

  lemma NoHead(t: Tables, f: nat)
    requires f !in t.heads
    ensures HeadVersion(t, f).None?
  {
  }

  lemma FarRead(s: State, name: string, pick: nat, spare: seq<byte>, offset: nat, size: nat)
    requires name in s.t.files && HeadVersion(s.t, s.t.files[name]).None? && offset + size >= 0x8000_0000_0000_0000
    ensures ReadFile(s.t, s.objects, s.memtable, name, pick, spare, {}, offset, size) == Failed
  {
  }

  /** And the size it reports stays the same exactly when it was right before. */
  lemma FlushSizeExact(rule: Rule, s: State, g: Books, name: string, tag: string)
    requires name in s.t.files && RefinesAt(s, g, s.t.files[name]) && s.stage.Idle?
    requires HeadVersion(s.t, s.t.files[name]).None?
    requires s.t.files[name] in s.memtable && s.memtable[s.t.files[name]].data != []
    requires |ObjectKey(name, s.t.files[name], s.t.lastVersion + 1)| <= 255
    ensures var f := s.t.files[name];
            var done := Run(rule, s, Steps(name, tag, |s.memtable[f].chunks|));
            CalcSizeOf(rule, done.t, Active(done, f), f, {}) == CalcSizeOf(rule, s.t, Active(s, f), f, {}) <==>
              rule.Documented? || ChunkEnd(Active(s, f).chunks) >= RowsEnd(AllRows(s, f))
  {
    var f := s.t.files[name];
    ActiveTiled(s, g, f);
    assert Active(s, f).chunks != [];
    hide FileOk, Intact, Run, TrackRun, Steps, Done, Hist, Latest, HeadVersion, Replay, CalcSizeOf, Tiled, FileRows,
         RowsEnd, ChunkEnd, Active;
    CheckpointFlushes(rule, s, g, name, tag);
    SizeExact(rule, s, g, f, {});
  }
}
