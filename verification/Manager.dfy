/**
 The storage manager as the object it is: a memtable of active layers updated in place, over the
 database and the object store.  Every method is proved against the functions of Machine and Reads.
 The calls to the outside that fail during a method are a parameter of it.
 */
module Manager {
  import opened FlatFile
  import opened Overlay
  import opened Layers
  import opened Tables
  import opened Reads
  import opened WalNames
  import opened CheckpointRun
  import M = Machine

  class ActiveLayer {
    var chunks: seq<Chunk>
    var data: seq<byte>
    var size: nat

    function Value(): Layer
      reads this
    {
      Layer(chunks, data, size)
    }

    constructor ()
      ensures Value() == EMPTY_LAYER
    {
      chunks, data, size := [], [], 0;
    }

    method Append(start: nat, at: nat, bytes: seq<byte>)
      modifies this
      ensures Value() == AppendChunk(old(Value()), start, at, bytes)
    {
      data := data + bytes;
      chunks := chunks + [Chunk(0, false, Range(start, start + |bytes|), Range(at, at + |bytes|))];
      size := start + |bytes|;
    }

    /** The part of WriteFile that updates the layer: zero-fill a gap, then append the data. */
    method WriteAt(fileSize: nat, offset: nat, bytes: seq<byte>)
      modifies this
      ensures Value() == LayerWrite(Shipped, old(Value()), fileSize, offset, bytes)
    {
      if offset > fileSize {
        var layerSize := 0;
        if |chunks| > 0 {
          layerSize := chunks[|chunks| - 1].fileRange.hi;
        }
        Append(layerSize, fileSize, Zeros(offset - fileSize));
      }
      var layerSize := 0;
      if |chunks| > 0 {
        layerSize := chunks[|chunks| - 1].layerRange.hi;
      }
      Append(layerSize, offset, bytes);
    }
  }

  class Database {
    var tables: Tables

    constructor ()
      ensures tables == EMPTY_TABLES
    {
      tables := EMPTY_TABLES;
    }
  }

  class ObjectStore {
    var objects: Objects

    constructor ()
      ensures objects == map[]
    {
      objects := map[];
    }
  }

  // ---------- Runs of checkpoint steps ----------

  /** What fails of the calls a checkpoint makes after drawing its version. */
  datatype CheckpointIo = CheckpointIo(
    uploadOk: bool,
    uploadStored: bool,
    layerOk: bool,
    failingChunk: Option<nat>,
    reply: M.CommitReply)

  predicate IsStep(e: M.Event) {
    e.Checkpoint? || e.Upload? || e.AddLayer? || e.AddChunk? || e.Commit? || e.DropActive?
  }

  /** The steps of one checkpoint: it starts once, with these arguments. */
  predicate StartsOnce(steps: seq<M.Event>, name: string, version: string, faults: set<Call>) {
    steps != [] ==>
      && steps[0] == M.Checkpoint(name, version, faults)
      && NoStart(steps[1..])
  }

  predicate NoStart(steps: seq<M.Event>) {
    forall i :: 0 <= i < |steps| ==> !steps[i].Checkpoint?
  }

  lemma StartsJoin(steps: seq<M.Event>, more: seq<M.Event>, name: string, version: string, faults: set<Call>)
    requires steps != [] && StartsOnce(steps, name, version, faults) && NoStart(more)
    ensures StartsOnce(steps + more, name, version, faults)
  {
    assert (steps + more)[1..] == steps[1..] + more;
  }

  lemma DoneFrom(s: M.State, s': M.State, name: string, version: string)
    requires name in s.t.files
    requires s' == s.(t := s'.t, objects := s'.objects, memtable := s.memtable - {s.t.files[name]})
    requires var f, versionId, layerId := s.t.files[name], s.t.lastVersion + 1, s.t.lastLayer + 1;
             var key, layer := ObjectKey(name, f, versionId), M.ActiveOf(s.memtable, f);
             && s'.t == M.CommitTables(s.t.(lastVersion := versionId, lastLayer := layerId), f, versionId, version, key,
                                       layerId, M.ToRows(layerId, layer.chunks))
             && s'.objects == s.objects[key := layer.data]
    ensures s' == Done(s, name, version)
  {
    hide ObjectKey, M.ToRows;
  }

  /** There are bytes of the file in memory. */
  predicate Unflushed(s: M.State, name: string) {
    name in s.t.files && M.ActiveOf(s.memtable, s.t.files[name]).data != []
  }

  /** No chunk insert fails, by itself or by the EXCLUDE constraint. */
  predicate ChunksPass(chunks: seq<Chunk>, io: CheckpointIo) {
    Disjoint(chunks) && (io.failingChunk.Some? ==> io.failingChunk.value >= |chunks|)
  }

  predicate FlushPasses(s: M.State, name: string, io: CheckpointIo)
    requires name in s.t.files
  {
    && io.uploadOk && io.layerOk
    && |ObjectKey(name, s.t.files[name], s.t.lastVersion + 1)| <= 255
    && ChunksPass(M.ActiveOf(s.memtable, s.t.files[name]).chunks, io)
    && io.reply.Acknowledged?
  }

  /** When a checkpoint answers success, in terms of the state before it and of what fails. */
  predicate CheckpointPasses(s: M.State, name: string, faults: set<Call>, io: CheckpointIo) {
    && BeginTx !in faults && FileQuery !in faults
    && (name in s.t.files ==>
          && HeadQuery !in faults && s.t.files[name] !in s.t.heads
          && (Unflushed(s, name) ==> VersionInsert !in faults && FlushPasses(s, name, io)))
  }

  /** The tables are as before but for drawn ids. */
  predicate NothingCommitted(t: Tables, t': Tables) {
    t' == t.(lastVersion := t'.lastVersion, lastLayer := t'.lastLayer)
  }

  lemma RunOne(s: M.State, e: M.Event)
    ensures M.Run(Shipped, s, [e]) == M.Apply(Shipped, s, e)
  {
    hide M.Apply;
    assert [e][1..] == [];
  }

  lemma RunTwo(s: M.State, e1: M.Event, e2: M.Event)
    ensures M.Run(Shipped, s, [e1, e2]) == M.Apply(Shipped, M.Apply(Shipped, s, e1), e2)
  {
    hide M.Apply;
    assert [e1, e2][1..] == [e2];
    RunOne(M.Apply(Shipped, s, e1), e2);
  }

  lemma RunSnoc(s: M.State, steps: seq<M.Event>, e: M.Event)
    ensures M.Run(Shipped, s, steps + [e]) == M.Apply(Shipped, M.Run(Shipped, s, steps), e)
  {
    hide M.Apply;
    RunConcat(Shipped, s, steps, [e]);
    RunOne(M.Run(Shipped, s, steps), e);
  }

  lemma RunJoin(s: M.State, a: seq<M.Event>, b: seq<M.Event>)
    ensures M.Run(Shipped, s, a + b) == M.Run(Shipped, M.Run(Shipped, s, a), b)
  {
    RunConcat(Shipped, s, a, b);
  }

  lemma RunIntactAll(s: M.State)
    requires M.Intact(s)
    ensures forall steps :: M.Intact(M.Run(Shipped, s, steps))
  {
    hide M.Intact, M.Run;
    forall steps ensures M.Intact(M.Run(Shipped, s, steps)) {
      M.RunIntact(Shipped, s, steps);
    }
  }

  /** One more chunk passes exactly when its insert does; if it does not, the chunks do not. */
  lemma ChunkPasses(chunks: seq<Chunk>, layerId: nat, i: nat, io: CheckpointIo)
    requires i < |chunks| && ChunksPass(chunks[..i], io)
    ensures var rows, row := M.ToRows(layerId, chunks[..i]), M.ToRow(layerId, chunks[i]);
            if io.failingChunk != Some(i) && !M.Excluded(rows, row)
            then ChunksPass(chunks[..i + 1], io)
            else !ChunksPass(chunks, io)
  {
    var rows, row := M.ToRows(layerId, chunks[..i]), M.ToRow(layerId, chunks[i]);
    forall j | 0 <= j < i ensures rows[j] == M.ToRow(layerId, chunks[j]) {
    }
    if M.Excluded(rows, row) {
      var j :| 0 <= j < |rows| && rows[j].layerId == row.layerId && SqlOverlap(rows[j].layerRange, row.layerRange);
      assert SqlOverlap(chunks[j].layerRange, chunks[i].layerRange);
    } else {
      var front := chunks[..i + 1];
      forall j, k | 0 <= j < k < |front| ensures !SqlOverlap(front[j].layerRange, front[k].layerRange) {
        if k < i {
          assert chunks[..i][j] == chunks[j] && chunks[..i][k] == chunks[k];
        } else {
          assert rows[j].layerId == row.layerId;
        }
      }
    }
  }

  // ---------- Facts the read loop uses ----------

  lemma NothingIsZero()
    ensures forall p: nat :: ByteAt([], p) == 0
  {
  }

  /** Every fetch that succeeds brings as many bytes as the chunk covers. */
  lemma FetchedLength(t: Tables, objects: Objects, layer: Layer, spare: seq<byte>, faults: set<Call>,
      chunks: seq<Chunk>, i: nat)
    requires i < |chunks| && Matched(chunks[i].layerRange, chunks[i].fileRange)
    requires chunks[i].flushed ==> chunks[i].layerId in t.layers && t.layers[chunks[i].layerId].objectKey != ""
    requires Fetch(t, objects, layer, spare, faults, chunks, i).Got?
    ensures chunks[i].fileRange.lo + |Fetch(t, objects, layer, spare, faults, chunks, i).data| == chunks[i].fileRange.hi
  {
  }

  /** In every intact state, whatever was written: each selected chunk ends inside or past the window's
      start, has ranges of equal length, and if flushed belongs to a layer with an object key. */
  lemma SelectionReady(s: M.State, fileId: nat, bound: nat, range: Range)
    requires M.Intact(s)
    ensures var sel := Selected(s.t, M.ActiveOf(s.memtable, fileId), fileId, bound, range);
            forall i :: 0 <= i < |sel| ==>
              && Matched(sel[i].layerRange, sel[i].fileRange)
              && sel[i].fileRange.hi > range.lo
              && (sel[i].flushed ==> sel[i].layerId in s.t.layers && s.t.layers[sel[i].layerId].objectKey != "")
  {
    var layer := M.ActiveOf(s.memtable, fileId);
    var rows := OverlappingRows(s.t, fileId, bound, range);
    var active := if bound == 0 then ActiveOverlapping(layer.chunks, range) else [];
    forall i | 0 <= i < |rows|
      ensures Matched(rows[i].layerRange, rows[i].fileRange) && rows[i].fileRange.hi > range.lo
      ensures rows[i].layerId in s.t.layers && s.t.layers[rows[i].layerId].objectKey != ""
    {
      SelectedIn(FileRows(s.t, fileId, Top(s.t, bound)), range, rows[i]);
      FileRowsIn(s.t, fileId, Top(s.t, bound), rows[i]);
    }
    forall i | 0 <= i < |active|
      ensures Matched(active[i].layerRange, active[i].fileRange) && active[i].fileRange.hi > range.lo
      ensures !active[i].flushed
    {
      ActiveSelected(layer.chunks, range, active[i]);
      var k :| 0 <= k < |layer.chunks| && layer.chunks[k] == active[i];
    }
  }

  // ---------- The storage manager ----------

  class StorageManager {
    const db: Database
    const store: ObjectStore
    var memtable: map<nat, ActiveLayer>

    /** The layers as values. */
    ghost function Mem(): map<nat, Layer>
      reads this, memtable.Values
    {
      map f | f in memtable :: memtable[f].Value()
    }

    /** The machine state this object is in between operations. */
    ghost function State(): M.State
      reads this, memtable.Values, db, store
    {
      M.State(db.tables, store.objects, Mem(), M.Idle, {}, M.NoRemoval)
    }

    /** No two files share a layer object. */
    ghost predicate Distinct()
      reads this
    {
      forall f, g :: f in memtable && g in memtable && f != g ==> memtable[f] != memtable[g]
    }

    ghost predicate Valid()
      reads this, memtable.Values, db, store
    {
      Distinct() && M.Intact(State())
    }

    /** A manager over existing storage: nothing is in memory. */
    constructor (db: Database, store: ObjectStore)
      requires M.Intact(M.State(db.tables, store.objects, map[], M.Idle, {}, M.NoRemoval))
      ensures this.db == db && this.store == store && memtable == map[]
      ensures Valid()
    {
      this.db := db;
      this.store := store;
      memtable := map[];
      new;
      assert Mem() == map[];
    }

    // ---------- Sizes ----------

    method CalcSizeOf(fileId: nat, faults: set<Call>) returns (reply: SizeReply)
      ensures reply == M.CalcSizeOf(Shipped, db.tables, M.ActiveOf(Mem(), fileId), fileId, faults)
    {
      if fileId in memtable && |memtable[fileId].chunks| > 0 {
        var chunks := memtable[fileId].chunks;
        var endOffset := 0;
        for i := 0 to |chunks|
          invariant endOffset == ChunkEnd(chunks[..i])
        {
          assert chunks[..i + 1][..i] == chunks[..i];
          if chunks[i].fileRange.hi > endOffset {
            endOffset := chunks[i].fileRange.hi;
          }
        }
        assert chunks[..|chunks|] == chunks;
        return Size(endOffset);
      }
      if SizeQuery in faults {
        return SizeFailed;
      }
      reply := CalcFileSize(db.tables, fileId);
    }

    // ---------- Writing ----------

    /** The active layer of the file, made if there is none yet. */
    method Entry(fileId: nat) returns (layer: ActiveLayer)
      requires Distinct()
      modifies this`memtable
      ensures Distinct() && fileId in memtable && memtable[fileId] == layer
      ensures layer in old(memtable.Values) || fresh(layer)
      ensures memtable.Values <= old(memtable.Values) + {layer}
      ensures layer.Value() == M.ActiveOf(old(Mem()), fileId)
      ensures Mem() == old(Mem())[fileId := layer.Value()]
    {
      if fileId !in memtable {
        var made := new ActiveLayer();
        memtable := memtable[fileId := made];
      }
      layer := memtable[fileId];
    }

    /** Writing into one entry's layer changes that entry only. */
    method WriteEntry(fileId: nat, fileSize: nat, offset: nat, data: seq<byte>)
      requires Distinct() && fileId in memtable
      modifies memtable[fileId]
      ensures Mem() == old(Mem())[fileId := LayerWrite(Shipped, old(Mem())[fileId], fileSize, offset, data)]
    {
      hide LayerWrite;
      memtable[fileId].WriteAt(fileSize, offset, data);
    }

    /** The write proper, once the file is known to be writable. */
    method WriteActive(fileId: nat, data: seq<byte>, offset: nat, faults: set<Call>) returns (reply: M.WriteReply)
      requires Distinct()
      modifies this`memtable, memtable.Values
      ensures Distinct()
      ensures fresh(memtable.Values - old(memtable.Values))
      ensures var layer := M.ActiveOf(old(Mem()), fileId);
              match M.CalcSizeOf(Shipped, db.tables, layer, fileId, faults)
              case SizeFailed => reply == M.NoSize && Mem() == old(Mem())[fileId := layer]
              case Size(fileSize) =>
                reply == M.Written && Mem() == old(Mem())[fileId := LayerWrite(Shipped, layer, fileSize, offset, data)]
    {
      hide LayerWrite, M.CalcSizeOf;
      ghost var before := Mem();
      var activeLayer := Entry(fileId);
      var fileSize := CalcSizeOf(fileId, faults);
      if fileSize.SizeFailed? {
        return M.NoSize;
      }
      WriteEntry(fileId, fileSize.bytes, offset, data);
      assert Mem() == before[fileId := LayerWrite(Shipped, M.ActiveOf(before, fileId), fileSize.bytes, offset, data)];
      return M.Written;
    }

    method WriteFile(name: string, data: seq<byte>, offset: nat, faults: set<Call>) returns (reply: M.WriteReply)
      requires Valid()
      modifies this`memtable, memtable.Values
      ensures Valid()
      ensures fresh(memtable.Values - old(memtable.Values))
      ensures (reply, Mem()) == M.WriteTo(Shipped, db.tables, old(Mem()), name, offset, data, faults)
    {
      hide M.Intact, LayerWrite, M.CalcSizeOf, HeadVersion;
      M.StepIntact(Shipped, State(), M.WriteFile(name, offset, data, faults));
      if FileQuery in faults || name !in db.tables.files {
        return M.NoSuchFile;
      }
      var fileId := db.tables.files[name];
      if HeadQuery !in faults && HeadVersion(db.tables, fileId).Some? {
        return M.ReadOnly;
      }
      hide Mem;
      reply := WriteActive(fileId, data, offset, faults);
    }

    // ---------- Reading ----------

    /** getChunkData: a ranged get of the chunk's object, checked for its length. */
    method GetChunkData(chunk: Chunk) returns (reply: Fetched)
      ensures reply == FetchCommitted(db.tables, store.objects, chunk)
    {
      var objectKey := if chunk.layerId in db.tables.layers then db.tables.layers[chunk.layerId].objectKey else "";
      if objectKey == "" {
        return Got([]);
      }
      var r := chunk.layerRange;
      if r.IsEmpty() {
        return GetFailed;
      }
      var got := GetObject(store.objects, objectKey, r.lo, r.hi - 1);
      if got.NoObject? || |got.data| != r.hi - r.lo {
        return GetFailed;
      }
      return Got(got.data);
    }

    method GetAllOverlappingChunks(fileId: nat, range: Range, layer: Layer, bound: nat) returns (chunks: seq<Chunk>)
      ensures chunks == Selected(db.tables, layer, fileId, bound, range)
    {
      hide OverlappingRows;
      var rows := OverlappingRows(db.tables, fileId, bound, range);
      chunks := [];
      for i := 0 to |rows|
        invariant chunks == ToChunks(rows[..i])
      {
        chunks := chunks + [ToChunk(rows[i])];
      }
      assert rows[..|rows|] == rows;
      if bound == 0 {
        for i := 0 to |layer.chunks|
          invariant chunks == ToChunks(rows) + ActiveOverlapping(layer.chunks[..i], range)
        {
          assert layer.chunks[..i + 1][..i] == layer.chunks[..i];
          if RangesOverlap(layer.chunks[i].fileRange, range) {
            chunks := chunks + [layer.chunks[i]];
          }
        }
        assert layer.chunks[..|layer.chunks|] == layer.chunks;
      }
    }

    /** What the copy loop relies on; true of every selection in every reachable state. */
    ghost predicate Ready(chunks: seq<Chunk>, offset: nat)
      reads db
    {
      forall i :: 0 <= i < |chunks| ==>
        && Matched(chunks[i].layerRange, chunks[i].fileRange)
        && chunks[i].fileRange.hi > offset
        && (chunks[i].flushed ==>
              chunks[i].layerId in db.tables.layers && db.tables.layers[chunks[i].layerId].objectKey != "")
    }

    /** Copies one chunk's bytes over the buffer, clipped on the left; the right always fits. */
    method CopyChunk(buf: array<byte>, offset: nat, at: nat, data: seq<byte>, ghost older: seq<Piece>)
      requires offset < at + |data| <= offset + buf.Length
      requires forall p :: 0 <= p < buf.Length ==> buf[p] == ByteAt(older, offset + p)
      modifies buf
      ensures forall p :: 0 <= p < buf.Length ==> buf[p] == ByteAt(older + [Piece(at, data)], offset + p)
    {
      var bufferPos, chunkStartPos, dataSize := 0, 0, |data|;
      if at < offset {
        chunkStartPos := offset - at;
        dataSize := |data| - chunkStartPos;
      } else {
        bufferPos := at - offset;
      }
      var endPos := bufferPos + dataSize;
      if endPos <= buf.Length {
        forall k | 0 <= k < dataSize {
          buf[bufferPos + k] := data[chunkStartPos + k];
        }
      }
      assert (older + [Piece(at, data)])[..|older|] == older;
      forall p | 0 <= p < buf.Length
        ensures buf[p] == ByteAt(older + [Piece(at, data)], offset + p)
      {
        if bufferPos <= p < endPos {
          assert buf[p] == data[chunkStartPos + (p - bufferPos)];
        }
      }
    }

    /** The largest end among the chunks. */
    method MaxEnd(chunks: seq<Chunk>) returns (maxEndOffset: nat)
      ensures maxEndOffset == ChunkEnd(chunks)
    {
      maxEndOffset := 0;
      for i := 0 to |chunks|
        invariant maxEndOffset == ChunkEnd(chunks[..i])
      {
        assert chunks[..i + 1][..i] == chunks[..i];
        if chunks[i].fileRange.hi > maxEndOffset {
          maxEndOffset := chunks[i].fileRange.hi;
        }
      }
      assert chunks[..|chunks|] == chunks;
    }

    method FetchOne(chunks: seq<Chunk>, i: nat, layer: Layer, spare: seq<byte>,
        faults: set<Call>) returns (reply: Fetched)
      requires i < |chunks|
      ensures reply == Fetch(db.tables, store.objects, layer, spare, faults, chunks, i)
    {
      if !chunks[i].flushed {
        return FetchActive(layer, spare, chunks[i]);
      } else if Get(i) in faults {
        return GetFailed;
      }
      reply := GetChunkData(chunks[i]);
    }

    /** The buffer of ReadFile: allocated to the largest end, then overlaid chunk by chunk, then cut. */
    method Fill(chunks: seq<Chunk>, layer: Layer, spare: seq<byte>, faults: set<Call>, offset: nat, size: nat)
      returns (reply: ReadReply)
      requires Ready(chunks, offset)
      ensures reply == Assemble(chunks, FetchAll(db.tables, store.objects, layer, spare, faults, chunks), offset, size)
    {
      hide Fetch, ByteAt, FetchedPieces;
      ghost var fetched := FetchAll(db.tables, store.objects, layer, spare, faults, chunks);
      var maxEndOffset := MaxEnd(chunks);
      if maxEndOffset < offset {
        return Panicked;
      }
      var buf := new byte[maxEndOffset - offset](_ => 0);
      assert forall p :: 0 <= p < buf.Length ==> buf[p] == ByteAt([], offset + p) by { NothingIsZero(); }
      assert PiecesUpTo(chunks, fetched, 0) == [];
      for i := 0 to |chunks|
        invariant forall j :: 0 <= j < i ==> fetched[j].Got?
        invariant forall p :: 0 <= p < buf.Length ==> buf[p] == ByteAt(PiecesUpTo(chunks, fetched, i), offset + p)
      {
        var data := FetchOne(chunks, i, layer, spare, faults);
        if !data.Got? {
          FetchedUpTo(chunks, fetched, i);
          return if data.SliceFault? then Panicked else Failed;
        }
        FetchedLength(db.tables, store.objects, layer, spare, faults, chunks, i);
        ChunkEndBound(chunks, i);
        CopyChunk(buf, offset, chunks[i].fileRange.lo, data.data, PiecesUpTo(chunks, fetched, i));
        assert PiecesUpTo(chunks, fetched, i + 1) ==
               PiecesUpTo(chunks, fetched, i) + [Piece(chunks[i].fileRange.lo, data.data)];
      }
      FetchedUpTo(chunks, fetched, |chunks|);
      var bytes := buf[..];
      if |bytes| > size {
        bytes := bytes[..size];
      }
      return Bytes(bytes);
    }

    /** The read proper, of a known file, below the version its head resolved to (0 without a head). */
    method ReadVersion(fileId: nat, bound: nat, offset: nat, size: nat, spare: seq<byte>, faults: set<Call>)
      returns (reply: ReadReply)
      requires Valid()
      ensures reply == ReadBelow(db.tables, store.objects, M.ActiveOf(Mem(), fileId), spare, faults, fileId, bound,
                                 offset, size)
    {
      hide M.Intact, Assemble, FetchAll, Selected;
      if ChunkQuery in faults || offset + size >= INT8_LIMIT {
        return Failed;
      }
      var layer := if fileId in memtable then memtable[fileId].Value() else EMPTY_LAYER;
      var chunks := GetAllOverlappingChunks(fileId, Range(offset, offset + size), layer, bound);
      SelectionReady(State(), fileId, bound, Range(offset, offset + size));
      reply := Fill(chunks, layer, spare, faults, offset, size);
      if reply.Bytes? && CommitTx in faults {
        return Failed;
      }
    }

    /** `pick` is the row the database hands over for the head's tag. */
    method ReadFile(name: string, offset: nat, size: nat, pick: nat, spare: seq<byte>, faults: set<Call>)
      returns (reply: ReadReply)
      requires Valid()
      ensures reply == M.ReadFile(db.tables, store.objects, Mem(), name, pick, spare, faults, offset, size)
    {
      hide M.Intact, ReadBelow, HeadVersion, LayersTagged, HasEmptyRange;
      if BeginTx in faults {
        return Failed;
      }
      if FileQuery in faults || name !in db.tables.files {
        return NotFound;
      }
      var fileId := db.tables.files[name];
      var versionedLayerId := 0;
      var head := HeadVersion(db.tables, fileId);
      if HeadQuery !in faults && head.Some? {
        if LayerQuery in faults || pick !in LayersTagged(db.tables, fileId, head.value.1)
           || HasEmptyRange(RowsOf(db.tables.chunks, pick)) {
          return Failed;
        }
        versionedLayerId := pick;
      }
      reply := ReadVersion(fileId, versionedLayerId, offset, size, spare, faults);
    }

    // ---------- Checkpointing ----------

    /** Version and object: what a checkpoint does before its layer row. */
    method PutVersion(name: string, version: string, faults: set<Call>, io: CheckpointIo)
      returns (stage: M.Stage, ghost steps: seq<M.Event>)
      requires name in db.tables.files && db.tables.files[name] in memtable
      requires memtable[db.tables.files[name]].data != []
      requires HeadVersion(db.tables, db.tables.files[name]).None?
      requires BeginTx !in faults && FileQuery !in faults && HeadQuery !in faults && VersionInsert !in faults
      modifies db, store
      ensures M.Run(Shipped, old(State()), steps) == State().(stage := stage)
      ensures forall i :: 0 <= i < |steps| ==> IsStep(steps[i])
      ensures steps != [] && StartsOnce(steps, name, version, faults)
      ensures db.tables == old(db.tables).(lastVersion := old(db.tables.lastVersion) + 1)
      ensures var fileId, versionId := db.tables.files[name], db.tables.lastVersion;
              var key := ObjectKey(name, fileId, versionId);
              if io.uploadOk
              then stage == M.Uploaded(fileId, versionId, version, key)
                   && store.objects == old(store.objects)[key := memtable[fileId].data]
              else stage.Idle?
    {
      ghost var s := State();
      var fileId := db.tables.files[name];
      var versionId := db.tables.lastVersion + 1;
      db.tables := db.tables.(lastVersion := versionId);
      ghost var e1 := M.Checkpoint(name, version, faults);
      ghost var s1 := M.Apply(Shipped, s, e1);
      assert s1 == State().(stage := M.Versioned(fileId, name, versionId, version));
      var objectKey := ObjectKey(name, fileId, versionId);
      if io.uploadOk || io.uploadStored {
        store.objects := store.objects[objectKey := memtable[fileId].data];
      }
      ghost var e2 := M.Upload(io.uploadOk, io.uploadStored);
      stage := if io.uploadOk then M.Uploaded(fileId, versionId, version, objectKey) else M.Idle;
      assert M.Apply(Shipped, s1, e2) == State().(stage := stage);
      steps := [e1, e2];
      hide M.Apply;
      RunTwo(s, e1, e2);
    }

    /** The layer row and the chunk rows, inside the transaction. */
    method InsertRows(uploaded: M.Stage, io: CheckpointIo) returns (stage: M.Stage, ghost steps: seq<M.Event>)
      requires uploaded.Uploaded? && uploaded.fileId in memtable
      modifies db
      ensures M.Run(Shipped, old(State()).(stage := uploaded), steps) == State().(stage := stage)
      ensures forall i :: 0 <= i < |steps| ==> IsStep(steps[i])
      ensures NoStart(steps)
      ensures NothingCommitted(old(db.tables), db.tables)
      ensures var chunks := memtable[uploaded.fileId].chunks;
              if io.layerOk && |uploaded.key| <= 255 && ChunksPass(chunks, io)
              then stage == M.Inserting(uploaded.fileId, uploaded.versionId, uploaded.tag, uploaded.key,
                                        db.tables.lastLayer, M.ToRows(db.tables.lastLayer, chunks))
                   && db.tables == old(db.tables).(lastLayer := old(db.tables.lastLayer) + 1)
              else stage.Idle?
    {
      ghost var s := State().(stage := uploaded);
      ghost var e := M.AddLayer(io.layerOk);
      steps := [e];
      RunOne(s, e);
      if !io.layerOk {
        stage := M.Idle;
        return;
      }
      var layerId := db.tables.lastLayer + 1;
      db.tables := db.tables.(lastLayer := layerId);
      if |uploaded.key| > M.KEY_LIMIT {
        stage := M.Idle;
        return;
      }
      var chunks := memtable[uploaded.fileId].chunks;
      var rows := [];
      assert M.Run(Shipped, s, steps)
          == State().(stage := M.Inserting(uploaded.fileId, uploaded.versionId, uploaded.tag, uploaded.key,
                                           layerId, rows));
      hide M.Run;
      for i := 0 to |chunks|
        invariant rows == M.ToRows(layerId, chunks[..i]) && ChunksPass(chunks[..i], io)
        invariant db.tables == old(db.tables).(lastLayer := layerId)
        invariant forall j :: 0 <= j < |steps| ==> IsStep(steps[j])
        invariant NoStart(steps)
        invariant M.Run(Shipped, s, steps)
               == State().(stage := M.Inserting(uploaded.fileId, uploaded.versionId, uploaded.tag, uploaded.key,
                                                layerId, rows))
      {
        var row := M.ToRow(layerId, chunks[i]);
        var ok := io.failingChunk != Some(i);
        ghost var add := M.AddChunk(ok);
        RunSnoc(s, steps, add);
        steps := steps + [add];
        ChunkPasses(chunks, layerId, i, io);
        if !ok || M.Excluded(rows, row) {
          stage := M.Idle;
          return;
        }
        rows := rows + [row];
        assert chunks[..i + 1] == chunks[..i] + [chunks[i]];
      }
      assert chunks[..|chunks|] == chunks;
      stage := M.Inserting(uploaded.fileId, uploaded.versionId, uploaded.tag, uploaded.key, layerId, rows);
    }

    /** The commit and, once it is acknowledged, dropping the memtable entry. */
    method CommitRows(inserted: M.Stage, io: CheckpointIo) returns (ok: bool, ghost steps: seq<M.Event>)
      requires inserted.Inserting? && inserted.fileId in memtable
      requires |inserted.rows| == |memtable[inserted.fileId].chunks|
      modifies db, this`memtable
      ensures M.Run(Shipped, old(State()).(stage := inserted), steps) == State()
      ensures forall i :: 0 <= i < |steps| ==> IsStep(steps[i])
      ensures NoStart(steps) && ok == io.reply.Acknowledged?
      ensures db.tables ==
                if io.reply.RolledBack? then old(db.tables)
                else M.CommitTables(old(db.tables), inserted.fileId, inserted.versionId, inserted.tag, inserted.key,
                                    inserted.layerId, inserted.rows)
      ensures memtable == if ok then old(memtable) - {inserted.fileId} else old(memtable)
    {
      ghost var s := State().(stage := inserted);
      ghost var e := M.Commit(io.reply);
      steps := [e];
      RunOne(s, e);
      if !io.reply.RolledBack? {
        db.tables := M.CommitTables(db.tables, inserted.fileId, inserted.versionId, inserted.tag, inserted.key,
                                    inserted.layerId, inserted.rows);
      }
      if !io.reply.Acknowledged? {
        return false, steps;
      }
      ghost var s1 := State().(stage := M.Committed(inserted.fileId));
      assert M.Run(Shipped, s, steps) == s1;
      memtable := memtable - {inserted.fileId};
      assert Mem() == s1.memtable - {inserted.fileId};
      assert M.Apply(Shipped, s1, M.DropActive) == State();
      hide M.Apply, M.Run;
      RunSnoc(s, steps, M.DropActive);
      steps := steps + [M.DropActive];
      return true, steps;
    }

    /** The transaction from the layer row to the commit, and the drop of the memtable entry. */
    method CommitUploaded(uploaded: M.Stage, io: CheckpointIo) returns (ok: bool, ghost steps: seq<M.Event>)
      requires uploaded.Uploaded? && uploaded.fileId in memtable
      modifies this`memtable, db
      ensures M.Run(Shipped, old(State()).(stage := uploaded), steps) == State()
      ensures forall i :: 0 <= i < |steps| ==> IsStep(steps[i])
      ensures NoStart(steps)
      ensures db.tables.files == old(db.tables.files)
      ensures memtable == if ok then old(memtable) - {uploaded.fileId} else old(memtable)
      ensures Mem() == if ok then old(Mem()) - {uploaded.fileId} else old(Mem())
      ensures ok <==> && io.layerOk && |uploaded.key| <= 255 && ChunksPass(old(memtable[uploaded.fileId].chunks), io)
                      && io.reply.Acknowledged?
      ensures ok ==> var layerId := old(db.tables.lastLayer) + 1;
                     db.tables == M.CommitTables(old(db.tables).(lastLayer := layerId), uploaded.fileId,
                                                 uploaded.versionId, uploaded.tag, uploaded.key, layerId,
                                                 M.ToRows(layerId, old(memtable[uploaded.fileId].chunks)))
      ensures !ok && !io.reply.Lost? ==> NothingCommitted(old(db.tables), db.tables)
    {
      ghost var s := State().(stage := uploaded);
      hide M.Apply, M.Run, IsStep, ChunksPass;
      var stage, moreSteps := InsertRows(uploaded, io);
      steps := moreSteps;
      ok := false;
      if stage.Inserting? {
        ok, moreSteps := CommitRows(stage, io);
        RunJoin(s, steps, moreSteps);
        steps := steps + moreSteps;
      }
    }

    /** The checkpoint proper, once there is something to flush. */
    method Flush(name: string, version: string, faults: set<Call>, io: CheckpointIo)
      returns (ok: bool, ghost steps: seq<M.Event>)
      requires name in db.tables.files && db.tables.files[name] in memtable
      requires memtable[db.tables.files[name]].data != []
      requires HeadVersion(db.tables, db.tables.files[name]).None?
      requires BeginTx !in faults && FileQuery !in faults && HeadQuery !in faults && VersionInsert !in faults
      modifies this`memtable, db, store
      ensures M.Run(Shipped, old(State()), steps) == State()
      ensures forall i :: 0 <= i < |steps| ==> IsStep(steps[i])
      ensures StartsOnce(steps, name, version, faults)
      ensures db.tables.files == old(db.tables.files)
      ensures memtable == if ok then old(memtable) - {db.tables.files[name]} else old(memtable)
      ensures ok <==> FlushPasses(old(State()), name, io)
      ensures ok ==> State() == Done(old(State()), name, version)
      ensures !ok && !io.reply.Lost? ==> NothingCommitted(old(db.tables), db.tables)
    {
      hide M.Apply, M.Run, HeadVersion, IsStep, ObjectKey, ChunksPass, M.ToRows, M.CommitTables, Done, StartsOnce,
           NoStart;
      ghost var s, fileId := State(), db.tables.files[name];
      assert M.ActiveOf(s.memtable, fileId) == memtable[fileId].Value();
      hide Mem, M.ActiveOf;
      var stage, moreSteps := PutVersion(name, version, faults, io);
      steps := moreSteps;
      ok := false;
      if stage.Uploaded? {
        ok, moreSteps := CommitUploaded(stage, io);
        RunJoin(s, steps, moreSteps);
        StartsJoin(steps, moreSteps, name, version, faults);
        steps := steps + moreSteps;
        if ok {
          DoneFrom(s, State(), name, version);
        }
      }
    }

    /**
     Whatever fails, a checkpoint is a run of the steps of one checkpoint with its arguments.  It answers
     success exactly as CheckpointPasses says, with all of the active layer in one new version of that
     tag; and anything else leaves the memtable as it was and, but for a lost acknowledgement, commits
     nothing.
     */
    method Checkpoint(name: string, version: string, faults: set<Call>, io: CheckpointIo)
      returns (ok: bool, ghost steps: seq<M.Event>)
      requires Valid()
      modifies this`memtable, db, store
      ensures Valid()
      ensures M.Run(Shipped, old(State()), steps) == State()
      ensures forall i :: 0 <= i < |steps| ==> IsStep(steps[i])
      ensures StartsOnce(steps, name, version, faults)
      ensures memtable.Values <= old(memtable.Values)
      ensures ok <==> CheckpointPasses(old(State()), name, faults, io)
      ensures ok ==>
                State() == if Unflushed(old(State()), name) then Done(old(State()), name, version) else old(State())
      ensures ok ==> name !in db.tables.files || M.ActiveOf(Mem(), db.tables.files[name]).data == []
      ensures !ok ==> memtable == old(memtable)
      ensures !ok && !io.reply.Lost? ==> NothingCommitted(old(db.tables), db.tables)
    {
      steps := [];
      if BeginTx in faults || FileQuery in faults {
        return false, steps;
      }
      if name !in db.tables.files {
        return true, steps;
      }
      var fileId := db.tables.files[name];
      if HeadQuery in faults || HeadVersion(db.tables, fileId).Some? {
        return false, steps;
      }
      if fileId !in memtable || |memtable[fileId].data| == 0 {
        return true, steps;
      }
      if VersionInsert in faults {
        return false, steps;
      }
      RunIntactAll(State());
      hide M.Apply, M.Run, HeadVersion, M.Intact, IsStep;
      ok, steps := Flush(name, version, faults, io);
    }

    // ---------- Files and heads ----------

    /** Files and heads touch nothing but the tables. */
    method SetTables(t: Tables)
      requires Distinct() && M.Intact(State().(t := t))
      modifies db
      ensures Valid() && db.tables == t
    {
      hide M.Intact, Mem;
      db.tables := t;
    }

    method InsertFile(name: string) returns (id: Option<nat>)
      requires Valid()
      modifies db
      ensures Valid() && db.tables == M.StepInsertFile(old(db.tables), name)
      ensures id.None? <==> name in old(db.tables.files)
      ensures db.tables.lastFile == old(db.tables.lastFile) + 1
      ensures id.Some? ==> name in db.tables.files && id.value == db.tables.files[name]
      ensures id.Some? ==> id.value !in old(db.tables.files.Values)
    {
      assert forall f :: f in db.tables.files.Values ==> f <= db.tables.lastFile;
      hide M.Intact, Mem;
      var fileId := db.tables.lastFile + 1;
      var duplicate := name in db.tables.files;
      var inserted := db.tables.(lastFile := fileId);
      if !duplicate {
        inserted := inserted.(files := inserted.files[name := fileId]);
      }
      assert inserted == M.StepInsertFile(db.tables, name);
      hide M.StepInsertFile;
      M.InsertFileIntact(State(), name);
      SetTables(inserted);
      return if duplicate then None else Some(fileId);
    }

    /** `pick` is the row the database hands over for the tag. */
    method SetHead(name: string, tag: string, pick: nat) returns (ok: bool)
      requires Valid()
      modifies db
      ensures Valid() && db.tables == M.StepSetHead(old(db.tables), name, tag, pick)
      ensures ok <==> && name in old(db.tables.files)
                      && pick in LayersTagged(old(db.tables), old(db.tables.files)[name], tag)
                      && !HasEmptyRange(RowsOf(old(db.tables.chunks), pick))
      ensures ok ==> name in db.tables.files && db.tables.files[name] in db.tables.heads
    {
      M.SetHeadIntact(State(), name, tag, pick);
      hide M.Intact, Mem, RowsOf, HasEmptyRange;
      if name !in db.tables.files || pick !in LayersTagged(db.tables, db.tables.files[name], tag)
         || HasEmptyRange(RowsOf(db.tables.chunks, pick)) {
        return false;
      }
      SetTables(db.tables.(heads := db.tables.heads[db.tables.files[name] := db.tables.layers[pick].versionId]));
      return true;
    }

    method DeleteHead(name: string) returns (ok: bool)
      requires Valid()
      modifies db
      ensures Valid() && db.tables == M.StepDeleteHead(old(db.tables), name)
      ensures ok <==> name in db.tables.files
    {
      M.DeleteHeadIntact(State(), name);
      hide M.Intact, Mem;
      if name !in db.tables.files {
        return false;
      }
      SetTables(db.tables.(heads := db.tables.heads - {db.tables.files[name]}));
      return true;
    }
  }

  // ---------- WAL files ----------

  class WALManager {
    const mgr: StorageManager
    var files: set<string>

    constructor (mgr: StorageManager)
      ensures this.mgr == mgr && files == {}
    {
      this.mgr := mgr;
      files := {};
    }

    /** `hostOk`: the host file system makes the directory and the file. */
    method Create(name: string, hostOk: bool) returns (ok: bool)
      modifies this
      ensures ok <==> IsWALFile(name) && hostOk
      ensures files == if ok then old(files) + {name} else old(files)
    {
      if !IsWALFile(name) || !hostOk {
        return false;
      }
      files := files + {name};
      return true;
    }

    /**
     Checkpoint first, then delete.  The file is gone afterwards only if nothing of its database is
     left unflushed; if the checkpoint fails every WAL file is still there and so is the memtable.
     */
    method Remove(wal: string, checkpointId: string, faults: set<Call>, io: CheckpointIo, deleteOk: bool)
      returns (ok: bool)
      requires mgr.Valid()
      modifies this`files, mgr`memtable, mgr.db, mgr.store
      ensures mgr.Valid()
      ensures files == if ok then old(files) - {wal} else old(files)
      ensures ok <==> && IsWALFile(wal) && wal in old(files) && deleteOk
                      && CheckpointPasses(old(mgr.State()), GetDBFilename(wal), faults, io)
      ensures ok ==>
                GetDBFilename(wal) !in mgr.db.tables.files ||
                M.ActiveOf(mgr.Mem(), mgr.db.tables.files[GetDBFilename(wal)]).data == []
    {
      hide CheckpointPasses, Unflushed, Done, StartsOnce, M.Run, IsStep, M.Intact, NothingCommitted,
           StorageManager.Valid, StorageManager.State, StorageManager.Mem, M.ActiveOf, GetDBFilename, IsWALFile;
      if !IsWALFile(wal) {
        return false;
      }
      ghost var steps;
      ok, steps := mgr.Checkpoint(GetDBFilename(wal), checkpointId, faults, io);
      if !ok || !deleteOk || wal !in files {
        return false;
      }
      files := files - {wal};
      return true;
    }
  }
}
