/**
 What the system stores for one file: its committed pieces, its active layer, and the latest contents
 the two make together; and what an accepted write and a commit do to them.
 */
module Stored {
  import opened FlatFile
  import opened Overlay
  import opened Layers
  import opened Tables
  import opened Machine
  import opened TimeTravel

  function Base(s: State, f: nat): seq<Piece> {
    CommittedLog(s.t, s.objects, f, s.t.lastLayer)
  }

  function Active(s: State, f: nat): Layer {
    ActiveOf(s.memtable, f)
  }

  /** The committed rows of a file. */
  function AllRows(s: State, f: nat): seq<ChunkRow> {
    FileRows(s.t, f, s.t.lastLayer)
  }

  /** The latest contents of a file, by the newest-piece-wins meaning of everything stored for it. */
  function Latest(s: State, f: nat): seq<byte> {
    Contents(Base(s, f) + ActiveLog(Active(s, f)))
  }

  predicate Accepted(rule: Rule, s: State, e: Event) {
    e.WriteFile? && s.stage.Idle? && WriteTo(rule, s.t, s.memtable, e.name, e.offset, e.data, e.faults).0.Written?
  }

  predicate Commits(s: State, e: Event) {
    e.Commit? && !e.reply.RolledBack? && s.stage.Inserting?
    && |s.stage.rows| >= |ActiveOf(s.memtable, s.stage.fileId).chunks|
  }

  // ---------- Frames ----------

  /** A file that gains no layer keeps its committed pieces. */
  lemma BaseFrame(s: State, s': State, f: nat)
    requires Intact(s) && Grown(s, s')
    requires forall l :: IsLayerOf(s'.t, f, l) ==> l in s.t.layers
    ensures Base(s', f) == Base(s, f)
  {
    hide StageOk, RemovalOk, MemOk, HeadsOk, KeysOk, FilesOk, RowsOk, FileRows, RowPieces;
    GrownLog(s, s', f, s'.t.lastLayer);
    FileRowsAbove(s.t, f, s.t.lastLayer, s'.t.lastLayer);
  }

  lemma LayersListed(t: Tables, f: nat)
    ensures forall l :: IsLayerOf(t, f, l) ==> l in t.layers
  {
  }

  // ---------- Writing ----------

  lemma AcceptedWriteLayer(rule: Rule, s: State, e: Event)
    requires Accepted(rule, s, e)
    ensures e.WriteFile? && e.name in s.t.files
    ensures var f := s.t.files[e.name];
            var size := CalcSizeOf(rule, s.t, Active(s, f), f, e.faults);
            && size.Size?
            && Active(Apply(rule, s, e), f) == LayerWrite(rule, Active(s, f), size.bytes, e.offset, e.data)
            && Apply(rule, s, e).t == s.t
  {
    hide CalcSizeOf, LayerWrite, HeadVersion;
  }

  // ---------- Committing ----------

  /** A layer's rows denote the same pieces over its object as its chunks do over its data. */
  lemma RowPiecesOfLayer(t: Tables, objects: Objects, layerId: nat, layer: Layer)
    requires ObjectBytes(t, objects, layerId) == layer.data
    ensures RowPieces(t, objects, ToRows(layerId, layer.chunks)) == ActiveLog(layer)
  {
  }

  lemma RowsOfLayerSound(t: Tables, objects: Objects, layerId: nat, layer: Layer)
    requires Tiled(layer) && ObjectBytes(t, objects, layerId) == layer.data
    ensures forall i :: 0 <= i < |layer.chunks| ==> RowSound(t, objects, ToRows(layerId, layer.chunks)[i])
  {
    forall i | 0 <= i < |layer.chunks| ensures RowSound(t, objects, ToRows(layerId, layer.chunks)[i]) {
      TiledBound(layer, i);
      assert TiledAt(layer.chunks, i);
    }
  }

  /** The committed rows of the checkpointed file: the old ones, then the active layer's. */
  lemma CommitRows(s: State)
    requires Intact(s) && s.stage.Inserting?
    requires s.stage.rows == ToRows(s.stage.layerId, s.memtable[s.stage.fileId].chunks)
    ensures FileRows(Committing(s), s.stage.fileId, s.t.lastLayer)
         == FileRows(s.t, s.stage.fileId, s.t.lastLayer) + s.stage.rows
    ensures RowsOf(Committing(s).chunks, s.stage.layerId) == s.stage.rows
  {
    hide RemovalOk, MemOk, HeadsOk, KeysOk, FilesOk, LayersOk;
    assert s.stage.layerId == s.t.lastLayer && s.stage.layerId > 0 && s.stage.layerId !in s.t.layers;
    NewLayerRows(s.t, Committing(s), s.stage.fileId, s.stage.layerId, s.stage.rows);
  }

  lemma CommitShape(s: State, e: Event)
    requires Intact(s) && Commits(s, e)
    ensures var s' := StepCommit(s, e.reply);
            && s'.t == Committing(s) && s'.t.files == s.t.files && s'.memtable == s.memtable && s'.objects == s.objects
            && s.stage.fileId in s.t.files.Values && s.stage.fileId in s.memtable
            && s.stage.layerId == s.t.lastLayer && s.stage.layerId !in s.t.layers
            && s.stage.rows == ToRows(s.stage.layerId, s.memtable[s.stage.fileId].chunks)
            && s.stage.key in s.objects && s.objects[s.stage.key] == s.memtable[s.stage.fileId].data
  {
    hide LayersOk, RowsOk, HeadsOk, KeysOk, RemovalOk, FilesOk;
    var chunks := s.memtable[s.stage.fileId].chunks;
    assert chunks[..|chunks|] == chunks;
  }

  /** After the commit the file's committed pieces are the old ones followed by the active layer's. */
  lemma CommitBase(s: State, e: Event)
    requires Intact(s) && Commits(s, e)
    ensures var s' := StepCommit(s, e.reply);
            Base(s', s.stage.fileId) == Base(s, s.stage.fileId) + ActiveLog(Active(s, s.stage.fileId))
  {
    hide Intact, Base, Grown, StepCommit;
    var s' := StepCommit(s, e.reply);
    var f, id := s.stage.fileId, s.stage.layerId;
    CommitShape(s, e);
    CommitRows(s);
    CommitGrown(s, e.reply);
    assert ObjectBytes(s'.t, s'.objects, id) == s.memtable[f].data;
    RowPiecesOfLayer(s'.t, s'.objects, id, s.memtable[f]);
    CommitPieces(s, s', f);
  }

  lemma CommitPieces(s: State, s': State, f: nat)
    requires Intact(s) && Grown(s, s') && s'.objects == s.objects && s.stage.Inserting? && s'.t == Committing(s)
    requires f == s.stage.fileId
    requires FileRows(s'.t, f, s.t.lastLayer) == FileRows(s.t, f, s.t.lastLayer) + s.stage.rows
    ensures Base(s', f) == Base(s, f) + RowPieces(s'.t, s'.objects, s.stage.rows)
  {
    hide StageOk, RemovalOk, MemOk, HeadsOk, KeysOk, FilesOk, LayersOk, FileRows, RowsOf, Slice;
    var rows := FileRows(s.t, f, s.t.lastLayer);
    forall i | 0 <= i < |rows| ensures RowPiece(s'.t, s'.objects, rows[i]) == RowPiece(s.t, s.objects, rows[i]) {
      assert rows[i] in rows;
      FileRowsIn(s.t, f, s.t.lastLayer, rows[i]);
      assert Kept(s, s', rows[i].layerId);
    }
  }

  lemma DropShape(rule: Rule, s: State)
    requires s.stage.Committed?
    ensures var s' := Apply(rule, s, DropActive);
            && s'.t == s.t && s'.objects == s.objects && s'.memtable == s.memtable - {s.stage.fileId} && s'.stage.Idle?
            && s' == Apply(Shipped, s, DropActive)
  {
  }

  /** Layer `l` of the file holds exactly this active layer, flushed. */
  predicate Holds(s: State, f: nat, l: nat, layer: Layer) {
    && IsLayerOf(s.t, f, l)
    && RowsOf(s.t.chunks, l) == ToRows(l, layer.chunks)
    && ObjectBytes(s.t, s.objects, l) == layer.data
  }

  /** What a commit adds: one layer, holding the active layer, its rows after those of the file before. */
  lemma CommitHolds(s: State, e: Event)
    requires Intact(s) && Commits(s, e)
    ensures var s', f, l := StepCommit(s, e.reply), s.stage.fileId, s.stage.layerId;
            && Holds(s', f, l, Active(s, f))
            && AllRows(s', f) == AllRows(s, f) + ToRows(l, Active(s, f).chunks)
            && l == s'.t.lastLayer && s'.t.layers.Keys == s.t.layers.Keys + {l}
            && Active(s', f) == Active(s, f)
  {
    hide Intact, RowsOf, FileRows, StepCommit;
    CommitShape(s, e);
    CommitRows(s);
  }

  lemma HoldsKept(s: State, s': State, f: nat, l: nat, layer: Layer)
    requires Grown(s, s') && Holds(s, f, l, layer)
    ensures Holds(s', f, l, layer)
  {
    assert Kept(s, s', l);
    hide RowsOf;
  }
}
