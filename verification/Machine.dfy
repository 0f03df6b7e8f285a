/**
 The running system as a state machine.  One event is one atomic step: an operation done under the
 manager's lock, one step of a checkpoint's transaction, one step of a WAL removal, or a crash.
 Failures of the database and the object store are part of the events.

 Head moves, new files and WAL files may come from anywhere at any time, the second process
 included; writes and checkpoints wait for the manager's lock, which a checkpoint holds throughout.
 */
module Machine {
  import opened FlatFile
  import opened Layers
  import opened Tables
  import opened Reads
  import opened WalNames

  /** How far the checkpoint in flight has come; what it inserted is invisible until the commit. */
  datatype Stage =
    | Idle
    | Versioned(fileId: nat, name: string, versionId: nat, tag: string)
    | Uploaded(fileId: nat, versionId: nat, tag: string, key: string)
    | Inserting(fileId: nat, versionId: nat, tag: string, key: string, layerId: nat, rows: seq<ChunkRow>)
    | Committed(fileId: nat)

  /** A WAL removal: asked for, waiting for its checkpoint, or ready to delete the file. */
  datatype Removal = NoRemoval | Asked(wal: string) | Flushing(wal: string) | Cleared(wal: string)

  datatype State = State(
    t: Tables,
    objects: Objects,
    memtable: map<nat, Layer>,
    stage: Stage,
    wals: set<string>,
    removal: Removal)

  /** `Lost`: the transaction committed, but the acknowledgement did not arrive. */
  datatype CommitReply = Acknowledged | RolledBack | Lost

  datatype Event =
    | InsertFile(name: string)
    | WriteFile(name: string, offset: nat, data: seq<byte>, faults: set<Call>)
    | Checkpoint(name: string, tag: string, faults: set<Call>)
    | Upload(ok: bool, stored: bool)
    | AddLayer(ok: bool)
    | AddChunk(ok: bool)
    | Commit(reply: CommitReply)
    | DropActive
    | SetHead(name: string, tag: string, pick: nat)
    | DeleteHead(name: string)
    | CreateWal(name: string)
    | RemoveWal(name: string)
    | FlushForRemoval(tag: string, faults: set<Call>)
    | DeleteWal(ok: bool)
    | Crash

  const INITIAL := State(EMPTY_TABLES, map[], map[], Idle, {}, NoRemoval)

  // ---------- Writing ----------

  datatype WriteReply = Written | NoSuchFile | ReadOnly | NoSize

  function ActiveOf(memtable: map<nat, Layer>, fileId: nat): Layer {
    if fileId in memtable then memtable[fileId] else EMPTY_LAYER
  }

  /** calcSizeOf.  As shipped, a non-empty active layer answers without asking the tables. */
  function CalcSizeOf(rule: Rule, t: Tables, layer: Layer, fileId: nat, faults: set<Call>): SizeReply {
    if rule.Shipped? && layer.chunks != [] then Size(ChunkEnd(layer.chunks))
    else if SizeQuery in faults then SizeFailed
    else
      match CalcFileSize(t, fileId)
      case SizeFailed => SizeFailed
      case Size(committedEnd) => Size(SizeWith(rule, committedEnd, layer))
  }

  /** A head query that fails counts as no head; an entry is made before the size is known. */
  function WriteTo(rule: Rule, t: Tables, memtable: map<nat, Layer>, name: string,
                 offset: nat, data: seq<byte>, faults: set<Call>): (WriteReply, map<nat, Layer>)
  {
    if FileQuery in faults || name !in t.files then (NoSuchFile, memtable)
    else
      var fileId := t.files[name];
      if HeadQuery !in faults && HeadVersion(t, fileId).Some? then (ReadOnly, memtable)
      else
        var layer := ActiveOf(memtable, fileId);
        match CalcSizeOf(rule, t, layer, fileId, faults)
        case SizeFailed => (NoSize, memtable[fileId := layer])
        case Size(fileSize) => (Written, memtable[fileId := LayerWrite(rule, layer, fileSize, offset, data)])
  }

  // ---------- Reading ----------

  /**
   ReadFile.  With a head, `pick` is the layer the tag query hands over, out of LayersTagged; a head
   query that fails counts as no head.
   */
  function ReadFile(t: Tables, objects: Objects, memtable: map<nat, Layer>, name: string, pick: nat,
                    spare: seq<byte>, faults: set<Call>, offset: nat, size: nat): ReadReply
  {
    if BeginTx in faults then Failed
    else if FileQuery in faults || name !in t.files then NotFound
    else
      var fileId := t.files[name];
      var layer := ActiveOf(memtable, fileId);
      var head: Option<(nat, string)> := if HeadQuery in faults then None else HeadVersion(t, fileId);
      match head
      case None => ReadBelow(t, objects, layer, spare, faults, fileId, 0, offset, size)
      case Some(version) =>
        var tag := version.1;
        if LayerQuery in faults || pick !in LayersTagged(t, fileId, tag) || HasEmptyRange(RowsOf(t.chunks, pick))
        then Failed
        else ReadBelow(t, objects, layer, spare, faults, fileId, pick, offset, size)
  }

  // ---------- Checkpointing ----------

  datatype StartReply = Started | NothingToDo | NotStarted

  function Start(s: State, name: string, tag: string, faults: set<Call>): (StartReply, State) {
    if BeginTx in faults || FileQuery in faults then (NotStarted, s)
    else if name !in s.t.files then (NothingToDo, s)
    else
      var fileId := s.t.files[name];
      if HeadQuery in faults || HeadVersion(s.t, fileId).Some? then (NotStarted, s)
      else if fileId !in s.memtable || s.memtable[fileId].data == [] then (NothingToDo, s)
      else if VersionInsert in faults then (NotStarted, s)
      else
        var versionId := s.t.lastVersion + 1;
        (Started, s.(t := s.t.(lastVersion := versionId), stage := Versioned(fileId, name, versionId, tag)))
  }

  /** The object key column is a VARCHAR(255): inserting a layer with a longer key is an error. */
  const KEY_LIMIT: nat := 255

  /** The checkpoint returns: `ok` is what its caller gets to see. */
  function Finish(s: State, ok: bool): State {
    s.(stage := Idle,
       removal := if s.removal.Flushing? then (if ok then Cleared(s.removal.wal) else NoRemoval) else s.removal)
  }

  function ToRow(layerId: nat, c: Chunk): ChunkRow {
    ChunkRow(layerId, c.layerRange, c.fileRange)
  }

  function ToRows(layerId: nat, chunks: seq<Chunk>): seq<ChunkRow> {
    seq(|chunks|, i requires 0 <= i < |chunks| => ToRow(layerId, chunks[i]))
  }

  /** The EXCLUDE constraint: within a layer, no two non-empty layer ranges overlap. */
  predicate Excluded(rows: seq<ChunkRow>, row: ChunkRow) {
    exists i :: 0 <= i < |rows| && rows[i].layerId == row.layerId && SqlOverlap(rows[i].layerRange, row.layerRange)
  }

  function CommitTables(t: Tables, fileId: nat, versionId: nat, tag: string, key: string,
                        layerId: nat, rows: seq<ChunkRow>): Tables
  {
    t.(versions := t.versions[versionId := tag],
       layers := t.layers[layerId := LayerRow(fileId, versionId, key)],
       chunks := t.chunks + rows)
  }

  function Committing(s: State): Tables
    requires s.stage.Inserting?
  {
    CommitTables(s.t, s.stage.fileId, s.stage.versionId, s.stage.tag, s.stage.key, s.stage.layerId, s.stage.rows)
  }

  function StepUpload(s: State, ok: bool, stored: bool): State {
    if !s.stage.Versioned? then s
    else
      var key := ObjectKey(s.stage.name, s.stage.fileId, s.stage.versionId);
      var put := s.(objects := s.objects[key := ActiveOf(s.memtable, s.stage.fileId).data]);
      if ok then put.(stage := Uploaded(s.stage.fileId, s.stage.versionId, s.stage.tag, key))
      else Finish(if stored then put else s, false)
  }

  function StepAddLayer(s: State, ok: bool): State {
    if !s.stage.Uploaded? then s
    else if !ok then Finish(s, false)
    else
      var layerId := s.t.lastLayer + 1;
      var drawn := s.(t := s.t.(lastLayer := layerId));
      if |s.stage.key| > KEY_LIMIT then Finish(drawn, false)
      else drawn.(stage := Inserting(s.stage.fileId, s.stage.versionId, s.stage.tag, s.stage.key, layerId, []))
  }

  function StepAddChunk(s: State, ok: bool): State {
    if !s.stage.Inserting? || |s.stage.rows| >= |ActiveOf(s.memtable, s.stage.fileId).chunks| then s
    else
      var row := ToRow(s.stage.layerId, ActiveOf(s.memtable, s.stage.fileId).chunks[|s.stage.rows|]);
      if !ok || Excluded(s.stage.rows, row) then Finish(s, false)
      else s.(stage := s.stage.(rows := s.stage.rows + [row]))
  }

  function StepCommit(s: State, reply: CommitReply): State {
    if !s.stage.Inserting? || |s.stage.rows| < |ActiveOf(s.memtable, s.stage.fileId).chunks| then s
    else
      match reply
      case Acknowledged => s.(t := Committing(s), stage := Committed(s.stage.fileId))
      case RolledBack => Finish(s, false)
      case Lost => Finish(s.(t := Committing(s)), false)
  }

  // ---------- Heads ----------

  /** SetHead, with the layer its tag query picked; loading that layer's chunks must succeed. */
  function StepSetHead(t: Tables, name: string, tag: string, pick: nat): Tables {
    if name in t.files && pick in LayersTagged(t, t.files[name], tag) && !HasEmptyRange(RowsOf(t.chunks, pick))
    then t.(heads := t.heads[t.files[name] := t.layers[pick].versionId])
    else t
  }

  function StepDeleteHead(t: Tables, name: string): Tables {
    if name in t.files then t.(heads := t.heads - {t.files[name]}) else t
  }

  /** A duplicate name is refused, but its insert has drawn an id by then. */
  function StepInsertFile(t: Tables, name: string): Tables {
    if name in t.files then t.(lastFile := t.lastFile + 1)
    else t.(files := t.files[name := t.lastFile + 1], lastFile := t.lastFile + 1)
  }

  // ---------- WAL removal ----------

  function StepFlush(s: State, tag: string, faults: set<Call>): State {
    if !s.removal.Asked? || !s.stage.Idle? then s
    else
      var (reply, s') := Start(s, GetDBFilename(s.removal.wal), tag, faults);
      match reply
      case Started => s'.(removal := Flushing(s.removal.wal))
      case NothingToDo => s'.(removal := Cleared(s.removal.wal))
      case NotStarted => s'.(removal := NoRemoval)
  }

  function StepDeleteWal(s: State, ok: bool): State {
    if !s.removal.Cleared? then s
    else s.(wals := if ok then s.wals - {s.removal.wal} else s.wals, removal := NoRemoval)
  }

  // ---------- Steps and runs ----------

  function Apply(rule: Rule, s: State, e: Event): State {
    match e
    case InsertFile(name) => s.(t := StepInsertFile(s.t, name))
    case WriteFile(name, offset, data, faults) =>
      if s.stage.Idle? then s.(memtable := WriteTo(rule, s.t, s.memtable, name, offset, data, faults).1) else s
    case Checkpoint(name, tag, faults) => if s.stage.Idle? then Start(s, name, tag, faults).1 else s
    case Upload(ok, stored) => StepUpload(s, ok, stored)
    case AddLayer(ok) => StepAddLayer(s, ok)
    case AddChunk(ok) => StepAddChunk(s, ok)
    case Commit(reply) => StepCommit(s, reply)
    case DropActive =>
      if s.stage.Committed? then Finish(s.(memtable := s.memtable - {s.stage.fileId}), true) else s
    case SetHead(name, tag, pick) => s.(t := StepSetHead(s.t, name, tag, pick))
    case DeleteHead(name) => s.(t := StepDeleteHead(s.t, name))
    case CreateWal(name) => if IsWALFile(name) then s.(wals := s.wals + {name}) else s
    case RemoveWal(name) => if s.removal.NoRemoval? && IsWALFile(name) then s.(removal := Asked(name)) else s
    case FlushForRemoval(tag, faults) => StepFlush(s, tag, faults)
    case DeleteWal(ok) => StepDeleteWal(s, ok)
    case Crash => s.(memtable := map[], stage := Idle, removal := NoRemoval)
  }

  function Run(rule: Rule, s: State, es: seq<Event>): State
    decreases |es|
  {
    if es == [] then s else Run(rule, Apply(rule, s, es[0]), es[1..])
  }

  // ---------- What every run keeps, whatever is written ----------

  ghost predicate FilesOk(t: Tables) {
    && (forall n :: n in t.files ==> 1 <= t.files[n] <= t.lastFile)
    && (forall m, n :: m in t.files && n in t.files && t.files[m] == t.files[n] ==> m == n)
  }

  ghost predicate LayersOk(t: Tables, objects: Objects) {
    && (forall l :: l in t.layers ==>
          && 1 <= l <= t.lastLayer
          && t.layers[l].fileId in t.files.Values
          && t.layers[l].versionId in t.versions
          && t.layers[l].objectKey != ""
          && t.layers[l].objectKey in objects)
    && (forall l, m :: l in t.layers && m in t.layers && t.layers[l].versionId == t.layers[m].versionId ==> l == m)
    && (forall v :: v in t.versions ==> v <= t.lastVersion)
  }

  ghost predicate RowsOk(t: Tables) {
    forall i :: 0 <= i < |t.chunks| ==>
      t.chunks[i].layerId in t.layers && Matched(t.chunks[i].layerRange, t.chunks[i].fileRange)
  }

  /** Every head names a version that has a layer of the same file. */
  ghost predicate HeadsOk(t: Tables) {
    forall f :: f in t.heads ==> exists l :: IsLayerOf(t, f, l) && t.layers[l].versionId == t.heads[f]
  }

  ghost predicate IsKeyOf(key: string, versionId: nat) {
    exists name, fileId :: key == ObjectKey(name, fileId, versionId)
  }

  ghost predicate KeysOk(t: Tables, objects: Objects) {
    forall k :: k in objects ==> exists v: nat :: v <= t.lastVersion && IsKeyOf(k, v)
  }

  ghost predicate MemOk(t: Tables, memtable: map<nat, Layer>) {
    forall f :: f in memtable ==>
      f in t.files.Values && WellMatched(memtable[f]) && memtable[f].size == LayerEnd(memtable[f])
  }

  ghost predicate FreshVersion(t: Tables, versionId: nat) {
    && versionId <= t.lastVersion
    && versionId !in t.versions
    && forall l :: l in t.layers ==> t.layers[l].versionId != versionId
  }

  ghost predicate StageOk(s: State) {
    match s.stage
    case Idle => true
    case Committed(fileId) => fileId in s.memtable
    case Versioned(fileId, name, versionId, _) =>
      && fileId in s.memtable && s.memtable[fileId].data != []
      && FreshVersion(s.t, versionId)
      && ObjectKey(name, fileId, versionId) !in s.objects
    case Uploaded(fileId, versionId, _, key) =>
      && fileId in s.memtable
      && FreshVersion(s.t, versionId)
      && key != "" && key in s.objects && s.objects[key] == s.memtable[fileId].data
    case Inserting(fileId, versionId, _, key, layerId, rows) =>
      && fileId in s.memtable
      && FreshVersion(s.t, versionId)
      && key != "" && key in s.objects && s.objects[key] == s.memtable[fileId].data
      && layerId == s.t.lastLayer && layerId > 0 && layerId !in s.t.layers
      && |rows| <= |s.memtable[fileId].chunks|
      && rows == ToRows(layerId, s.memtable[fileId].chunks[..|rows|])
  }

  ghost predicate RemovalOk(s: State) {
    match s.removal
    case NoRemoval => true
    case Asked(wal) => IsWALFile(wal)
    case Cleared(wal) => IsWALFile(wal)
    case Flushing(wal) =>
      && IsWALFile(wal)
      && !s.stage.Idle?
      && GetDBFilename(wal) in s.t.files
      && s.stage.fileId == s.t.files[GetDBFilename(wal)]
  }

  ghost predicate Intact(s: State) {
    && FilesOk(s.t)
    && LayersOk(s.t, s.objects)
    && RowsOk(s.t)
    && HeadsOk(s.t)
    && KeysOk(s.t, s.objects)
    && MemOk(s.t, s.memtable)
    && StageOk(s)
    && RemovalOk(s)
  }

  /** A version id not drawn yet belongs to no object key. */
  lemma FreshKey(t: Tables, objects: Objects, name: string, fileId: nat, versionId: nat)
    requires KeysOk(t, objects) && versionId > t.lastVersion
    ensures ObjectKey(name, fileId, versionId) !in objects
  {
    var key := ObjectKey(name, fileId, versionId);
    if key in objects {
      var v: nat :| v <= t.lastVersion && IsKeyOf(key, v);
      var n, f :| key == ObjectKey(n, f, v);
      ObjectKeyVersion(name, fileId, versionId, n, f, v);
    }
  }

  lemma StartIntact(s: State, name: string, tag: string, faults: set<Call>)
    requires Intact(s) && s.stage.Idle?
    ensures Intact(Start(s, name, tag, faults).1)
  {
    var s' := Start(s, name, tag, faults).1;
    if s'.stage.Versioned? {
      FreshKey(s.t, s.objects, name, s.t.files[name], s.t.lastVersion + 1);
      forall k | k in s'.objects ensures exists v: nat :: v <= s'.t.lastVersion && IsKeyOf(k, v) {
        var v: nat :| v <= s.t.lastVersion && IsKeyOf(k, v);
      }
    }
  }

  lemma UploadIntact(s: State, ok: bool, stored: bool)
    requires Intact(s)
    ensures Intact(StepUpload(s, ok, stored))
  {
    if s.stage.Versioned? {
      var key := ObjectKey(s.stage.name, s.stage.fileId, s.stage.versionId);
      assert IsKeyOf(key, s.stage.versionId);
      var s' := StepUpload(s, ok, stored);
      assert |key| > 0;
      assert forall k :: k in s.objects ==> k in s'.objects && s'.objects[k] == s.objects[k];
      forall k | k in s'.objects ensures exists v: nat :: v <= s'.t.lastVersion && IsKeyOf(k, v) {
        if k in s.objects {
          var v: nat :| v <= s.t.lastVersion && IsKeyOf(k, v);
        }
      }
    }
  }

  lemma CommitLayersOk(s: State)
    requires LayersOk(s.t, s.objects) && StageOk(s) && MemOk(s.t, s.memtable) && s.stage.Inserting?
    ensures LayersOk(Committing(s), s.objects)
  {
    assert s.stage.fileId in s.t.files.Values;
  }

  lemma CommitHeadsOk(s: State)
    requires HeadsOk(s.t) && LayersOk(s.t, s.objects) && StageOk(s) && s.stage.Inserting?
    ensures HeadsOk(Committing(s))
  {
    var t' := Committing(s);
    assert forall l :: l in s.t.layers ==> l in t'.layers && t'.layers[l] == s.t.layers[l];
    hide LayersOk, StageOk, Committing;
    forall f | f in t'.heads ensures exists l :: IsLayerOf(t', f, l) && t'.layers[l].versionId == t'.heads[f] {
      assert f in s.t.heads && t'.heads[f] == s.t.heads[f] by { CommitHeads(s); }
      var l :| IsLayerOf(s.t, f, l) && s.t.layers[l].versionId == s.t.heads[f];
      assert IsLayerOf(t', f, l);
    }
  }

  lemma CommitHeads(s: State)
    requires s.stage.Inserting?
    ensures Committing(s).heads == s.t.heads
  {
  }

  lemma CommitRowsOk(s: State)
    requires RowsOk(s.t) && StageOk(s) && MemOk(s.t, s.memtable) && s.stage.Inserting?
    ensures RowsOk(Committing(s))
  {
    var t' := Committing(s);
    var layer := s.memtable[s.stage.fileId];
    forall i | 0 <= i < |t'.chunks|
      ensures t'.chunks[i].layerId in t'.layers && Matched(t'.chunks[i].layerRange, t'.chunks[i].fileRange)
    {
      if i < |s.t.chunks| {
        assert t'.chunks[i] == s.t.chunks[i];
      } else {
        assert t'.chunks[i] == ToRow(s.stage.layerId, layer.chunks[i - |s.t.chunks|]);
      }
    }
  }

  lemma CommitTablesOk(s: State)
    requires Intact(s) && s.stage.Inserting?
    ensures LayersOk(Committing(s), s.objects) && HeadsOk(Committing(s)) && KeysOk(Committing(s), s.objects)
    ensures RowsOk(Committing(s)) && FilesOk(Committing(s))
  {
    hide LayersOk, RowsOk, HeadsOk, StageOk, MemOk, RemovalOk;
    CommitLayersOk(s);
    CommitHeadsOk(s);
    CommitRowsOk(s);
  }

  lemma CommitIntact(s: State, reply: CommitReply)
    requires Intact(s)
    ensures Intact(StepCommit(s, reply))
  {
    hide LayersOk, RowsOk, HeadsOk, KeysOk, FilesOk;
    if s.stage.Inserting? {
      CommitTablesOk(s);
    }
  }

  lemma AddChunkIntact(s: State, ok: bool)
    requires Intact(s)
    ensures Intact(StepAddChunk(s, ok))
  {
    var s' := StepAddChunk(s, ok);
    if s.stage.Inserting? && s'.stage.Inserting? && s' != s {
      var chunks := s.memtable[s.stage.fileId].chunks;
      var n := |s.stage.rows|;
      assert chunks[..n + 1] == chunks[..n] + [chunks[n]];
    }
  }

  /** Steps that touch nothing but files and heads. */
  lemma NamesIntact(s: State, t': Tables)
    requires Intact(s) && FilesOk(t') && HeadsOk(t')
    requires t' == s.t.(files := t'.files, heads := t'.heads, lastFile := t'.lastFile)
    requires forall n :: n in s.t.files ==> n in t'.files && t'.files[n] == s.t.files[n]
    ensures Intact(s.(t := t'))
  {
    hide FilesOk, HeadsOk;
    assert forall f :: f in s.t.files.Values ==> f in t'.files.Values by {
      forall f | f in s.t.files.Values ensures f in t'.files.Values {
        var n :| n in s.t.files && s.t.files[n] == f;
        assert n in t'.files && t'.files[n] == f;
      }
    }
  }

  lemma HeadsFrame(t: Tables, t': Tables)
    requires HeadsOk(t) && t'.layers == t.layers
    requires t'.heads.Keys <= t.heads.Keys && forall f :: f in t'.heads ==> t'.heads[f] == t.heads[f]
    ensures HeadsOk(t')
  {
    forall f | f in t'.heads ensures exists l :: IsLayerOf(t', f, l) && t'.layers[l].versionId == t'.heads[f] {
      var l :| IsLayerOf(t, f, l) && t.layers[l].versionId == t.heads[f];
      assert IsLayerOf(t', f, l);
    }
  }

  lemma SetHeadIntact(s: State, name: string, tag: string, pick: nat)
    requires Intact(s)
    ensures Intact(s.(t := StepSetHead(s.t, name, tag, pick)))
  {
    var t' := StepSetHead(s.t, name, tag, pick);
    assert HeadsOk(t') by {
      forall f | f in t'.heads ensures exists l :: IsLayerOf(t', f, l) && t'.layers[l].versionId == t'.heads[f] {
        if name in s.t.files && f == s.t.files[name] && t' != s.t {
          assert IsLayerOf(t', f, pick);
        } else {
          var l :| IsLayerOf(s.t, f, l) && s.t.layers[l].versionId == s.t.heads[f];
          assert IsLayerOf(t', f, l);
        }
      }
    }
    NamesIntact(s, t');
  }

  lemma DeleteHeadIntact(s: State, name: string)
    requires Intact(s)
    ensures Intact(s.(t := StepDeleteHead(s.t, name)))
  {
    HeadsFrame(s.t, StepDeleteHead(s.t, name));
    NamesIntact(s, StepDeleteHead(s.t, name));
  }

  lemma InsertFileIntact(s: State, name: string)
    requires Intact(s)
    ensures Intact(s.(t := StepInsertFile(s.t, name)))
  {
    var t' := StepInsertFile(s.t, name);
    HeadsFrame(s.t, t');
    assert FilesOk(t');
    NamesIntact(s, t');
  }

  lemma DrawLayerOk(t: Tables, t': Tables, objects: Objects)
    requires FilesOk(t) && LayersOk(t, objects) && RowsOk(t) && HeadsOk(t) && KeysOk(t, objects)
    requires t' == t.(lastLayer := t.lastLayer + 1)
    ensures FilesOk(t') && LayersOk(t', objects) && RowsOk(t') && HeadsOk(t') && KeysOk(t', objects)
  {
    HeadsFrame(t, t');
    hide HeadsOk;
  }

  lemma AddLayerStage(s: State, ok: bool)
    requires StageOk(s) && MemOk(s.t, s.memtable) && RemovalOk(s)
    requires forall l :: l in s.t.layers ==> l <= s.t.lastLayer
    ensures var s' := StepAddLayer(s, ok);
            StageOk(s') && MemOk(s'.t, s'.memtable) && RemovalOk(s')
  {
    var s' := StepAddLayer(s, ok);
    if s'.stage.Inserting? && s'.t != s.t {
      assert FreshVersion(s'.t, s.stage.versionId);
      assert ToRows(s'.stage.layerId, s.memtable[s.stage.fileId].chunks[..0]) == [];
    }
  }

  lemma AddLayerTables(s: State, ok: bool)
    ensures var s' := StepAddLayer(s, ok);
            && s'.objects == s.objects
            && (s'.t == s.t || s'.t == s.t.(lastLayer := s.t.lastLayer + 1))
  {
  }

  lemma AddLayerIntact(s: State, ok: bool)
    requires Intact(s)
    ensures Intact(StepAddLayer(s, ok))
  {
    assert forall l :: l in s.t.layers ==> l <= s.t.lastLayer by {
      assert LayersOk(s.t, s.objects);
    }
    hide FilesOk, LayersOk, RowsOk, HeadsOk, KeysOk, StageOk, MemOk, RemovalOk, StepAddLayer;
    DrawLayerOk(s.t, s.t.(lastLayer := s.t.lastLayer + 1), s.objects);
    AddLayerTables(s, ok);
    AddLayerStage(s, ok);
  }

  lemma WalIntact(s: State, name: string, ok: bool)
    requires Intact(s)
    ensures IsWALFile(name) ==> Intact(s.(wals := s.wals + {name}))
    ensures s.removal.NoRemoval? && IsWALFile(name) ==> Intact(s.(removal := Asked(name)))
    ensures Intact(StepDeleteWal(s, ok))
    ensures Intact(s.(memtable := map[], stage := Idle, removal := NoRemoval))
  {
    hide FilesOk, LayersOk, RowsOk, HeadsOk, KeysOk;
  }

  lemma FlushIntact(s: State, tag: string, faults: set<Call>)
    requires Intact(s)
    ensures Intact(StepFlush(s, tag, faults))
  {
    hide FilesOk, LayersOk, RowsOk, HeadsOk, KeysOk, MemOk, FreshVersion, HeadVersion, ObjectKey;
    if s.removal.Asked? && s.stage.Idle? {
      StartIntact(s, GetDBFilename(s.removal.wal), tag, faults);
    }
  }

  lemma DropIntact(s: State)
    requires Intact(s) && s.stage.Committed?
    ensures Intact(Finish(s.(memtable := s.memtable - {s.stage.fileId}), true))
  {
    hide FilesOk, LayersOk, RowsOk, HeadsOk, KeysOk;
  }

  lemma WriteIntact(rule: Rule, s: State, name: string, offset: nat, data: seq<byte>, faults: set<Call>)
    requires Intact(s) && s.stage.Idle?
    ensures Intact(s.(memtable := WriteTo(rule, s.t, s.memtable, name, offset, data, faults).1))
  {
    hide FilesOk, LayersOk, RowsOk, HeadsOk, KeysOk, CalcSizeOf, LayerWrite, HeadVersion;
    if name in s.t.files {
      var layer := ActiveOf(s.memtable, s.t.files[name]);
      forall fileSize: nat
        ensures WellMatched(LayerWrite(rule, layer, fileSize, offset, data))
        ensures LayerWrite(rule, layer, fileSize, offset, data).size
             == LayerEnd(LayerWrite(rule, layer, fileSize, offset, data))
      {
        WriteWellMatched(rule, layer, fileSize, offset, data);
      }
    }
  }

  /** Every step keeps the tables, objects and layers intact: any write, any failure, any crash. */
  lemma StepIntact(rule: Rule, s: State, e: Event)
    requires Intact(s)
    ensures Intact(Apply(rule, s, e))
  {
    hide Intact, StepUpload, StepAddLayer, StepAddChunk, StepCommit, StepSetHead, StepDeleteHead, StepInsertFile,
         StepFlush, StepDeleteWal, Start, WriteTo, Finish;
    match e
    case InsertFile(name) => InsertFileIntact(s, name);
    case WriteFile(name, offset, data, faults) =>
      if s.stage.Idle? { WriteIntact(rule, s, name, offset, data, faults); }
    case Checkpoint(name, tag, faults) => if s.stage.Idle? { StartIntact(s, name, tag, faults); }
    case Upload(ok, stored) => UploadIntact(s, ok, stored);
    case AddLayer(ok) => AddLayerIntact(s, ok);
    case AddChunk(ok) => AddChunkIntact(s, ok);
    case Commit(reply) => CommitIntact(s, reply);
    case DropActive => if s.stage.Committed? { DropIntact(s); }
    case SetHead(name, tag, pick) => SetHeadIntact(s, name, tag, pick);
    case DeleteHead(name) => DeleteHeadIntact(s, name);
    case CreateWal(name) => WalIntact(s, name, true);
    case RemoveWal(name) => WalIntact(s, name, true);
    case FlushForRemoval(tag, faults) => FlushIntact(s, tag, faults);
    case DeleteWal(ok) => WalIntact(s, "", ok);
    case Crash => WalIntact(s, "", true);
  }

  lemma {:induction false} RunIntact(rule: Rule, s: State, es: seq<Event>)
    requires Intact(s)
    ensures Intact(Run(rule, s, es))
    decreases |es|
  {
    if es != [] {
      StepIntact(rule, s, es[0]);
      RunIntact(rule, Apply(rule, s, es[0]), es[1..]);
    }
  }

  lemma HeadKnown(s: State, f: nat)
    requires Intact(s) && f in s.t.heads
    ensures HeadVersion(s.t, f).Some?
  {
    var l :| IsLayerOf(s.t, f, l) && s.t.layers[l].versionId == s.t.heads[f];
  }

  lemma HeadsExact(s: State, f: nat)
    requires Intact(s)
    ensures HeadVersion(s.t, f).None? <==> f !in s.t.heads
  {
    if f in s.t.heads {
      HeadKnown(s, f);
    }
  }

  /** A file's id never changes. */
  lemma {:induction false} FilesKept(rule: Rule, s: State, es: seq<Event>, name: string)
    requires name in s.t.files
    ensures name in Run(rule, s, es).t.files && Run(rule, s, es).t.files[name] == s.t.files[name]
    decreases |es|
  {
    if es != [] {
      FileKept(rule, s, es[0], name);
      hide Apply;
      FilesKept(rule, Apply(rule, s, es[0]), es[1..], name);
    }
  }

  lemma FileKept(rule: Rule, s: State, e: Event, name: string)
    requires name in s.t.files
    ensures name in Apply(rule, s, e).t.files && Apply(rule, s, e).t.files[name] == s.t.files[name]
  {
    hide WriteTo, Excluded, HeadVersion, ObjectKey;
  }
}
