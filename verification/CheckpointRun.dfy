/**
 A whole checkpoint: with nothing failing, its steps lead to exactly one new version, layer and
 object; and in every run, only layers whose chunks satisfy the EXCLUDE constraint are committed.
 */
module CheckpointRun {
  import opened Layers
  import opened Tables
  import opened Reads
  import opened Machine

  /** What the EXCLUDE constraint asks of a layer's chunks. */
  predicate Disjoint(chunks: seq<Chunk>) {
    forall i, j :: 0 <= i < j < |chunks| ==> !SqlOverlap(chunks[i].layerRange, chunks[j].layerRange)
  }

  lemma TiledDisjoint(layer: Layer)
    requires Tiled(layer)
    ensures Disjoint(layer.chunks)
  {
    forall i, j | 0 <= i < j < |layer.chunks|
      ensures !SqlOverlap(layer.chunks[i].layerRange, layer.chunks[j].layerRange)
    {
      TiledChunksDisjoint(layer, i, j);
    }
  }

  function Inserts(n: nat): seq<Event> {
    if n == 0 then [] else [AddChunk(true)] + Inserts(n - 1)
  }

  /** The steps of a checkpoint of `n` chunks in which nothing fails, from its first one. */
  function StepsFrom(first: Event, n: nat): seq<Event> {
    [first, Upload(true, true), AddLayer(true)] + (Inserts(n) + [Commit(Acknowledged), DropActive])
  }

  function Steps(name: string, tag: string, n: nat): seq<Event> {
    StepsFrom(Checkpoint(name, tag, {}), n)
  }

  /** The state a checkpoint leads to. */
  function Done(s: State, name: string, tag: string): State
    requires name in s.t.files
  {
    var f := s.t.files[name];
    var versionId, layerId := s.t.lastVersion + 1, s.t.lastLayer + 1;
    var key := ObjectKey(name, f, versionId);
    var layer := ActiveOf(s.memtable, f);
    s.(t := CommitTables(s.t.(lastVersion := versionId, lastLayer := layerId),
                         f, versionId, tag, key, layerId, ToRows(layerId, layer.chunks)),
       objects := s.objects[key := layer.data],
       memtable := s.memtable - {f})
  }

  lemma {:induction false} RunConcat(rule: Rule, s: State, a: seq<Event>, b: seq<Event>)
    ensures Run(rule, s, a + b) == Run(rule, Run(rule, s, a), b)
    decreases |a|
  {
    hide Apply;
    if a == [] {
      assert a + b == b;
    } else {
      assert (a + b)[1..] == a[1..] + b;
      RunConcat(rule, Apply(rule, s, a[0]), a[1..], b);
    }
  }

  lemma {:induction false} RunInserts(rule: Rule, s: State, chunks: seq<Chunk>, n: nat)
    requires s.stage.Inserting? && chunks == ActiveOf(s.memtable, s.stage.fileId).chunks && Disjoint(chunks)
    requires |s.stage.rows| + n == |chunks| && s.stage.rows == ToRows(s.stage.layerId, chunks[..|s.stage.rows|])
    ensures Run(rule, s, Inserts(n)) == s.(stage := s.stage.(rows := ToRows(s.stage.layerId, chunks)))
    decreases n
  {
    var k := |s.stage.rows|;
    if n == 0 {
      assert chunks[..k] == chunks;
    } else {
      var row := ToRow(s.stage.layerId, chunks[k]);
      assert !Excluded(s.stage.rows, row) by {
        forall i | 0 <= i < k ensures !SqlOverlap(s.stage.rows[i].layerRange, row.layerRange) {
          assert s.stage.rows[i] == ToRow(s.stage.layerId, chunks[i]);
        }
      }
      var s' := Apply(rule, s, AddChunk(true));
      assert s' == s.(stage := s.stage.(rows := s.stage.rows + [row]));
      assert chunks[..k + 1] == chunks[..k] + [chunks[k]];
      assert Inserts(n)[1..] == Inserts(n - 1);
      hide Excluded, Disjoint;
      RunInserts(rule, s', chunks, n - 1);
    }
  }

  /** When a checkpoint starts, finds nothing to do, or refuses; and what it does to start. */
  lemma StartExact(s: State, name: string, tag: string, faults: set<Call>)
    requires Intact(s)
    ensures Start(s, name, tag, faults) ==
              if BeginTx in faults || FileQuery in faults then (NotStarted, s)
              else if name !in s.t.files then (NothingToDo, s)
              else if HeadQuery in faults || s.t.files[name] in s.t.heads then (NotStarted, s)
              else if ActiveOf(s.memtable, s.t.files[name]).data == [] then (NothingToDo, s)
              else if VersionInsert in faults then (NotStarted, s)
              else (Started, s.(t := s.t.(lastVersion := s.t.lastVersion + 1),
                                stage := Versioned(s.t.files[name], name, s.t.lastVersion + 1, tag)))
  {
    if name in s.t.files {
      HeadsExact(s, s.t.files[name]);
    }
    hide Intact, HeadVersion;
  }

  /** Upload and layer row, once a version is drawn. */
  lemma RunOpening(rule: Rule, s: State, first: Event)
    requires Apply(rule, s, first).stage.Versioned?
    requires var s1 := Apply(rule, s, first);
             |ObjectKey(s1.stage.name, s1.stage.fileId, s1.stage.versionId)| <= 255
    ensures var s1 := Apply(rule, s, first);
            var f, versionId, layerId := s1.stage.fileId, s1.stage.versionId, s1.t.lastLayer + 1;
            var key := ObjectKey(s1.stage.name, f, versionId);
            Run(rule, s, [first, Upload(true, true), AddLayer(true)])
            == s1.(t := s1.t.(lastLayer := layerId),
                   objects := s1.objects[key := ActiveOf(s1.memtable, f).data],
                   stage := Inserting(f, versionId, s1.stage.tag, key, layerId, []))
  {
    RunThree(rule, s, first, Upload(true, true), AddLayer(true));
    var s1 := Apply(rule, s, first);
    OpeningSteps(rule, s1);
  }

  lemma OpeningSteps(rule: Rule, s: State)
    requires s.stage.Versioned? && |ObjectKey(s.stage.name, s.stage.fileId, s.stage.versionId)| <= 255
    ensures var f, layerId := s.stage.fileId, s.t.lastLayer + 1;
            var key := ObjectKey(s.stage.name, f, s.stage.versionId);
            Apply(rule, Apply(rule, s, Upload(true, true)), AddLayer(true))
            == s.(t := s.t.(lastLayer := layerId),
                  objects := s.objects[key := ActiveOf(s.memtable, f).data],
                  stage := Inserting(f, s.stage.versionId, s.stage.tag, key, layerId, []))
  {
    hide ObjectKey;
  }

  lemma RunThree(rule: Rule, s: State, e1: Event, e2: Event, e3: Event)
    ensures Run(rule, s, [e1, e2, e3]) == Apply(rule, Apply(rule, Apply(rule, s, e1), e2), e3)
  {
    hide Apply;
    var s1 := Apply(rule, s, e1);
    var s2 := Apply(rule, s1, e2);
    assert [e1, e2, e3][1..] == [e2, e3] && [e2, e3][1..] == [e3] && [e3][1..] == [];
    assert Run(rule, s2, [e3]) == Apply(rule, s2, e3);
    assert Run(rule, s1, [e2, e3]) == Run(rule, s2, [e3]);
  }

  /** What a checkpoint that went through leaves of a removal waiting for it. */
  function AfterFlush(removal: Removal): Removal {
    if removal.Flushing? then Cleared(removal.wal) else removal
  }

  /** Commit and drop, once all rows are in. */
  lemma RunEnd(rule: Rule, s: State)
    requires s.stage.Inserting? && s.stage.fileId in s.memtable
    requires |s.stage.rows| >= |ActiveOf(s.memtable, s.stage.fileId).chunks|
    ensures Run(rule, s, [Commit(Acknowledged), DropActive])
         == s.(t := Committing(s), memtable := s.memtable - {s.stage.fileId}, stage := Idle,
               removal := AfterFlush(s.removal))
  {
    var e1, e2 := Commit(Acknowledged), DropActive;
    var s1 := Apply(rule, s, e1);
    assert s1 == s.(t := Committing(s), stage := Committed(s.stage.fileId));
    assert [e1, e2][1..] == [e2] && [e2][1..] == [];
    assert Run(rule, s1, [e2]) == Apply(rule, s1, e2);
  }

  /** The state in which a checkpoint ends that has drawn its version in `s`. */
  function Flushed(s: State): State
    requires s.stage.Versioned?
  {
    var f, versionId, layerId := s.stage.fileId, s.stage.versionId, s.t.lastLayer + 1;
    var key := ObjectKey(s.stage.name, f, versionId);
    var layer := ActiveOf(s.memtable, f);
    s.(t := CommitTables(s.t.(lastLayer := layerId), f, versionId, s.stage.tag, key, layerId,
                         ToRows(layerId, layer.chunks)),
       objects := s.objects[key := layer.data],
       memtable := s.memtable - {f},
       stage := Idle,
       removal := AfterFlush(s.removal))
  }

  /** Once its version is drawn, nothing failing, a checkpoint of disjoint chunks goes through. */
  lemma FlushSucceeds(rule: Rule, s: State, first: Event)
    requires Apply(rule, s, first).stage.Versioned?
    requires var s1 := Apply(rule, s, first);
             && s1.stage.fileId in s1.memtable && Disjoint(s1.memtable[s1.stage.fileId].chunks)
             && |ObjectKey(s1.stage.name, s1.stage.fileId, s1.stage.versionId)| <= 255
    ensures var s1 := Apply(rule, s, first);
            Run(rule, s, StepsFrom(first, |s1.memtable[s1.stage.fileId].chunks|)) == Flushed(s1)
  {
    var s1 := Apply(rule, s, first);
    var chunks := s1.memtable[s1.stage.fileId].chunks;
    var n := |chunks|;
    var opening := [first, Upload(true, true), AddLayer(true)];
    var closing := [Commit(Acknowledged), DropActive];
    hide ObjectKey, Run, Disjoint, Apply;
    RunConcat(rule, s, opening, Inserts(n) + closing);
    RunOpening(rule, s, first);
    var s3 := Run(rule, s, opening);
    RunConcat(rule, s3, Inserts(n), closing);
    assert chunks[..0] == [];
    RunInserts(rule, s3, chunks, n);
    RunEnd(rule, Run(rule, s3, Inserts(n)));
  }

  /**
   A checkpoint that meets no failure commits exactly the active layer: one version, one object with
   the layer's data, one layer row, the layer's chunks in order; and the memtable entry is gone.
   */
  lemma CheckpointSucceeds(rule: Rule, s: State, name: string, tag: string)
    requires Intact(s) && s.stage.Idle? && name in s.t.files && HeadVersion(s.t, s.t.files[name]).None?
    requires s.t.files[name] in s.memtable && s.memtable[s.t.files[name]].data != []
    requires Disjoint(s.memtable[s.t.files[name]].chunks)
    requires |ObjectKey(name, s.t.files[name], s.t.lastVersion + 1)| <= 255
    ensures Run(rule, s, Steps(name, tag, |s.memtable[s.t.files[name]].chunks|)) == Done(s, name, tag)
  {
    assert !s.removal.Flushing?;
    hide HeadVersion, ObjectKey, Intact, Run, Disjoint, StepsFrom;
    FlushSucceeds(rule, s, Checkpoint(name, tag, {}));
  }

  /** The call behind the step failed, or in place of its acknowledgement came an error. */
  predicate StepFails(s: State, e: Event) {
    match e
    case Upload(ok, _) => s.stage.Versioned? && !ok
    case AddLayer(ok) => s.stage.Uploaded? && !ok
    case AddChunk(ok) =>
      s.stage.Inserting? && |s.stage.rows| < |ActiveOf(s.memtable, s.stage.fileId).chunks| && !ok
    case Commit(reply) =>
      s.stage.Inserting? && |s.stage.rows| >= |ActiveOf(s.memtable, s.stage.fileId).chunks| && !reply.Acknowledged?
    case _ => false
  }

  /** A step that fails ends the checkpoint, and a removal waiting for it; what is in memory stays.
      Of an upload whose error came late the object stays behind. */
  lemma FailedStepEnds(rule: Rule, s: State, e: Event)
    requires StepFails(s, e)
    ensures var s' := Apply(rule, s, e);
            && s'.stage.Idle? && s'.memtable == s.memtable && s'.wals == s.wals
            && s'.removal == (if s.removal.Flushing? then NoRemoval else s.removal)
            && (!(e.Commit? && e.reply.Lost?) ==> s'.t == s.t)
            && s'.objects == if e.Upload? && e.stored
                             then s.objects[ObjectKey(s.stage.name, s.stage.fileId, s.stage.versionId) :=
                                              ActiveOf(s.memtable, s.stage.fileId).data]
                             else s.objects
  {
    hide ObjectKey, Excluded;
  }

  /** Not so with a key of more characters than its column holds, whatever the file holds. */
  lemma LongKeyRefused(rule: Rule, s: State, ok: bool)
    requires s.stage.Uploaded? && |s.stage.key| > 255
    ensures var s' := Apply(rule, s, AddLayer(ok));
            && s'.stage.Idle? && s'.memtable == s.memtable
            && s'.t.layers == s.t.layers && s'.t.versions == s.t.versions && s'.t.chunks == s.t.chunks
  {
  }

  /** The rows of the file after such a checkpoint: the ones before, then the active layer's. */
  lemma DoneRows(s: State, name: string, tag: string)
    requires Intact(s) && name in s.t.files
    ensures var f, t' := s.t.files[name], Done(s, name, tag).t;
            FileRows(t', f, t'.lastLayer)
            == FileRows(s.t, f, s.t.lastLayer) + ToRows(s.t.lastLayer + 1, ActiveOf(s.memtable, f).chunks)
  {
    hide HeadsOk, KeysOk, MemOk, StageOk, RemovalOk, FilesOk, FileRows, ObjectKey;
    var f, t' := s.t.files[name], Done(s, name, tag).t;
    assert forall l :: l in s.t.layers ==> l <= s.t.lastLayer;
    NewLayerRows(s.t, t', f, s.t.lastLayer + 1, ToRows(s.t.lastLayer + 1, ActiveOf(s.memtable, f).chunks));
  }

  // ---------- Only disjoint layers are ever committed ----------

  ghost predicate RowsDisjoint(s: State) {
    s.stage.Inserting? ==>
      forall i, j :: 0 <= i < j < |s.stage.rows| ==> !SqlOverlap(s.stage.rows[i].layerRange, s.stage.rows[j].layerRange)
  }

  lemma RowsDisjointStep(rule: Rule, s: State, e: Event)
    requires Intact(s) && RowsDisjoint(s)
    ensures RowsDisjoint(Apply(rule, s, e))
  {
    hide WriteTo, HeadVersion, ObjectKey, SqlOverlap, Intact;
    if e.AddChunk? {
      RowsDisjointAdd(s, e.ok);
    }
  }

  lemma RowsDisjointAdd(s: State, ok: bool)
    requires Intact(s) && RowsDisjoint(s)
    ensures RowsDisjoint(StepAddChunk(s, ok))
  {
    hide LayersOk, RowsOk, HeadsOk, KeysOk, FilesOk, RemovalOk, SqlOverlap;
    var s' := StepAddChunk(s, ok);
    if s'.stage.Inserting? && s' != s {
      var rows, n := s'.stage.rows, |s.stage.rows|;
      forall i | 0 <= i < n ensures !SqlOverlap(rows[i].layerRange, rows[n].layerRange) {
        assert s.stage.rows[i].layerId == s.stage.layerId;
      }
    }
  }

  lemma {:induction false} RowsDisjointRun(rule: Rule, s: State, es: seq<Event>)
    requires Intact(s) && RowsDisjoint(s)
    ensures RowsDisjoint(Run(rule, s, es))
    decreases |es|
  {
    if es != [] {
      hide Intact, RowsDisjoint, Apply;
      StepIntact(rule, s, es[0]);
      RowsDisjointStep(rule, s, es[0]);
      RowsDisjointRun(rule, Apply(rule, s, es[0]), es[1..]);
    }
  }

  /** In every run from the empty system, all chunks of a layer are in only if they are disjoint. */
  lemma OnlyDisjointCommitted(rule: Rule, es: seq<Event>)
    ensures var s := Run(rule, INITIAL, es);
            s.stage.Inserting? && |s.stage.rows| >= |ActiveOf(s.memtable, s.stage.fileId).chunks| ==>
              Disjoint(ActiveOf(s.memtable, s.stage.fileId).chunks)
  {
    var s := Run(rule, INITIAL, es);
    assert Intact(INITIAL) && RowsDisjoint(INITIAL);
    RunIntact(rule, INITIAL, es);
    RowsDisjointRun(rule, INITIAL, es);
    if s.stage.Inserting? && |s.stage.rows| >= |ActiveOf(s.memtable, s.stage.fileId).chunks| {
      hide LayersOk, RowsOk, HeadsOk, KeysOk, FilesOk, RemovalOk, Run;
      var chunks := ActiveOf(s.memtable, s.stage.fileId).chunks;
      assert chunks[..|chunks|] == chunks;
      forall i, j | 0 <= i < j < |chunks| ensures !SqlOverlap(chunks[i].layerRange, chunks[j].layerRange) {
        assert s.stage.rows[i] == ToRow(s.stage.layerId, chunks[i]);
        assert s.stage.rows[j] == ToRow(s.stage.layerId, chunks[j]);
      }
    }
  }
}
