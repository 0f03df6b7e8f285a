/**
 Empty writes: exactly when the size of a file becomes unknown, over every run of the shipped code,
 broken gaps, lost acknowledgements and crashes included.
 */
module EmptyWrites {
  import opened FlatFile
  import opened Layers
  import opened Tables
  import opened Reads
  import opened Machine
  import opened TimeTravel
  import opened Stored
  import opened Isolation
  import opened Atomicity
  import opened Refinement

  /** Once an empty range of a file is committed, its size is unknown for ever, and so no write to it
      is accepted while its active layer is empty. */
  lemma EmptyRangePoisons(rule: Rule, s: State, es: seq<Event>, row: ChunkRow, name: string,
                          offset: nat, data: seq<byte>, faults: set<Call>)
    requires Intact(s) && row in s.t.chunks && row.fileRange.IsEmpty()
    requires name in s.t.files && IsLayerOf(s.t, s.t.files[name], row.layerId)
    ensures var s' := Run(rule, s, es);
            && CalcFileSize(s'.t, s.t.files[name]).SizeFailed?
            && (ActiveOf(s'.memtable, s.t.files[name]).chunks == [] ==>
                  !WriteTo(rule, s'.t, s'.memtable, name, offset, data, faults).0.Written?)
  {
    var f, l := s.t.files[name], row.layerId;
    var s' := Run(rule, s, es);
    RunGrown(rule, s, es);
    FilesKept(rule, s, es, name);
    assert Kept(s, s', l) && 0 < l <= s.t.lastLayer <= s'.t.lastLayer;
    hide Intact, Run, Grown, HeadVersion;
    RowsOfIn(s.t.chunks, l, row);
    RowsOfIn(s'.t.chunks, l, row);
    var rows := FileRows(s'.t, f, s'.t.lastLayer);
    FileRowsIn(s'.t, f, s'.t.lastLayer, row);
    var k :| 0 <= k < |rows| && rows[k] == row;
    assert HasEmptyRange(rows);
  }

  predicate HasEmptyChunk(layer: Layer) {
    exists i :: 0 <= i < |layer.chunks| && layer.chunks[i].fileRange.IsEmpty()
  }

  lemma EmptyAppend(layer: Layer, start: nat, at: nat, bytes: seq<byte>)
    ensures HasEmptyChunk(AppendChunk(layer, start, at, bytes)) <==> HasEmptyChunk(layer) || bytes == []
  {
    var grown := AppendChunk(layer, start, at, bytes);
    var n := |layer.chunks|;
    assert grown.chunks[n].fileRange.IsEmpty() <==> bytes == [];
    if HasEmptyChunk(layer) {
      var i :| 0 <= i < n && layer.chunks[i].fileRange.IsEmpty();
      assert grown.chunks[i].fileRange.IsEmpty();
    }
  }

  /** Under either rule a write puts an empty range into the layer exactly when it is empty itself. */
  lemma EmptyWriteExact(rule: Rule, layer: Layer, fileSize: nat, offset: nat, data: seq<byte>)
    ensures HasEmptyChunk(LayerWrite(rule, layer, fileSize, offset, data)) <==> HasEmptyChunk(layer) || data == []
  {
    hide HasEmptyChunk, AppendChunk;
    var grown := layer;
    if offset > fileSize {
      grown := AppendChunk(layer, GapStart(rule, layer), fileSize, Zeros(offset - fileSize));
      EmptyAppend(layer, GapStart(rule, layer), fileSize, Zeros(offset - fileSize));
    }
    EmptyAppend(grown, LayerEnd(grown), offset, data);
  }

  lemma EmptyRows(rows: seq<ChunkRow>, layer: Layer, l: nat)
    ensures HasEmptyRange(rows + ToRows(l, layer.chunks)) <==> HasEmptyRange(rows) || HasEmptyChunk(layer)
  {
    var more := ToRows(l, layer.chunks);
    if HasEmptyRange(rows) {
      var i :| 0 <= i < |rows| && rows[i].fileRange.IsEmpty();
      assert (rows + more)[i].fileRange.IsEmpty();
    }
    if HasEmptyChunk(layer) {
      var i :| 0 <= i < |layer.chunks| && layer.chunks[i].fileRange.IsEmpty();
      assert (rows + more)[|rows| + i].fileRange.IsEmpty();
    }
  }

  /** A commit makes the size unknown exactly when it was so already or the layer has an empty chunk. */
  lemma CommitPoisonsExact(s: State, e: Event)
    requires Intact(s) && Commits(s, e)
    ensures var f := s.stage.fileId;
            CalcFileSize(StepCommit(s, e.reply).t, f).SizeFailed? <==>
            CalcFileSize(s.t, f).SizeFailed? || HasEmptyChunk(Active(s, f))
  {
    hide Intact, StepCommit, FileRows, HasEmptyRange, HasEmptyChunk, Holds;
    CommitHolds(s, e);
    EmptyRows(AllRows(s, s.stage.fileId), Active(s, s.stage.fileId), s.stage.layerId);
  }

  // ---------- Over a run ----------

  /** `pending`: an accepted empty write to the file is still in memory; `committed`: one was committed. */
  datatype Taint = Taint(pending: bool, committed: bool)

  function TaintStep(rule: Rule, s: State, e: Event, f: nat, x: Taint): Taint {
    if EmptyWriteTo(rule, s, e, f) then x.(pending := true)
    else if DropsLayer(s, e, f) then x.(pending := false)
    else if Commits(s, e) && s.stage.fileId == f then x.(committed := x.committed || x.pending)
    else x
  }

  function TaintRun(rule: Rule, s: State, es: seq<Event>, f: nat, x: Taint): Taint
    decreases |es|
  {
    if es == [] then x else TaintRun(rule, Apply(rule, s, es[0]), es[1..], f, TaintStep(rule, s, es[0], f, x))
  }

  /** What the state itself shows of it. */
  function TaintOf(s: State, f: nat): Taint {
    Taint(HasEmptyChunk(Active(s, f)), CalcFileSize(s.t, f).SizeFailed?)
  }

  lemma TaintWrite(rule: Rule, s: State, e: Event, f: nat)
    requires Accepted(rule, s, e) && s.t.files[e.name] == f
    ensures TaintOf(Apply(rule, s, e), f) == TaintStep(rule, s, e, f, TaintOf(s, f))
  {
    assert !DropsLayer(s, e, f) && !Commits(s, e);
    hide Apply, Active, CalcSizeOf, CalcFileSize, LayerWrite, HasEmptyChunk, Accepted, DropsLayer, Commits;
    AcceptedWriteLayer(rule, s, e);
    EmptyWriteExact(rule, Active(s, f), CalcSizeOf(rule, s.t, Active(s, f), f, e.faults).bytes, e.offset, e.data);
  }

  lemma TaintDrop(rule: Rule, s: State, e: Event, f: nat)
    requires DropsLayer(s, e, f)
    ensures TaintOf(Apply(rule, s, e), f) == TaintStep(rule, s, e, f, TaintOf(s, f))
  {
    assert !EmptyWriteTo(rule, s, e, f);
    assert Apply(rule, s, e).t == s.t && Active(Apply(rule, s, e), f) == EMPTY_LAYER;
    hide Apply, Active, CalcFileSize, EmptyWriteTo, DropsLayer;
  }

  lemma SizeStays(rule: Rule, s: State, e: Event, f: nat)
    requires Intact(s) && !(Commits(s, e) && s.stage.fileId == f)
    ensures CalcFileSize(Apply(rule, s, e).t, f) == CalcFileSize(s.t, f)
  {
    assert e.WriteFile? || e.Crash? || e.DropActive? ==> Apply(rule, s, e).t == s.t;
    assert e.Commit? ==> Apply(rule, s, e) == StepCommit(s, e.reply);
    assert Stores(s, e, f) && e.Commit? ==> !Commits(s, e);
    assert Stores(s, e, f) ==> e.WriteFile? || e.Crash? || e.DropActive? || e.Commit?;
    hide Intact, Apply, CalcFileSize, Stores, Commits, StepCommit, Active, Base, AllRows;
    if !Stores(s, e, f) {
      StepIsolated(rule, s, e, f);
    } else if e.Commit? {
      IdleCommit(s, e);
    }
  }

  lemma TaintStepExact(rule: Rule, s: State, e: Event, f: nat)
    requires Intact(s)
    ensures TaintOf(Apply(rule, s, e), f) == TaintStep(rule, s, e, f, TaintOf(s, f))
  {
    assert Commits(s, e) ==> Apply(rule, s, e) == StepCommit(s, e.reply) && !DropsLayer(s, e, f);
    assert Commits(s, e) ==> !Accepted(rule, s, e);
    assert EmptyWriteTo(rule, s, e, f) ==> Accepted(rule, s, e) && s.t.files[e.name] == f;
    hide Intact, Apply, StepCommit, CalcFileSize, HasEmptyChunk, Accepted, DropsLayer, Commits, EmptyWriteTo, Active;
    if Accepted(rule, s, e) && s.t.files[e.name] == f {
      TaintWrite(rule, s, e, f);
    } else if DropsLayer(s, e, f) {
      TaintDrop(rule, s, e, f);
    } else {
      ActiveStep(rule, s, e, f);
      if Commits(s, e) && s.stage.fileId == f {
        CommitPoisonsExact(s, e);
      } else {
        SizeStays(rule, s, e, f);
      }
    }
  }

  lemma {:induction false} TaintRunExact(rule: Rule, s: State, es: seq<Event>, f: nat)
    requires Intact(s)
    ensures TaintOf(Run(rule, s, es), f) == TaintRun(rule, s, es, f, TaintOf(s, f))
    decreases |es|
  {
    if es != [] {
      hide Intact, Apply, TaintStep, TaintOf;
      StepIntact(rule, s, es[0]);
      TaintStepExact(rule, s, es[0], f);
      TaintRunExact(rule, Apply(rule, s, es[0]), es[1..], f);
    }
  }

  /**
   After any run from the empty system the size of a file is unknown if and only if an accepted empty
   write to it was committed: still in memory, neither dropped nor lost in a crash, when its layer was.
   */
  lemma SizeKnownExact(rule: Rule, es: seq<Event>, f: nat)
    ensures CalcFileSize(Run(rule, INITIAL, es).t, f).SizeFailed? <==>
            TaintRun(rule, INITIAL, es, f, Taint(false, false)).committed
  {
    assert Intact(INITIAL) && TaintOf(INITIAL, f) == Taint(false, false);
    hide Intact, Run, TaintRun, CalcFileSize, HasEmptyChunk, Active;
    TaintRunExact(rule, INITIAL, es, f);
  }

  lemma {:induction false} NeverTainted(rule: Rule, s: State, es: seq<Event>, f: nat)
    requires NoEmptyWriteTo(rule, s, es, f)
    ensures TaintRun(rule, s, es, f, Taint(false, false)) == Taint(false, false)
    decreases |es|
  {
    if es != [] {
      hide Apply, EmptyWriteTo, DropsLayer, Commits;
      NeverTainted(rule, Apply(rule, s, es[0]), es[1..], f);
    }
  }

  /** In particular it is known for as long as no empty write to the file is accepted. */
  lemma SizeKnown(rule: Rule, es: seq<Event>, f: nat)
    requires NoEmptyWriteTo(rule, INITIAL, es, f)
    ensures CalcFileSize(Run(rule, INITIAL, es).t, f).Size?
  {
    hide Run, TaintRun, CalcFileSize, NoEmptyWriteTo;
    SizeKnownExact(rule, es, f);
    NeverTainted(rule, INITIAL, es, f);
  }

  /** And once an empty write is in memory and committed it is unknown for ever. */
  lemma {:induction false} TaintStays(rule: Rule, s: State, es: seq<Event>, f: nat, x: Taint)
    requires x.committed
    ensures TaintRun(rule, s, es, f, x).committed
    decreases |es|
  {
    if es != [] {
      hide Apply, EmptyWriteTo, DropsLayer, Commits;
      TaintStays(rule, Apply(rule, s, es[0]), es[1..], f, TaintStep(rule, s, es[0], f, x));
    }
  }

  lemma {:induction false} PendingStays(rule: Rule, s: State, es: seq<Event>, f: nat, x: Taint)
    requires x.pending && KeepsLayer(rule, s, es, f)
    ensures TaintRun(rule, s, es, f, x).pending
    decreases |es|
  {
    if es != [] {
      hide Apply, EmptyWriteTo, DropsLayer, Commits;
      PendingStays(rule, Apply(rule, s, es[0]), es[1..], f, TaintStep(rule, s, es[0], f, x));
    }
  }

  /**
   An accepted empty write, whatever is written after it, poisons its file as soon as the layer is
   committed: from then on, for ever, the size is unknown.
   */
  lemma EmptyWritePoisons(rule: Rule, s: State, e: Event, es: seq<Event>, commit: Event, es': seq<Event>)
    requires Intact(s) && Accepted(rule, s, e) && e.data == []
    requires var f, s1 := s.t.files[e.name], Apply(rule, s, e);
             && KeepsLayer(rule, s1, es, f)
             && Commits(Run(rule, s1, es), commit) && Run(rule, s1, es).stage.fileId == f
    ensures var s' := Run(rule, Apply(rule, Run(rule, Apply(rule, s, e), es), commit), es');
            CalcFileSize(s'.t, s.t.files[e.name]).SizeFailed?
  {
    var f := s.t.files[e.name];
    var s1 := Apply(rule, s, e);
    var s2 := Run(rule, s1, es);
    var s3 := Apply(rule, s2, commit);
    assert EmptyWriteTo(rule, s, e, f) && !DropsLayer(s2, commit, f) && !EmptyWriteTo(rule, s2, commit, f);
    hide Intact, Apply, Run, CalcFileSize, HasEmptyChunk, Active, Accepted, Commits, DropsLayer, EmptyWriteTo,
         KeepsLayer, TaintRun;
    StepIntact(rule, s, e);
    TaintStepExact(rule, s, e, f);
    RunIntact(rule, s1, es);
    TaintRunExact(rule, s1, es, f);
    PendingStays(rule, s1, es, f, TaintOf(s1, f));
    StepIntact(rule, s2, commit);
    TaintStepExact(rule, s2, commit, f);
    TaintRunExact(rule, s3, es', f);
    TaintStays(rule, s3, es', f, TaintOf(s3, f));
  }
}
