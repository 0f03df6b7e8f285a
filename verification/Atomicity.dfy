/**
 Checkpoints are atomic and flushing keeps the contents, over every run of the shipped code: unsafe
 and empty writes, lost acknowledgements and head moves in between included.
 */
module Atomicity {
  import opened Overlay
  import opened Layers
  import opened Tables
  import opened WalNames
  import opened Machine
  import opened Stored
  import opened Isolation

  ghost predicate EndsWith(x: seq<Piece>, y: seq<Piece>) {
    |y| <= |x| && x[|x| - |y|..] == y
  }

  /** Between the commit and the drop, the committed pieces end with those still in memory. */
  ghost predicate FlushedTail(s: State) {
    s.stage.Committed? ==> EndsWith(Base(s, s.stage.fileId), ActiveLog(Active(s, s.stage.fileId)))
  }

  predicate IsCheckpointStep(e: Event) {
    e.Checkpoint? || e.FlushForRemoval? || e.Upload? || e.AddLayer? || e.AddChunk? || e.Commit? || e.DropActive?
  }

  /** Steps that may change the latest contents of `f`: an accepted write to it, and a crash. */
  predicate Alters(rule: Rule, s: State, e: Event, f: nat) {
    e.Crash? || (Accepted(rule, s, e) && s.t.files[e.name] == f)
  }

  lemma SameLatest(s: State, s': State, f: nat)
    requires Base(s', f) == Base(s, f) && ActiveLog(Active(s', f)) == ActiveLog(Active(s, f))
    ensures Latest(s', f) == Latest(s, f)
  {
  }

  lemma UnalteringWrite(rule: Rule, s: State, e: Event, f: nat)
    requires e.WriteFile? && !Alters(rule, s, e, f)
    ensures Active(Apply(rule, s, e), f) == Active(s, f)
    ensures Apply(rule, s, e) == s.(memtable := Apply(rule, s, e).memtable)
    ensures !s.stage.Idle? ==> Apply(rule, s, e) == s
  {
    hide CalcSizeOf, LayerWrite, HeadVersion;
  }

  /** The active layer of `f` is given up. */
  predicate DropsLayer(s: State, e: Event, f: nat) {
    e.Crash? || (e.DropActive? && s.stage.Committed? && s.stage.fileId == f)
  }

  ghost predicate KeepsLayer(rule: Rule, s: State, es: seq<Event>, f: nat)
    decreases |es|
  {
    es != [] ==> !DropsLayer(s, es[0], f) && KeepsLayer(rule, Apply(rule, s, es[0]), es[1..], f)
  }

  lemma ActiveStep(rule: Rule, s: State, e: Event, f: nat)
    requires !DropsLayer(s, e, f) && !(Accepted(rule, s, e) && s.t.files[e.name] == f)
    ensures Active(Apply(rule, s, e), f) == Active(s, f)
  {
    if e.WriteFile? {
      UnalteringWrite(rule, s, e, f);
    } else {
      hide ObjectKey, HeadVersion, Excluded, HasEmptyRange, LayersTagged, RowsOf, GetDBFilename, IsWALFile;
    }
  }

  lemma IdleCommit(s: State, e: Event)
    requires e.Commit? && !Commits(s, e)
    ensures StepCommit(s, e.reply) == s || StepCommit(s, e.reply) == Finish(s, false)
  {
  }

  lemma CommitLatest(s: State, e: Event)
    requires Intact(s) && Commits(s, e)
    ensures var s', f := StepCommit(s, e.reply), s.stage.fileId;
            && Latest(s', f) == Latest(s, f)
            && Contents(Base(s', f)) == Latest(s, f)
            && FlushedTail(s')
  {
    var s', f := StepCommit(s, e.reply), s.stage.fileId;
    CommitBase(s, e);
    CommitShape(s, e);
    hide Intact, Base, Contents, Contiguous;
    assert Active(s', f) == Active(s, f);
    SuffixIdempotent(Base(s, f), ActiveLog(Active(s, f)));
  }

  lemma DropLatest(rule: Rule, s: State)
    requires FlushedTail(s) && s.stage.Committed?
    ensures Latest(Apply(rule, s, DropActive), s.stage.fileId) == Latest(s, s.stage.fileId)
  {
    var s', f := Apply(rule, s, DropActive), s.stage.fileId;
    DropShape(rule, s);
    assert Base(s', f) == Base(s, f) by { UnchangedBase(s, s', f); }
    hide Apply, Base, Contents, Contiguous;
    var tail := ActiveLog(Active(s, f));
    var front := Base(s, f)[..|Base(s, f)| - |tail|];
    assert Base(s, f) == front + tail;
    SuffixIdempotent(front, tail);
    assert ActiveLog(EMPTY_LAYER) == [] && Base(s, f) + [] == Base(s, f);
    assert Active(s', f) == EMPTY_LAYER;
  }

  lemma UnchangedBase(s: State, s': State, f: nat)
    requires s'.t == s.t && s'.objects == s.objects
    ensures Base(s', f) == Base(s, f)
  {
  }

  /** No step but an accepted write to the file, or a crash, changes its latest contents. */
  lemma LatestStep(rule: Rule, s: State, e: Event, f: nat)
    requires Intact(s) && FlushedTail(s) && !Alters(rule, s, e, f)
    ensures Latest(Apply(rule, s, e), f) == Latest(s, f)
  {
    var s' := Apply(rule, s, e);
    if !Stores(s, e, f) {
      hide Intact, Apply, Stores, Alters, FlushedTail, Base, Active, Latest;
      StepIsolated(rule, s, e, f);
      StoredLatest(s, s', f);
    } else if e.WriteFile? {
      UnalteringWrite(rule, s, e, f);
      UnchangedBase(s, s', f);
      SameLatest(s, s', f);
    } else if e.DropActive? {
      if s.stage.Committed? {
        DropLatest(rule, s);
      }
    } else {
      assert e.Commit? && s' == StepCommit(s, e.reply);
      if Commits(s, e) {
        CommitLatest(s, e);
      } else {
        IdleCommit(s, e);
        UnchangedBase(s, s', f);
        SameLatest(s, s', f);
      }
    }
  }

  lemma StoredLatest(s: State, s': State, f: nat)
    requires SameStored(s, s', f)
    ensures Latest(s', f) == Latest(s, f)
  {
  }

  /** What keeps a stage Committed without being the commit itself stores nothing. */
  lemma StaysCommitted(rule: Rule, s: State, e: Event)
    requires Apply(rule, s, e).stage.Committed? && !Commits(s, e)
    ensures s.stage.Committed? && s.stage == Apply(rule, s, e).stage
    ensures Stores(s, e, s.stage.fileId) ==> Apply(rule, s, e) == s
  {
    hide ObjectKey, HeadVersion, Excluded, LayersTagged, HasEmptyRange, RowsOf, WriteTo, GetDBFilename;
  }

  lemma FlushedStep(rule: Rule, s: State, e: Event)
    requires Intact(s) && FlushedTail(s)
    ensures FlushedTail(Apply(rule, s, e))
  {
    var s' := Apply(rule, s, e);
    if Commits(s, e) {
      assert s' == StepCommit(s, e.reply);
      hide Intact, Apply, FlushedTail, Commits, StepCommit;
      CommitLatest(s, e);
    } else if s'.stage.Committed? {
      hide Intact, Apply, Stores, Base, Active, EndsWith, Commits;
      StaysCommitted(rule, s, e);
      if !Stores(s, e, s.stage.fileId) {
        StepIsolated(rule, s, e, s.stage.fileId);
      }
    }
  }

  lemma {:induction false} FlushedRun(rule: Rule, s: State, es: seq<Event>)
    requires Intact(s) && FlushedTail(s)
    ensures FlushedTail(Run(rule, s, es))
    decreases |es|
  {
    if es != [] {
      hide Intact, FlushedTail, Apply;
      StepIntact(rule, s, es[0]);
      FlushedStep(rule, s, es[0]);
      FlushedRun(rule, Apply(rule, s, es[0]), es[1..]);
    }
  }

  ghost predicate RunUnaltering(rule: Rule, s: State, es: seq<Event>, f: nat)
    decreases |es|
  {
    es != [] ==> !Alters(rule, s, es[0], f) && RunUnaltering(rule, Apply(rule, s, es[0]), es[1..], f)
  }

  /** Over any run without an accepted write to the file and without a crash, its contents stay. */
  lemma {:induction false} LatestRun(rule: Rule, s: State, es: seq<Event>, f: nat)
    requires Intact(s) && FlushedTail(s) && RunUnaltering(rule, s, es, f)
    ensures Latest(Run(rule, s, es), f) == Latest(s, f)
    decreases |es|
  {
    if es != [] {
      hide Intact, FlushedTail, Apply, Alters, Latest;
      StepIntact(rule, s, es[0]);
      FlushedStep(rule, s, es[0]);
      LatestStep(rule, s, es[0], f);
      LatestRun(rule, Apply(rule, s, es[0]), es[1..], f);
    }
  }

  lemma CheckpointStepShape(rule: Rule, s: State, e: Event, f: nat)
    requires IsCheckpointStep(e)
    ensures !Alters(rule, s, e, f)
    ensures !Commits(s, e) ==> Apply(rule, s, e).t.layers == s.t.layers && Apply(rule, s, e).t.chunks == s.t.chunks
    ensures Commits(s, e) ==> e.Commit? && Apply(rule, s, e) == StepCommit(s, e.reply)
  {
    hide ObjectKey, HeadVersion, Excluded, GetDBFilename;
  }

  /**
   A checkpoint is atomic: none of its steps, failed or not, changes the latest contents of any file;
   only the commit adds a version, one, and its contents are the file's latest.
   */
  lemma CheckpointAtomic(rule: Rule, s: State, e: Event, f: nat)
    requires Intact(s) && FlushedTail(s) && IsCheckpointStep(e)
    ensures Latest(Apply(rule, s, e), f) == Latest(s, f)
    ensures !Commits(s, e) ==> Apply(rule, s, e).t.layers == s.t.layers && Apply(rule, s, e).t.chunks == s.t.chunks
    ensures Commits(s, e) ==>
              var s' := Apply(rule, s, e);
              && s'.t.layers.Keys == s.t.layers.Keys + {s.stage.layerId}
              && Contents(CommittedLog(s'.t, s'.objects, s.stage.fileId, s.stage.layerId)) == Latest(s, s.stage.fileId)
  {
    hide Apply, Alters, Latest, Intact, FlushedTail, IsCheckpointStep, Contents, CommittedLog, StepCommit;
    CheckpointStepShape(rule, s, e, f);
    LatestStep(rule, s, e, f);
    if Commits(s, e) {
      CommitLatest(s, e);
      CommitShape(s, e);
    }
  }
}
