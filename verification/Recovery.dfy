/**
 What a crash leaves: the committed part of a file, and the history it stands for.  A file whose layer
 in memory is broken is well again after a crash, as long as that layer was never committed; and the
 contents after a restart are those of the last commit, whatever was written since.
 */
module Recovery {
  import opened FlatFile
  import opened Overlay
  import opened Layers
  import opened Tables
  import opened Machine
  import opened TimeTravel
  import opened Stored
  import opened Isolation
  import opened Atomicity
  import opened Refinement

  // ---------- The committed part ----------

  /** What is committed of a file stands for its durable writes; its active layer may be anything. */
  ghost predicate DurableOk(s: State, g: Books, f: nat) {
    && Durable(g, f) <= |Hist(g, f)|
    && CommittedOk(s, g, f)
    && Contiguous(Base(s, f))
    && Contents(Base(s, f)) == Replay(DurableHist(g, f))
  }

  lemma OkIsDurable(s: State, g: Books, f: nat)
    requires FileOk(s, g, f)
    ensures DurableOk(s, g, f)
  {
    hide Contents, Replay, CommittedOk, Base, Contiguous;
    ContiguousPrefix(Base(s, f), ActiveLog(Active(s, f)));
  }

  /** After a crash a file refines its durable history exactly when its committed part did before. */
  lemma CrashExact(rule: Rule, s: State, g: Books, f: nat)
    ensures FileOk(Apply(rule, s, Crash), Track(rule, g, s, Crash), f) <==> DurableOk(s, g, f)
    ensures Hist(Track(rule, g, s, Crash), f) == DurableHist(g, f)
  {
    var s', g' := Apply(rule, s, Crash), Track(rule, g, s, Crash);
    CrashShape(rule, s, g, f);
    hide Apply, Track, CommittedOk, Base, Active, Hist, Durable, Contents, Contiguous, Replay;
    CommittedSame(s, s', g, g', f);
    assert Tiled(EMPTY_LAYER);
    assert ActiveLog(EMPTY_LAYER) == [] && Base(s, f) + [] == Base(s, f);
    if Durable(g, f) <= |Hist(g, f)| {
      assert DurableHist(g, f)[..Durable(g, f)] == DurableHist(g, f);
    }
  }

  /** The events that may change what is committed of `f`. */
  predicate CommitsFile(s: State, e: Event, f: nat) {
    Commits(s, e) && s.stage.fileId == f
  }

  lemma DurableOther(rule: Rule, s: State, g: Books, e: Event, f: nat)
    requires Intact(s) && DurableOk(s, g, f) && !Stores(s, e, f) && !(e.InsertFile? && f == s.t.lastFile + 1)
    ensures DurableOk(Apply(rule, s, e), Track(rule, g, s, e), f)
  {
    hide Intact, Apply, Track, Stores, CommittedOk, SnapsOk, Base, Active, AllRows, CalcFileSize, CommittedLog, Hist,
         Durable, Contents, Contiguous, Replay;
    assert SnapsOk(s, g, f) by { CommittedParts(s, g, f); }
    StepIsolated(rule, s, e, f);
    OtherBooks(rule, s, g, e, f);
    SnapsKept(s, g, Track(rule, g, s, e), f);
    OtherCommitted(rule, s, g, e, f);
  }

  lemma CommittedParts(s: State, g: Books, f: nat)
    requires CommittedOk(s, g, f)
    ensures SnapsOk(s, g, f)
  {
  }

  lemma DurableInsert(rule: Rule, s: State, g: Books, name: string)
    requires Intact(s) && DurableOk(s, g, s.t.lastFile + 1)
    ensures DurableOk(Apply(rule, s, InsertFile(name)), Track(rule, g, s, InsertFile(name)), s.t.lastFile + 1)
  {
    var e, f := InsertFile(name), s.t.lastFile + 1;
    var s', g' := Apply(rule, s, e), Track(rule, g, s, e);
    if name in s.t.files {
      assert g' == g && s'.objects == s.objects;
      hide Intact, CommittedOk, SnapsOk, Base, Active, AllRows, CalcFileSize, CommittedLog, Hist, Durable, Contents,
           Contiguous, Replay, Apply;
      assert SnapsOk(s, g, f) by { CommittedParts(s, g, f); }
      StepIsolated(rule, s, e, f);
      OtherCommitted(rule, s, g, e, f);
    } else {
      NewFile(s, f);
      hide Intact, FileOk, DurableOk, FileRows, RowPieces, HeadsOk;
      StepIsolated(rule, s, e, f);
      NothingWritten(s', g', f);
      OkIsDurable(s', g', f);
    }
  }

  lemma OwnBooks(rule: Rule, s: State, g: Books, e: Event, f: nat)
    requires e.WriteFile? || (e.Commit? && !Commits(s, e)) || e.DropActive?
    ensures var s', g' := Apply(rule, s, e), Track(rule, g, s, e);
            && s'.t == s.t && s'.objects == s.objects && g'.snaps == g.snaps
            && Durable(g', f) == Durable(g, f) && Hist(g, f) <= Hist(g', f)
  {
    hide WriteTo;
  }

  lemma DurableOwn(rule: Rule, s: State, g: Books, e: Event, f: nat)
    requires DurableOk(s, g, f)
    requires e.WriteFile? || (e.Commit? && !Commits(s, e)) || e.DropActive?
    ensures DurableOk(Apply(rule, s, e), Track(rule, g, s, e), f)
  {
    var s', g' := Apply(rule, s, e), Track(rule, g, s, e);
    hide Apply, Track, CommittedOk, Base, Hist, Durable, Contents, Contiguous, Replay, Commits;
    OwnBooks(rule, s, g, e, f);
    CommittedSame(s, s', g, g', f);
    assert DurableHist(g', f) == DurableHist(g, f);
  }

  /** No step but a commit of the file touches this: no write, safe or not, and no crash. */
  lemma DurableStep(rule: Rule, s: State, g: Books, e: Event, f: nat)
    requires Intact(s) && DurableOk(s, g, f) && !CommitsFile(s, e, f)
    ensures DurableOk(Apply(rule, s, e), Track(rule, g, s, e), f)
  {
    assert e.Commit? && Stores(s, e, f) ==> !Commits(s, e);
    assert Stores(s, e, f) ==> e.WriteFile? || e.Commit? || e.DropActive? || e.Crash?;
    hide Intact, DurableOk, FileOk, Apply, Track, Stores, Commits;
    if e.Crash? {
      CrashExact(rule, s, g, f);
      OkIsDurable(Apply(rule, s, e), Track(rule, g, s, e), f);
    } else if Stores(s, e, f) {
      DurableOwn(rule, s, g, e, f);
    } else if e.InsertFile? && f == s.t.lastFile + 1 {
      DurableInsert(rule, s, g, e.name);
    } else {
      DurableOther(rule, s, g, e, f);
    }
  }

  ghost predicate NeverCommits(rule: Rule, s: State, es: seq<Event>, f: nat)
    decreases |es|
  {
    es != [] ==> !CommitsFile(s, es[0], f) && NeverCommits(rule, Apply(rule, s, es[0]), es[1..], f)
  }

  lemma {:induction false} DurableRun(rule: Rule, s: State, g: Books, es: seq<Event>, f: nat)
    requires Intact(s) && DurableOk(s, g, f) && NeverCommits(rule, s, es, f)
    ensures DurableOk(Run(rule, s, es), TrackRun(rule, g, s, es), f)
    decreases |es|
  {
    hide Intact, DurableOk, Apply, Track, CommitsFile;
    if es != [] {
      StepIntact(rule, s, es[0]);
      DurableStep(rule, s, g, es[0], f);
      DurableRun(rule, Apply(rule, s, es[0]), Track(rule, g, s, es[0]), es[1..], f);
    }
  }

  /**
   A file that was well and is broken by writes, however many and whatever they are, refines its
   durable history again after a crash, provided nothing of it was committed in between.
   */
  lemma CrashRecovers(rule: Rule, s: State, g: Books, es: seq<Event>, f: nat)
    requires RefinesAt(s, g, f) && NeverCommits(rule, s, es, f)
    ensures var s1, g1 := Run(rule, s, es), TrackRun(rule, g, s, es);
            var s', g' := Apply(rule, s1, Crash), Track(rule, g1, s1, Crash);
            && RefinesAt(s', g', f)
            && Hist(g', f) == DurableHist(g1, f)
            && Latest(s', f) == Replay(DurableHist(g1, f))
  {
    hide Intact, FileOk, DurableOk, Apply, Track, Run, TrackRun, NeverCommits, Latest, Replay;
    OkIsDurable(s, g, f);
    DurableRun(rule, s, g, es, f);
    RunIntact(rule, s, es);
    StepIntact(rule, Run(rule, s, es), Crash);
    CrashExact(rule, Run(rule, s, es), TrackRun(rule, g, s, es), f);
    var s1, g1 := Run(rule, s, es), TrackRun(rule, g, s, es);
    LatestIsReplay(Apply(rule, s1, Crash), Track(rule, g1, s1, Crash), f);
  }

  lemma LatestIsReplay(s: State, g: Books, f: nat)
    requires FileOk(s, g, f)
    ensures Latest(s, f) == Replay(Hist(g, f))
  {
    hide CommittedOk, Tiled, Contiguous, Contents, Replay;
  }

  // ---------- Restarts ----------

  /** A file's committed pieces are those of its last layer, or none. */
  lemma LastLayerBase(s: State, f: nat, l: nat)
    requires Intact(s)
    requires l == 0 || IsLayerOf(s.t, f, l)
    requires forall m: nat :: IsLayerOf(s.t, f, m) ==> m <= l
    ensures Base(s, f) == CommittedLog(s.t, s.objects, f, l)
  {
    hide HeadsOk, KeysOk, MemOk, StageOk, RemovalOk, RowsOk, FileRows, RowPiece;
    assert l <= s.t.lastLayer;
    FileRowsAbove(s.t, f, l, s.t.lastLayer);
  }

  /** A restart leaves the contents of the file's last version, or none. */
  lemma CrashLatest(rule: Rule, s: State, f: nat, l: nat)
    requires Intact(s)
    requires l == 0 || IsLayerOf(s.t, f, l)
    requires forall m: nat :: IsLayerOf(s.t, f, m) ==> m <= l
    ensures Latest(Apply(rule, s, Crash), f) == Contents(CommittedLog(s.t, s.objects, f, l))
  {
    hide Intact, CommittedLog, Contents;
    LastLayerBase(s, f, l);
    assert ActiveLog(EMPTY_LAYER) == [] && Base(s, f) + [] == Base(s, f);
  }

  /**
   A restart loses exactly what came after the last commit: over any run since, unsafe and empty writes
   included, with no later layer of the file, the contents after a crash are those at the commit.
   */
  lemma RestartIsLastCommit(rule: Rule, s: State, e: Event, es: seq<Event>)
    requires Intact(s) && Commits(s, e)
    requires var s' := Run(rule, Apply(rule, s, e), es);
             forall m: nat :: IsLayerOf(s'.t, s.stage.fileId, m) ==> m <= s.stage.layerId
    ensures var s' := Run(rule, Apply(rule, s, e), es);
            Latest(Apply(rule, s', Crash), s.stage.fileId) == Latest(s, s.stage.fileId)
  {
    var s1, f, l := Apply(rule, s, e), s.stage.fileId, s.stage.layerId;
    var s2 := Run(rule, s1, es);
    assert s1 == StepCommit(s, e.reply);
    hide Intact, Apply, Run, StepCommit, Latest, Contents, Base, Grown, Commits, CommittedLog;
    StepIntact(rule, s, e);
    RunIntact(rule, s1, es);
    RunGrown(rule, s1, es);
    CommitLatest(s, e);
    CommitHolds(s, e);
    assert Base(s1, f) == CommittedLog(s1.t, s1.objects, f, l) by { TopBase(s1, f); }
    assert l in s1.t.layers;
    NoneBelow(s1, s2, f, l);
    GrownLog(s1, s2, f, l);
    StillLayer(s1, s2, f, l);
    CrashLatest(rule, s2, f, l);
  }

  lemma TopBase(s: State, f: nat)
    ensures Base(s, f) == CommittedLog(s.t, s.objects, f, s.t.lastLayer)
  {
  }
}
