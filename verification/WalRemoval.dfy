/**
 Removing a WAL file: checkpoint first, then delete.  The file goes only once everything its database
 had in memory when the removal was asked for is in a committed layer: over every run of the shipped
 code, whatever was written, with failures and crashes between any two steps.
 */
module WalRemoval {
  import opened FlatFile
  import opened Overlay
  import opened Layers
  import opened Tables
  import opened Reads
  import opened WalNames
  import opened Machine
  import opened TimeTravel
  import opened Stored
  import opened Isolation
  import opened Atomicity
  import opened Refinement
  import opened CheckpointRun

  // ---------- Between the commit and the drop ----------

  /** What a stage Committed is about to drop is in a committed layer. */
  ghost predicate CommittedHeld(s: State) {
    s.stage.Committed? ==> exists l :: Holds(s, s.stage.fileId, l, Active(s, s.stage.fileId))
  }

  lemma CommittedHeldStep(rule: Rule, s: State, e: Event)
    requires Intact(s) && CommittedHeld(s)
    ensures CommittedHeld(Apply(rule, s, e))
  {
    var s' := Apply(rule, s, e);
    assert e.Commit? ==> s' == StepCommit(s, e.reply);
    if Commits(s, e) {
      assert s'.stage.Committed? ==> s'.stage.fileId == s.stage.fileId;
      hide Intact, Apply, StepCommit, Holds, Active, Commits;
      CommitHolds(s, e);
    } else if s'.stage.Committed? {
      hide Intact, Apply, StepCommit, Holds, Active, Commits, Stores, Base, Grown, AllRows, CalcFileSize;
      StaysCommitted(rule, s, e);
      var f := s.stage.fileId;
      var l :| Holds(s, f, l, Active(s, f));
      if !Stores(s, e, f) {
        StepIsolated(rule, s, e, f);
        StepGrown(rule, s, e);
        HoldsKept(s, s', f, l, Active(s, f));
      }
    }
  }

  lemma {:induction false} CommittedHeldRun(rule: Rule, s: State, es: seq<Event>)
    requires Intact(s) && CommittedHeld(s)
    ensures CommittedHeld(Run(rule, s, es))
    decreases |es|
  {
    if es != [] {
      hide Intact, CommittedHeld, Apply;
      StepIntact(rule, s, es[0]);
      CommittedHeldStep(rule, s, es[0]);
      CommittedHeldRun(rule, Apply(rule, s, es[0]), es[1..]);
    }
  }

  // ---------- Deleting ----------

  /** No other step deletes a WAL file. */
  lemma WalsKept(rule: Rule, s: State, e: Event)
    requires !e.DeleteWal?
    ensures s.wals <= Apply(rule, s, e).wals
  {
    hide WriteTo, Excluded, HeadVersion, ObjectKey, HasEmptyRange, LayersTagged, RowsOf, GetDBFilename, IsWALFile;
  }

  /** A step deletes a WAL file only at the end of a removal of that file. */
  lemma DeletedWhenCleared(rule: Rule, s: State, e: Event, wal: string)
    requires Intact(s) && wal in s.wals && wal !in Apply(rule, s, e).wals
    ensures s.removal == Cleared(wal) && IsWALFile(wal)
  {
    assert RemovalOk(s);
    hide Intact, IsWALFile, GetDBFilename;
    if !e.DeleteWal? {
      hide Apply;
      WalsKept(rule, s, e);
      assert false;
    }
  }

  predicate NoNewRemoval(es: seq<Event>) {
    forall i :: 0 <= i < |es| ==> !es[i].RemoveWal?
  }

  lemma NoRemovalStays(rule: Rule, s: State, e: Event)
    requires !e.RemoveWal?
    ensures s.removal.NoRemoval? || e.Crash? ==> Apply(rule, s, e).removal.NoRemoval?
  {
    hide WriteTo, Excluded, HeadVersion, ObjectKey, HasEmptyRange, LayersTagged, RowsOf, GetDBFilename;
  }

  /** How a removal comes to be cleared: its checkpoint found nothing to do, or dropped the active layer. */
  lemma ClearedShape(rule: Rule, s: State, e: Event, f: nat)
    requires RemovalOk(s) && !s.removal.NoRemoval? && !e.RemoveWal?
    requires GetDBFilename(s.removal.wal) in s.t.files && s.t.files[GetDBFilename(s.removal.wal)] == f
    ensures var s' := Apply(rule, s, e);
            && (!s'.removal.NoRemoval? ==> s'.removal.wal == s.removal.wal)
            && (s'.removal.Cleared? ==>
                  || s.removal.Cleared?
                  || (e.FlushForRemoval? && Active(s, f).data == [])
                  || (e.DropActive? && s.stage.Committed? && s.stage.fileId == f))
  {
    hide WriteTo, Excluded, HeadVersion, ObjectKey, HasEmptyRange, LayersTagged, RowsOf, GetDBFilename, IsWALFile;
  }

  // ---------- Removals that go through ----------

  /** The database has nothing to flush: there is none, or it has no head and no bytes in memory. */
  predicate NothingUnflushed(s: State, db: string, faults: set<Call>) {
    db in s.t.files ==>
      HeadQuery !in faults && s.t.files[db] !in s.t.heads && Active(s, s.t.files[db]).data == []
  }

  /**
   A removal is cleared to delete exactly in these ways: its checkpoint finds nothing to flush, or its
   commit was acknowledged and the memtable entry is dropped.
   */
  lemma ClearedExact(rule: Rule, s: State, e: Event)
    requires Intact(s) && (s.removal.Asked? || s.removal.Flushing?)
    ensures Apply(rule, s, e).removal.Cleared? <==>
            || (&& s.removal.Asked? && s.stage.Idle? && e.FlushForRemoval?
                && BeginTx !in e.faults && FileQuery !in e.faults
                && NothingUnflushed(s, GetDBFilename(s.removal.wal), e.faults))
            || (s.removal.Flushing? && s.stage.Committed? && e.DropActive?)
  {
    if e.FlushForRemoval? {
      FlushCleared(rule, s, e);
    } else {
      hide Intact, NothingUnflushed;
      OtherwiseCleared(rule, s, e);
    }
  }

  lemma FlushCleared(rule: Rule, s: State, e: Event)
    requires Intact(s) && (s.removal.Asked? || s.removal.Flushing?) && e.FlushForRemoval?
    ensures Apply(rule, s, e).removal.Cleared? <==>
            && s.removal.Asked? && s.stage.Idle? && BeginTx !in e.faults && FileQuery !in e.faults
            && NothingUnflushed(s, GetDBFilename(s.removal.wal), e.faults)
  {
    assert e.FlushForRemoval?;
    if s.removal.Asked? {
      StartExact(s, GetDBFilename(s.removal.wal), e.tag, e.faults);
    }
    hide Intact, HeadVersion, ObjectKey, GetDBFilename, Start;
  }

  lemma OtherwiseCleared(rule: Rule, s: State, e: Event)
    requires (s.removal.Asked? || s.removal.Flushing?) && !e.FlushForRemoval?
    ensures Apply(rule, s, e).removal.Cleared? <==> s.removal.Flushing? && s.stage.Committed? && e.DropActive?
  {
    hide WriteTo, Excluded, HeadVersion, ObjectKey, HasEmptyRange, LayersTagged, RowsOf, IsWALFile;
  }

  /** The commit that gets a checkpoint to its drop is one whose acknowledgement arrived. */
  lemma CommittedExact(rule: Rule, s: State, e: Event)
    requires !s.stage.Committed?
    ensures Apply(rule, s, e).stage.Committed? <==> Commits(s, e) && e.reply.Acknowledged?
  {
    hide WriteTo, Excluded, HeadVersion, ObjectKey, HasEmptyRange, LayersTagged, RowsOf, GetDBFilename, IsWALFile;
  }

  lemma DeleteRun(rule: Rule, s: State, es: seq<Event>)
    ensures Run(rule, s, es + [DeleteWal(true)]) == Apply(rule, Run(rule, s, es), DeleteWal(true))
  {
    hide Apply;
    RunConcat(rule, s, es, [DeleteWal(true)]);
    assert [DeleteWal(true)][1..] == [];
  }

  lemma AskRun(rule: Rule, s: State, wal: string, es: seq<Event>)
    ensures Run(rule, s, [RemoveWal(wal)] + es) == Run(rule, Apply(rule, s, RemoveWal(wal)), es)
  {
    hide Apply;
    assert ([RemoveWal(wal)] + es)[1..] == es;
  }

  /**
   A removal in which nothing fails, of a database with unflushed bytes, flushes them and deletes the
   file: the checkpoint leads where a checkpoint leads, and then the WAL file is gone.
   */
  lemma RemovalFlushes(rule: Rule, s: State, wal: string, tag: string)
    requires Intact(s) && s.stage.Idle? && s.removal.NoRemoval? && IsWALFile(wal) && GetDBFilename(wal) in s.t.files
    requires var f := s.t.files[GetDBFilename(wal)];
             && f !in s.t.heads && f in s.memtable && s.memtable[f].data != [] && Disjoint(s.memtable[f].chunks)
             && |ObjectKey(GetDBFilename(wal), f, s.t.lastVersion + 1)| <= 255
    ensures var db := GetDBFilename(wal);
            var n := |s.memtable[s.t.files[db]].chunks|;
            Run(rule, s, [RemoveWal(wal)] + (StepsFrom(FlushForRemoval(tag, {}), n) + [DeleteWal(true)]))
            == Done(s, db, tag).(wals := s.wals - {wal})
  {
    var db, first := GetDBFilename(wal), FlushForRemoval(tag, {});
    var f := s.t.files[db];
    var n := |s.memtable[f].chunks|;
    HeadsExact(s, f);
    hide Intact, Run, StepsFrom, HeadVersion, ObjectKey, Disjoint, GetDBFilename, IsWALFile, Apply;
    AskRun(rule, s, wal, StepsFrom(first, n) + [DeleteWal(true)]);
    var s1 := s.(removal := Asked(wal));
    RemovalStarts(rule, s, wal, tag);
    FlushSucceeds(rule, s1, first);
    DeleteRun(rule, s1, StepsFrom(first, n));
    DeleteShape(rule, Done(s, db, tag), wal, true);
  }

  lemma RemovalStarts(rule: Rule, s: State, wal: string, tag: string)
    requires s.stage.Idle? && s.removal.NoRemoval? && IsWALFile(wal) && GetDBFilename(wal) in s.t.files
    requires var f := s.t.files[GetDBFilename(wal)];
             HeadVersion(s.t, f).None? && f in s.memtable && s.memtable[f].data != []
    ensures var db, s1 := GetDBFilename(wal), s.(removal := Asked(wal));
            && Apply(rule, s, RemoveWal(wal)) == s1
            && Apply(rule, s1, FlushForRemoval(tag, {}))
               == s1.(t := s.t.(lastVersion := s.t.lastVersion + 1), removal := Flushing(wal),
                      stage := Versioned(s.t.files[db], db, s.t.lastVersion + 1, tag))
  {
    hide HeadVersion, GetDBFilename, IsWALFile;
  }

  /** And one of a database with nothing to flush deletes the file at once. */
  lemma RemovalDeletes(rule: Rule, s: State, wal: string, tag: string)
    requires Intact(s) && s.stage.Idle? && s.removal.NoRemoval? && IsWALFile(wal)
    requires NothingUnflushed(s, GetDBFilename(wal), {})
    ensures Run(rule, s, [RemoveWal(wal)] + ([FlushForRemoval(tag, {})] + [DeleteWal(true)]))
         == s.(wals := s.wals - {wal})
  {
    var first := FlushForRemoval(tag, {});
    if GetDBFilename(wal) in s.t.files {
      HeadsExact(s, s.t.files[GetDBFilename(wal)]);
    }
    hide Intact, HeadVersion, ObjectKey, GetDBFilename, IsWALFile;
    var s1 := s.(removal := Asked(wal));
    assert Apply(rule, s, RemoveWal(wal)) == s1;
    assert Apply(rule, s1, first) == s.(removal := Cleared(wal));
    hide Apply;
    AskRun(rule, s, wal, [first] + [DeleteWal(true)]);
    DeleteRun(rule, s1, [first]);
    assert [first][1..] == [];
    assert Run(rule, s1, [first]) == s.(removal := Cleared(wal));
    assert Apply(rule, s.(removal := Cleared(wal)), DeleteWal(true)) == s.(wals := s.wals - {wal}) by {
      DeleteShape(rule, s, wal, true);
    }
  }

  /** The delete takes the file away if the host does, and ends the removal either way. */
  lemma DeleteShape(rule: Rule, s: State, wal: string, ok: bool)
    requires s.removal.NoRemoval?
    ensures Apply(rule, s.(removal := Cleared(wal)), DeleteWal(ok)) == if ok then s.(wals := s.wals - {wal}) else s
  {
  }

  /** Making a WAL file does just that. */
  lemma CreateWalExact(rule: Rule, s: State, name: string)
    ensures Apply(rule, s, CreateWal(name)) == if IsWALFile(name) then s.(wals := s.wals + {name}) else s
  {
  }

  // ---------- What was in memory ----------

  /** The layer's chunks and data are still there, at the front. */
  predicate Extends(layer: Layer, layer': Layer) {
    layer.chunks <= layer'.chunks && layer.data <= layer'.data
  }

  /** They are at the front of a committed layer of the file, or there was no data. */
  ghost predicate Saved(s: State, f: nat, layer: Layer) {
    layer.data == [] || exists l :: SavedIn(s, f, l, layer)
  }

  ghost predicate SavedIn(s: State, f: nat, l: nat, layer: Layer) {
    && IsLayerOf(s.t, f, l)
    && ToRows(l, layer.chunks) <= RowsOf(s.t.chunks, l)
    && layer.data <= ObjectBytes(s.t, s.objects, l)
  }

  lemma SavedStays(s: State, s': State, f: nat, layer: Layer)
    requires Grown(s, s') && Saved(s, f, layer)
    ensures Saved(s', f, layer)
  {
    if layer.data != [] {
      var l :| SavedIn(s, f, l, layer);
      assert Kept(s, s', l);
      hide RowsOf;
      assert SavedIn(s', f, l, layer);
    }
  }

  lemma HeldIsSaved(s: State, f: nat, l: nat, layer: Layer, layer': Layer)
    requires Extends(layer, layer') && Holds(s, f, l, layer')
    ensures Saved(s, f, layer)
  {
    hide RowsOf;
    assert ToRows(l, layer'.chunks)[..|layer.chunks|] == ToRows(l, layer.chunks);
    assert SavedIn(s, f, l, layer);
  }

  lemma WriteExtends(rule: Rule, layer: Layer, fileSize: nat, offset: nat, data: seq<byte>)
    ensures Extends(layer, LayerWrite(rule, layer, fileSize, offset, data))
  {
  }

  lemma ExtendsTrans(a: Layer, b: Layer, c: Layer)
    requires Extends(a, b) && Extends(b, c)
    ensures Extends(a, c)
  {
  }

  /** No step but a drop or a crash takes anything away from an active layer. */
  lemma ExtendsStep(rule: Rule, s: State, e: Event, f: nat)
    requires !DropsLayer(s, e, f)
    ensures Extends(Active(s, f), Active(Apply(rule, s, e), f))
  {
    hide Apply, Active, CalcSizeOf, LayerWrite, HeadVersion, DropsLayer;
    if Accepted(rule, s, e) && s.t.files[e.name] == f {
      AcceptedWriteLayer(rule, s, e);
      WriteExtends(rule, Active(s, f), CalcSizeOf(rule, s.t, Active(s, f), f, e.faults).bytes, e.offset, e.data);
    } else {
      ActiveStep(rule, s, e, f);
    }
  }

  /** The removal is over; or the layer is saved; or it is still in memory, and the removal is not cleared. */
  ghost predicate Pending(s: State, wal: string, f: nat, layer: Layer) {
    || s.removal.NoRemoval?
    || (&& s.removal.wal == wal
        && GetDBFilename(wal) in s.t.files && s.t.files[GetDBFilename(wal)] == f
        && (Saved(s, f, layer) || (!s.removal.Cleared? && Extends(layer, Active(s, f)))))
  }

  /** What one step does to a layer not saved yet. */
  lemma PendingLayer(rule: Rule, s: State, e: Event, f: nat, layer: Layer)
    requires Intact(s) && CommittedHeld(s) && Extends(layer, Active(s, f)) && !e.Crash? && !e.RemoveWal?
    requires !s.removal.NoRemoval? && !s.removal.Cleared?
    requires GetDBFilename(s.removal.wal) in s.t.files && s.t.files[GetDBFilename(s.removal.wal)] == f
    ensures var s' := Apply(rule, s, e);
            Saved(s', f, layer) || (!s'.removal.Cleared? && Extends(layer, Active(s', f)))
  {
    var s' := Apply(rule, s, e);
    ClearedShape(rule, s, e, f);
    assert DropsLayer(s, e, f) <==> e.DropActive? && s.stage.Committed? && s.stage.fileId == f;
    hide Intact, Apply, Active, Holds, DropsLayer, Grown, Extends, Saved;
    if DropsLayer(s, e, f) {
      var l :| Holds(s, f, l, Active(s, f));
      HeldIsSaved(s, f, l, layer, Active(s, f));
      StepGrown(rule, s, e);
      SavedStays(s, s', f, layer);
    } else if s'.removal.Cleared? && Active(s, f).data == [] {
      assert layer.data == [] by { NoData(layer, Active(s, f)); }
      assert Saved(s', f, layer) by { NothingLost(s', f, layer); }
    } else {
      ExtendsStep(rule, s, e, f);
      ExtendsTrans(layer, Active(s, f), Active(s', f));
    }
  }

  lemma NoData(layer: Layer, layer': Layer)
    requires Extends(layer, layer') && layer'.data == []
    ensures layer.data == []
  {
  }

  lemma NothingLost(s: State, f: nat, layer: Layer)
    requires layer.data == []
    ensures Saved(s, f, layer)
  {
  }

  lemma PendingStep(rule: Rule, s: State, e: Event, wal: string, f: nat, layer: Layer)
    requires Intact(s) && CommittedHeld(s) && Pending(s, wal, f, layer) && !e.RemoveWal?
    ensures Pending(Apply(rule, s, e), wal, f, layer)
  {
    var s' := Apply(rule, s, e);
    NoRemovalStays(rule, s, e);
    if !s.removal.NoRemoval? && !s'.removal.NoRemoval? {
      assert RemovalOk(s);
      FileKept(rule, s, e, GetDBFilename(wal));
      ClearedShape(rule, s, e, f);
      hide Intact, CommittedHeld, Apply, Saved, Extends, Active, Grown, GetDBFilename, RemovalOk;
      if Saved(s, f, layer) {
        StepGrown(rule, s, e);
        SavedStays(s, s', f, layer);
      } else {
        PendingLayer(rule, s, e, f, layer);
      }
    }
  }

  lemma {:induction false} PendingRun(rule: Rule, s: State, es: seq<Event>, wal: string, f: nat, layer: Layer)
    requires Intact(s) && CommittedHeld(s) && NoNewRemoval(es) && Pending(s, wal, f, layer)
    ensures Pending(Run(rule, s, es), wal, f, layer)
    decreases |es|
  {
    if es != [] {
      hide Intact, CommittedHeld, Apply, Pending;
      StepIntact(rule, s, es[0]);
      CommittedHeldStep(rule, s, es[0]);
      PendingStep(rule, s, es[0], wal, f, layer);
      assert NoNewRemoval(es[1..]);
      PendingRun(rule, Apply(rule, s, es[0]), es[1..], wal, f, layer);
    }
  }

  /** Ask for a removal, run anything, and a step then deletes the file. */
  ghost predicate Removes(rule: Rule, s: State, wal: string, es: seq<Event>, e: Event) {
    && IsWALFile(wal) && s.removal.NoRemoval? && NoNewRemoval(es)
    && var s' := Run(rule, Apply(rule, s, RemoveWal(wal)), es);
       wal in s'.wals && wal !in Apply(rule, s', e).wals
  }

  lemma AskShape(rule: Rule, s: State, wal: string)
    requires s.removal.NoRemoval? && IsWALFile(wal)
    ensures Apply(rule, s, RemoveWal(wal)) == s.(removal := Asked(wal))
  {
  }

  /**
   Over whole runs, with any write, failure and crash between any two steps: if a removal deletes its
   WAL file, then what the database had in memory when the removal was asked for is committed: one
   layer of the database has those chunks at the front of its rows and those bytes at the front of its
   object; or there were no bytes in memory.
   */
  lemma RemovedOnlyWhenDurable(rule: Rule, s: State, wal: string, es: seq<Event>, e: Event)
    requires Intact(s) && CommittedHeld(s) && Removes(rule, s, wal, es, e)
    requires GetDBFilename(wal) in s.t.files
    ensures var f := s.t.files[GetDBFilename(wal)];
            Saved(Run(rule, Apply(rule, s, RemoveWal(wal)), es), f, Active(s, f))
  {
    var ask, f := RemoveWal(wal), s.t.files[GetDBFilename(wal)];
    var s1 := Apply(rule, s, ask);
    AskShape(rule, s, wal);
    assert Active(s1, f) == Active(s, f) && Extends(Active(s, f), Active(s1, f));
    hide Intact, Apply, Run, CommittedHeld, Saved, Extends, Active, IsWALFile, GetDBFilename;
    StepIntact(rule, s, ask);
    CommittedHeldStep(rule, s, ask);
    PendingRun(rule, s1, es, wal, f, Active(s, f));
    RunIntact(rule, s1, es);
    DeletedWhenCleared(rule, Run(rule, s1, es), e, wal);
  }

  // ---------- The same as histories ----------

  /** The removal is over, or the writes are still there, and durable once it is cleared. */
  ghost predicate PendingHist(s: State, g: Books, wal: string, f: nat, hist: seq<WriteOp>) {
    || s.removal.NoRemoval?
    || (&& s.removal.wal == wal
        && GetDBFilename(wal) in s.t.files && s.t.files[GetDBFilename(wal)] == f
        && hist <= Hist(g, f)
        && (s.removal.Cleared? ==> hist <= DurableHist(g, f)))
  }

  lemma HistGrows(rule: Rule, s: State, g: Books, e: Event, f: nat)
    requires FilesOk(s.t) && f in s.t.files.Values && !e.Crash?
    ensures Hist(g, f) <= Hist(Track(rule, g, s, e), f)
    ensures Durable(g, f) <= |Hist(g, f)| ==> DurableHist(g, f) <= DurableHist(Track(rule, g, s, e), f)
  {
    hide WriteTo, Replay;
    assert f <= s.t.lastFile;
  }

  /** When a removal is cleared its database has nothing that is not durable. */
  lemma ClearedDurable(rule: Rule, s: State, g: Books, e: Event, f: nat)
    requires FileOk(s, g, f)
    requires || (e.FlushForRemoval? && Active(s, f).data == [])
             || (e.DropActive? && s.stage.Committed? && s.stage.fileId == f)
    ensures DurableHist(Track(rule, g, s, e), f) == Hist(Track(rule, g, s, e), f) == Hist(g, f)
  {
    hide CommittedOk, Base, Tiled, Contiguous, Contents, Replay;
  }

  lemma PendingHistStep(rule: Rule, s: State, g: Books, e: Event, wal: string, f: nat, hist: seq<WriteOp>)
    requires RefinesAt(s, g, f) && PendingHist(s, g, wal, f, hist) && !e.RemoveWal?
    ensures PendingHist(Apply(rule, s, e), Track(rule, g, s, e), wal, f, hist)
  {
    var s', g' := Apply(rule, s, e), Track(rule, g, s, e);
    NoRemovalStays(rule, s, e);
    if !s.removal.NoRemoval? && !s'.removal.NoRemoval? {
      assert RemovalOk(s) && FilesOk(s.t) && Durable(g, f) <= |Hist(g, f)|;
      FileKept(rule, s, e, GetDBFilename(wal));
      ClearedShape(rule, s, e, f);
      hide FileOk, Intact, Apply, Track, Hist, DurableHist, GetDBFilename, RemovalOk, Active, FilesOk;
      HistGrows(rule, s, g, e, f);
      if s'.removal.Cleared? && !s.removal.Cleared? {
        ClearedDurable(rule, s, g, e, f);
      }
    }
  }

  lemma {:induction false} PendingHistRun(rule: Rule, s: State, g: Books, es: seq<Event>, wal: string, f: nat,
                                          hist: seq<WriteOp>)
    requires RefinesAt(s, g, f) && SafeRunFor(rule, s, es, f) && NoNewRemoval(es) && PendingHist(s, g, wal, f, hist)
    ensures PendingHist(Run(rule, s, es), TrackRun(rule, g, s, es), wal, f, hist)
    decreases |es|
  {
    if es != [] {
      hide FileOk, Intact, Apply, Track, PendingHist, SafeFor;
      FileStepExact(rule, s, g, es[0], f);
      PendingHistStep(rule, s, g, es[0], wal, f, hist);
      assert NoNewRemoval(es[1..]);
      PendingHistRun(rule, Apply(rule, s, es[0]), Track(rule, g, s, es[0]), es[1..], wal, f, hist);
    }
  }

  lemma AskBooks(rule: Rule, s: State, g: Books, e: Event, f: nat)
    requires e.RemoveWal?
    ensures Track(rule, g, s, e) == g && SafeFor(rule, s, e, f)
  {
  }

  /**
   If the database's own writes are safe, then all writes it had accepted when the removal was asked for
   are durable, in order, at the front of its history.
   */
  lemma RemovedOnlyAfterWrites(rule: Rule, s: State, g: Books, wal: string, es: seq<Event>, e: Event)
    requires GetDBFilename(wal) in s.t.files && RefinesAt(s, g, s.t.files[GetDBFilename(wal)])
    requires Removes(rule, s, wal, es, e)
    requires SafeRunFor(rule, Apply(rule, s, RemoveWal(wal)), es, s.t.files[GetDBFilename(wal)])
    ensures var f := s.t.files[GetDBFilename(wal)];
            Hist(g, f) <= DurableHist(TrackRun(rule, g, Apply(rule, s, RemoveWal(wal)), es), f)
  {
    var ask, f := RemoveWal(wal), s.t.files[GetDBFilename(wal)];
    var s1 := Apply(rule, s, ask);
    hide FileOk, Intact, Apply, Track, Run, TrackRun, SafeRunFor, IsWALFile, GetDBFilename, Hist, DurableHist, SafeFor,
         NoNewRemoval;
    AskShape(rule, s, wal);
    AskBooks(rule, s, g, ask, f);
    FileStepExact(rule, s, g, ask, f);
    PendingHistRun(rule, s1, g, es, wal, f, Hist(g, f));
    RunIntact(rule, s1, es);
    DeletedWhenCleared(rule, Run(rule, s1, es), e, wal);
  }

  /** A checkpoint that fails, at any step, ends the removal and leaves every WAL file in place. */
  lemma FailedCheckpointKeepsWal(rule: Rule, s: State, e: Event)
    requires Intact(s) && s.removal.Flushing? && Apply(rule, s, e).stage.Idle? && !e.DropActive?
    ensures Apply(rule, s, e).removal.NoRemoval? && Apply(rule, s, e).wals >= s.wals
  {
    hide LayersOk, RowsOk, HeadsOk, KeysOk, MemOk, FilesOk, WriteTo, Excluded, HeadVersion, ObjectKey;
  }

  // ---------- Retrying ----------

  /** Nothing of file `f` is unflushed or on its way. */
  predicate Settled(s: State, f: nat) {
    Active(s, f).data == [] && NotInFlight(s, f)
  }

  predicate Writes(s: State, e: Event, f: nat) {
    e.WriteFile? && e.name in s.t.files && s.t.files[e.name] == f
  }

  lemma SettledKept(rule: Rule, s: State, e: Event, f: nat)
    requires Intact(s) && Settled(s, f) && !Writes(s, e, f)
    ensures Settled(Apply(rule, s, e), f)
  {
    hide LayersOk, RowsOk, HeadsOk, KeysOk, FilesOk, RemovalOk, HeadVersion, ObjectKey, Excluded, CalcSizeOf,
         LayerWrite, HasEmptyRange, LayersTagged, GetDBFilename;
  }

  lemma SettledStep(rule: Rule, s: State, e: Event, f: nat)
    requires Intact(s) && Settled(s, f) && !Writes(s, e, f)
    ensures Settled(Apply(rule, s, e), f)
    ensures forall l :: IsLayerOf(Apply(rule, s, e).t, f, l) <==> IsLayerOf(s.t, f, l)
  {
    assert !e.Crash? ==> !Stores(s, e, f);
    assert e.Crash? ==> Apply(rule, s, e).t == s.t;
    hide Intact, Apply, Settled, Stores, Writes;
    SettledKept(rule, s, e, f);
    if !e.Crash? {
      StepIsolated(rule, s, e, f);
    }
  }

  ghost predicate NeverWritten(rule: Rule, s: State, es: seq<Event>, f: nat)
    decreases |es|
  {
    es != [] ==> !Writes(s, es[0], f) && NeverWritten(rule, Apply(rule, s, es[0]), es[1..], f)
  }

  /**
   Once a file's data is out, no retry adds a version: over any run without a new write to it, however
   many checkpoints and removals are attempted, the file gains no layer.
   */
  lemma {:induction false} NoWriteNoLayer(rule: Rule, s: State, es: seq<Event>, f: nat)
    requires Intact(s) && Settled(s, f) && NeverWritten(rule, s, es, f)
    ensures Settled(Run(rule, s, es), f)
    ensures forall l :: IsLayerOf(Run(rule, s, es).t, f, l) <==> IsLayerOf(s.t, f, l)
    decreases |es|
  {
    if es != [] {
      hide Intact, Apply, Settled, Writes, IsLayerOf;
      StepIntact(rule, s, es[0]);
      SettledStep(rule, s, es[0], f);
      NoWriteNoLayer(rule, Apply(rule, s, es[0]), es[1..], f);
    }
  }
}
