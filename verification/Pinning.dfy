/**
 Pinning, over every run of the shipped code, unsafe writes included: a pinned file is read-only, and
 unpinning gives back what was there, wherever the pin falls; between the steps of a checkpoint of the
 same file, the version in flight may still be committed, and no other.
 */
module Pinning {
  import opened FlatFile
  import opened Layers
  import opened Tables
  import opened Reads
  import opened WalNames
  import opened Machine
  import opened TimeTravel
  import opened Stored
  import opened Isolation
  import opened Atomicity

  // ---------- Pinning ----------

  ghost predicate Pinned(s: State, f: nat) {
    f in s.t.heads && NotInFlight(s, f)
  }

  /** What may happen while `f` is pinned: anything but unpinning it, a restart, and a failed head query. */
  predicate WhilePinned(s: State, e: Event, f: nat) {
    match e
    case DeleteHead(name) => name in s.t.files ==> s.t.files[name] != f
    case WriteFile(name, _, _, faults) => name in s.t.files && s.t.files[name] == f ==> HeadQuery !in faults
    case Crash => false
    case _ => true
  }

  lemma PinnedShape(rule: Rule, s: State, e: Event, f: nat)
    requires Intact(s) && f in s.t.heads && NotInFlight(s, f) && WhilePinned(s, e, f) && HeadVersion(s.t, f).Some?
    ensures f in Apply(rule, s, e).t.heads && NotInFlight(Apply(rule, s, e), f)
    ensures Stores(s, e, f) ==> Apply(rule, s, e) == s
  {
    hide LayersOk, RowsOk, HeadsOk, KeysOk, RemovalOk, FilesOk, MemOk, StageOk, HeadVersion, CalcSizeOf, LayerWrite;
  }

  lemma PinnedStep(rule: Rule, s: State, e: Event, f: nat)
    requires Intact(s) && Pinned(s, f) && WhilePinned(s, e, f)
    ensures Pinned(Apply(rule, s, e), f)
    ensures SameStored(s, Apply(rule, s, e), f)
  {
    hide Intact, Apply, Stores, WhilePinned, NotInFlight, HeadVersion;
    HeadKnown(s, f);
    PinnedShape(rule, s, e, f);
    if Stores(s, e, f) {
    } else {
      StepIsolated(rule, s, e, f);
    }
  }

  ghost predicate RunWhilePinned(rule: Rule, s: State, es: seq<Event>, f: nat)
    decreases |es|
  {
    es != [] ==> WhilePinned(s, es[0], f) && RunWhilePinned(rule, Apply(rule, s, es[0]), es[1..], f)
  }

  lemma SameStoredTrans(s: State, s': State, s'': State, f: nat)
    requires SameStored(s, s', f) && SameStored(s', s'', f)
    ensures SameStored(s, s'', f)
  {
    hide Active, Base, CommittedLog, IsLayerOf;
  }

  /** Over any run while the file is pinned, writes and checkpoints of it are rejected without a trace. */
  lemma {:induction false} PinnedRun(rule: Rule, s: State, es: seq<Event>, f: nat)
    requires Intact(s) && Pinned(s, f) && RunWhilePinned(rule, s, es, f)
    ensures Pinned(Run(rule, s, es), f)
    ensures SameStored(s, Run(rule, s, es), f)
    decreases |es|
  {
    hide Intact, Apply, Pinned, WhilePinned, Active, Base, CommittedLog, IsLayerOf;
    if es != [] {
      StepIntact(rule, s, es[0]);
      PinnedStep(rule, s, es[0], f);
      PinnedRun(rule, Apply(rule, s, es[0]), es[1..], f);
      SameStoredTrans(s, Apply(rule, s, es[0]), Run(rule, s, es), f);
    }
  }

  // ---------- A pin that falls into a checkpoint ----------

  /** The version of `f` that a checkpoint in flight may still commit. */
  function Flight(s: State, f: nat): Option<nat> {
    match s.stage
    case Versioned(g, _, v, _) => if g == f then Some(v) else None
    case Uploaded(g, v, _, _) => if g == f then Some(v) else None
    case Inserting(g, v, _, _, _, _) => if g == f then Some(v) else None
    case _ => None
  }

  /** The layers of `f` are those it had, unchanged, and otherwise only one of the version `flight`. */
  ghost predicate OnlyFlightAdded(s: State, s': State, f: nat, flight: Option<nat>) {
    && (forall l :: IsLayerOf(s.t, f, l) ==>
          IsLayerOf(s'.t, f, l) && CommittedLog(s'.t, s'.objects, f, l) == CommittedLog(s.t, s.objects, f, l))
    && (forall l :: IsLayerOf(s'.t, f, l) && l !in s.t.layers ==> flight == Some(s'.t.layers[l].versionId))
    && (forall l, m :: IsLayerOf(s'.t, f, l) && IsLayerOf(s'.t, f, m) && l !in s.t.layers && m !in s.t.layers ==>
          l == m)
  }

  lemma PinnedUnaltered(rule: Rule, s: State, e: Event, f: nat)
    requires f in s.t.heads && WhilePinned(s, e, f) && HeadVersion(s.t, f).Some?
    ensures !Alters(rule, s, e, f)
    ensures f in Apply(rule, s, e).t.heads
  {
    hide HeadVersion, CalcSizeOf, LayerWrite, ObjectKey, Excluded, HasEmptyRange, LayersTagged, RowsOf, GetDBFilename;
  }

  lemma PinnedFlight(rule: Rule, s: State, e: Event, f: nat)
    requires HeadVersion(s.t, f).Some? && Flight(Apply(rule, s, e), f).Some?
    ensures Flight(Apply(rule, s, e), f) == Flight(s, f)
  {
    hide HeadVersion, WriteTo, ObjectKey, Excluded, HasEmptyRange, LayersTagged, RowsOf, GetDBFilename;
  }

  lemma NewLayerInFlight(rule: Rule, s: State, e: Event, f: nat, l: nat)
    requires IsLayerOf(Apply(rule, s, e).t, f, l) && l !in s.t.layers
    ensures Flight(s, f) == Some(Apply(rule, s, e).t.layers[l].versionId)
  {
    if !e.Commit? {
      hide Apply;
      TablesUnlessCommit(rule, s, e);
      assert false;
    }
  }

  /** Over any run while pinned: the contents stay, and of new layers there is at most the one in flight. */
  lemma {:induction false} PinnedAnyRun(rule: Rule, s: State, es: seq<Event>, f: nat)
    requires Intact(s) && FlushedTail(s) && f in s.t.heads && RunWhilePinned(rule, s, es, f)
    ensures var s' := Run(rule, s, es);
            && f in s'.t.heads
            && Latest(s', f) == Latest(s, f)
            && forall l :: IsLayerOf(s'.t, f, l) && l !in s.t.layers ==> Flight(s, f) == Some(s'.t.layers[l].versionId)
    decreases |es|
  {
    if es != [] {
      var s1, s' := Apply(rule, s, es[0]), Run(rule, s, es);
      hide Intact, FlushedTail, Apply, WhilePinned, HeadVersion, Alters, Latest, Flight, IsLayerOf, Grown;
      HeadKnown(s, f);
      PinnedUnaltered(rule, s, es[0], f);
      StepIntact(rule, s, es[0]);
      FlushedStep(rule, s, es[0]);
      LatestStep(rule, s, es[0], f);
      PinnedAnyRun(rule, s1, es[1..], f);
      RunGrown(rule, s1, es[1..]);
      forall l | IsLayerOf(s'.t, f, l) && l !in s.t.layers ensures Flight(s, f) == Some(s'.t.layers[l].versionId) {
        if l in s1.t.layers {
          StillLayer(s1, s', f, l);
          NewLayerInFlight(rule, s, es[0], f, l);
        } else {
          PinnedFlight(rule, s, es[0], f);
        }
      }
    }
  }

  lemma FlightOnce(s: State, s': State, f: nat, flight: Option<nat>)
    requires Intact(s) && Intact(s') && Grown(s, s')
    requires forall l :: IsLayerOf(s'.t, f, l) && l !in s.t.layers ==> flight == Some(s'.t.layers[l].versionId)
    ensures OnlyFlightAdded(s, s', f, flight)
  {
    assert LayersOk(s'.t, s'.objects);
    forall l, m | IsLayerOf(s'.t, f, l) && IsLayerOf(s'.t, f, m) && l !in s.t.layers && m !in s.t.layers
      ensures l == m
    {
    }
    hide LayersOk, Intact, CommittedLog, Kept, IsLayerOf;
    forall l | IsLayerOf(s.t, f, l)
      ensures IsLayerOf(s'.t, f, l) && CommittedLog(s'.t, s'.objects, f, l) == CommittedLog(s.t, s.objects, f, l)
    {
      LayerListed(s, f, l);
      StillLayer(s, s', f, l);
      NoneBelow(s, s', f, l);
      GrownLog(s, s', f, l);
    }
  }

  lemma LayerListed(s: State, f: nat, l: nat)
    requires IsLayerOf(s.t, f, l)
    ensures l in s.t.layers
  {
  }

  // ---------- Pin and unpin ----------

  lemma PinShape(rule: Rule, s: State, name: string, tag: string, pick: nat)
    requires name in s.t.files
    requires s.t.files[name] in StepSetHead(s.t, name, tag, pick).heads
    ensures var s', f := Apply(rule, s, SetHead(name, tag, pick)), s.t.files[name];
            && s'.t.files == s.t.files && f in s'.t.heads
            && s'.t.layers == s.t.layers && Flight(s', f) == Flight(s, f)
            && (NotInFlight(s', f) <==> NotInFlight(s, f))
  {
  }

  lemma UnpinShape(rule: Rule, s: State, name: string)
    requires name in s.t.files
    ensures var s' := Apply(rule, s, DeleteHead(name));
            HeadVersion(s'.t, s.t.files[name]).None? && s'.t.layers == s.t.layers
  {
  }

  lemma HeadStep(rule: Rule, s: State, name: string, tag: string, pick: nat, f: nat)
    ensures !Stores(s, SetHead(name, tag, pick), f) && !Alters(rule, s, SetHead(name, tag, pick), f)
    ensures !Stores(s, DeleteHead(name), f) && !Alters(rule, s, DeleteHead(name), f)
  {
  }

  /** With no checkpoint of the file in flight at the pin, nothing at all stored for it changes. */
  lemma PinUnpinStored(rule: Rule, s: State, name: string, tag: string, pick: nat, es: seq<Event>)
    requires Intact(s) && name in s.t.files && NotInFlight(s, s.t.files[name])
    requires s.t.files[name] in StepSetHead(s.t, name, tag, pick).heads
    requires RunWhilePinned(rule, Apply(rule, s, SetHead(name, tag, pick)), es, s.t.files[name])
    ensures var s' := Apply(rule, Run(rule, Apply(rule, s, SetHead(name, tag, pick)), es), DeleteHead(name));
            SameStored(s, s', s.t.files[name])
  {
    hide Intact, Apply, Run, RunWhilePinned, NotInFlight, StepSetHead, Stores, SameStored, Alters, Flight;
    var f := s.t.files[name];
    var pin := SetHead(name, tag, pick);
    var s1 := Apply(rule, s, pin);
    var s2 := Run(rule, s1, es);
    var s3 := Apply(rule, s2, DeleteHead(name));
    PinShape(rule, s, name, tag, pick);
    HeadStep(rule, s, name, tag, pick, f);
    HeadStep(rule, s2, name, tag, pick, f);
    StepIntact(rule, s, pin);
    StepIsolated(rule, s, pin, f);
    RunIntact(rule, s1, es);
    PinnedRun(rule, s1, es, f);
    StepIsolated(rule, s2, DeleteHead(name), f);
    SameStoredTrans(s, s1, s2, f);
    SameStoredTrans(s, s2, s3, f);
  }

  lemma ActiveMatched(s: State, f: nat)
    requires Intact(s)
    ensures WellMatched(Active(s, f))
  {
  }

  lemma StoredRead(s: State, s': State, name: string, pick: nat, pick': nat, spare: seq<byte>, faults: set<Call>,
                   offset: nat, size: nat)
    requires Intact(s) && Grown(s, s') && name in s.t.files && name in s'.t.files
    requires s'.t.files[name] == s.t.files[name] && SameStored(s, s', s.t.files[name])
    requires HeadVersion(s.t, s.t.files[name]).None? && HeadVersion(s'.t, s.t.files[name]).None?
    ensures ReadFile(s'.t, s'.objects, s'.memtable, name, pick', spare, faults, offset, size)
         == ReadFile(s.t, s.objects, s.memtable, name, pick, spare, faults, offset, size)
  {
    hide Intact, Grown, Base, CommittedLog, FileRows, ReadBelow, HeadVersion, CalcFileSize, IsLayerOf;
    assert WellMatched(Active(s, s.t.files[name])) by { ActiveMatched(s, s.t.files[name]); }
    SameRowsRead(s, s', Active(s, s.t.files[name]), Active(s', s.t.files[name]), spare, spare, faults,
                 s.t.files[name], 0, offset, size);
  }

  /** And every read, for every offset and size and whatever fails, answers what it answered before the pin. */
  lemma PinUnpinRead(rule: Rule, s: State, name: string, tag: string, pick: nat, es: seq<Event>, pick': nat,
                     spare: seq<byte>, faults: set<Call>, offset: nat, size: nat)
    requires Intact(s) && name in s.t.files && NotInFlight(s, s.t.files[name])
    requires HeadVersion(s.t, s.t.files[name]).None?
    requires s.t.files[name] in StepSetHead(s.t, name, tag, pick).heads
    requires RunWhilePinned(rule, Apply(rule, s, SetHead(name, tag, pick)), es, s.t.files[name])
    ensures var s' := Apply(rule, Run(rule, Apply(rule, s, SetHead(name, tag, pick)), es), DeleteHead(name));
            ReadFile(s'.t, s'.objects, s'.memtable, name, pick', spare, faults, offset, size)
            == ReadFile(s.t, s.objects, s.memtable, name, pick, spare, faults, offset, size)
  {
    hide Intact, Apply, Run, RunWhilePinned, NotInFlight, StepSetHead, HeadVersion, Grown, SameStored, ReadFile, Flight;
    var pin := SetHead(name, tag, pick);
    var s1 := Apply(rule, s, pin);
    var s2 := Run(rule, s1, es);
    var s3 := Apply(rule, s2, DeleteHead(name));
    PinShape(rule, s, name, tag, pick);
    PinUnpinStored(rule, s, name, tag, pick, es);
    FilesKept(rule, s1, es, name);
    FileKept(rule, s2, DeleteHead(name), name);
    UnpinShape(rule, s2, name);
    PinGrown(rule, s, pin, es, DeleteHead(name));
    StoredRead(s, s3, name, pick, pick', spare, faults, offset, size);
  }

  lemma PinGrown(rule: Rule, s: State, pin: Event, es: seq<Event>, unpin: Event)
    requires Intact(s)
    ensures Grown(s, Apply(rule, Run(rule, Apply(rule, s, pin), es), unpin))
  {
    hide Intact, Apply, Run, Grown;
    var s1 := Apply(rule, s, pin);
    var s2 := Run(rule, s1, es);
    StepIntact(rule, s, pin);
    RunIntact(rule, s1, es);
    StepGrown(rule, s, pin);
    RunGrown(rule, s1, es);
    StepGrown(rule, s2, unpin);
    GrownTrans(s, s1, s2);
    GrownTrans(s, s2, Apply(rule, s2, unpin));
  }

  /**
   Pin at any moment, run, unpin: the latest contents come back byte for byte, unflushed writes
   included; every version has the contents it had; and only a version already in flight at the pin
   can have been added, once.
   */
  lemma PinUnpin(rule: Rule, s: State, name: string, tag: string, pick: nat, es: seq<Event>)
    requires Intact(s) && FlushedTail(s) && name in s.t.files
    requires s.t.files[name] in StepSetHead(s.t, name, tag, pick).heads
    requires RunWhilePinned(rule, Apply(rule, s, SetHead(name, tag, pick)), es, s.t.files[name])
    ensures var f := s.t.files[name];
            var s' := Apply(rule, Run(rule, Apply(rule, s, SetHead(name, tag, pick)), es), DeleteHead(name));
            && Latest(s', f) == Latest(s, f)
            && OnlyFlightAdded(s, s', f, Flight(s, f))
            && HeadVersion(s'.t, f).None?
  {
    hide Intact, FlushedTail, Apply, Run, RunWhilePinned, NotInFlight, StepSetHead, Stores, HeadVersion, Latest, Grown,
         Alters, Flight, OnlyFlightAdded;
    var f := s.t.files[name];
    var pin := SetHead(name, tag, pick);
    var s1 := Apply(rule, s, pin);
    var s2 := Run(rule, s1, es);
    var s3 := Apply(rule, s2, DeleteHead(name));
    PinShape(rule, s, name, tag, pick);
    HeadStep(rule, s, name, tag, pick, f);
    HeadStep(rule, s2, name, tag, pick, f);
    StepIntact(rule, s, pin);
    FlushedStep(rule, s, pin);
    LatestStep(rule, s, pin, f);
    RunIntact(rule, s1, es);
    FlushedRun(rule, s1, es);
    PinnedAnyRun(rule, s1, es, f);
    FilesKept(rule, s1, es, name);
    StepIntact(rule, s2, DeleteHead(name));
    LatestStep(rule, s2, DeleteHead(name), f);
    UnpinShape(rule, s2, name);
    PinGrown(rule, s, pin, es, DeleteHead(name));
    FlightOnce(s, s3, f, Flight(s, f));
  }

  /** The exception: a write to a pinned file gets through exactly when its head query fails. */
  lemma PinnedWriteExact(rule: Rule, s: State, e: Event)
    requires Intact(s) && e.WriteFile? && s.stage.Idle?
    requires e.name in s.t.files && s.t.files[e.name] in s.t.heads
    ensures Accepted(rule, s, e) <==>
            && HeadQuery in e.faults && FileQuery !in e.faults
            && CalcSizeOf(rule, s.t, Active(s, s.t.files[e.name]), s.t.files[e.name], e.faults).Size?
  {
    hide Intact, CalcSizeOf, HeadVersion;
    HeadKnown(s, s.t.files[e.name]);
  }
}
