/**
 Isolation, over every run of the shipped code: a step on one file leaves the contents, versions, size
 and head of every other file alone, although ids come from counters all files share.
 */
module Isolation {
  import opened Layers
  import opened Tables
  import opened Machine
  import opened TimeTravel
  import opened Stored

  /** Everything stored for file `f`, committed or not, is the same in both states. */
  ghost predicate SameStored(s: State, s': State, f: nat) {
    && Active(s', f) == Active(s, f)
    && Base(s', f) == Base(s, f)
    && AllRows(s', f) == AllRows(s, f)
    && CalcFileSize(s'.t, f) == CalcFileSize(s.t, f)
    && (forall l :: IsLayerOf(s'.t, f, l) <==> IsLayerOf(s.t, f, l))
    && (forall l :: IsLayerOf(s.t, f, l) ==> CommittedLog(s'.t, s'.objects, f, l) == CommittedLog(s.t, s.objects, f, l))
  }

  /** The checkpoint in flight, if any, is of another file. */
  predicate NotInFlight(s: State, f: nat) {
    s.stage.Idle? || s.stage.fileId != f
  }

  /** Steps that may concern the stored contents of `f`. */
  predicate Stores(s: State, e: Event, f: nat) {
    match e
    case WriteFile(name, _, _, _) => name in s.t.files && s.t.files[name] == f
    case Commit(_) => !NotInFlight(s, f)
    case DropActive => !NotInFlight(s, f)
    case Crash => true
    case _ => false
  }

  lemma StoresShape(rule: Rule, s: State, e: Event, f: nat)
    requires Intact(s) && !Stores(s, e, f)
    ensures Active(Apply(rule, s, e), f) == Active(s, f)
    ensures forall l :: IsLayerOf(Apply(rule, s, e).t, f, l) <==> IsLayerOf(s.t, f, l)
  {
    hide RowsOk, HeadsOk, KeysOk, RemovalOk, FilesOk, MemOk, LayersOk, HeadVersion, CalcSizeOf, LayerWrite,
         ObjectKey, Excluded, HasEmptyRange, LayersTagged, RowsOf, ToRows;
  }

  lemma AllRowsFrame(s: State, s': State, f: nat)
    requires Intact(s) && Grown(s, s')
    requires forall l :: IsLayerOf(s'.t, f, l) ==> l in s.t.layers
    ensures AllRows(s', f) == AllRows(s, f) && CalcFileSize(s'.t, f) == CalcFileSize(s.t, f)
  {
    hide StageOk, RemovalOk, MemOk, HeadsOk, KeysOk, FilesOk, RowsOk, FileRows, HasEmptyRange, RowsEnd;
    GrownLog(s, s', f, s'.t.lastLayer);
    FileRowsAbove(s.t, f, s.t.lastLayer, s'.t.lastLayer);
  }

  /** A step that does not store into `f` leaves its contents and all its versions as they were. */
  lemma StepIsolated(rule: Rule, s: State, e: Event, f: nat)
    requires Intact(s) && !Stores(s, e, f)
    ensures SameStored(s, Apply(rule, s, e), f)
  {
    var s' := Apply(rule, s, e);
    LayersListed(s.t, f);
    hide Intact, Apply, Stores, Grown, Base, Active, AllRows, CalcFileSize, CommittedLog, FileRows, IsLayerOf;
    StoresShape(rule, s, e, f);
    StepGrown(rule, s, e);
    BaseFrame(s, s', f);
    AllRowsFrame(s, s', f);
    forall l | IsLayerOf(s.t, f, l)
      ensures CommittedLog(s'.t, s'.objects, f, l) == CommittedLog(s.t, s.objects, f, l)
    {
      GrownLog(s, s', f, l);
    }
  }

  /** Heads, likewise: only SetHead and DeleteHead of the file itself move its head. */
  lemma HeadIsolated(rule: Rule, s: State, e: Event, f: nat)
    requires Intact(s)
    requires e.SetHead? || e.DeleteHead? ==> e.name !in s.t.files || s.t.files[e.name] != f
    ensures f in Apply(rule, s, e).t.heads <==> f in s.t.heads
    ensures f in s.t.heads ==> Apply(rule, s, e).t.heads[f] == s.t.heads[f]
  {
    hide LayersOk, RowsOk, HeadsOk, KeysOk, RemovalOk, FilesOk, MemOk, HeadVersion, CalcSizeOf, LayerWrite;
  }
}
