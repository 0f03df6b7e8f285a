/**
 The machine refines flat files, file by file.  The bookkeeping beside it records, for each file, the
 accepted writes and how many of them are durable, and for each committed layer the contents at its
 commit; a crash forgets the writes that are not durable.  No layer, chunk or offset appears in it.

 A file refines its history for as long as its own writes are safe, whatever is written to others.
 */
module Refinement {
  import opened FlatFile
  import opened Overlay
  import opened Layers
  import opened Tables
  import opened Reads
  import opened Machine
  import opened TimeTravel
  import opened Stored
  import opened Isolation
  import opened Atomicity

  datatype Books = Books(hist: map<nat, seq<WriteOp>>, durable: map<nat, nat>, snaps: map<nat, seq<byte>>)

  const NO_BOOKS := Books(map[], map[], map[])

  function Hist(g: Books, f: nat): seq<WriteOp> {
    if f in g.hist then g.hist[f] else []
  }

  function Durable(g: Books, f: nat): nat {
    if f in g.durable then g.durable[f] else 0
  }

  function DurableHist(g: Books, f: nat): seq<WriteOp> {
    Hist(g, f)[..Min(Durable(g, f), |Hist(g, f)|)]
  }

  function Track(rule: Rule, g: Books, s: State, e: Event): Books {
    match e
    case InsertFile(name) =>
      if name in s.t.files then g
      else g.(hist := g.hist[s.t.lastFile + 1 := []], durable := g.durable[s.t.lastFile + 1 := 0])
    case WriteFile(name, offset, data, _) =>
      if Accepted(rule, s, e)
      then g.(hist := g.hist[s.t.files[name] := Hist(g, s.t.files[name]) + [WriteOp(offset, data)]])
      else g
    case Commit(_) =>
      if Commits(s, e)
      then g.(durable := g.durable[s.stage.fileId := |Hist(g, s.stage.fileId)|],
              snaps := g.snaps[s.stage.layerId := Replay(Hist(g, s.stage.fileId))])
      else g
    case Crash => g.(hist := map f | f in g.hist :: DurableHist(g, f))
    case _ => g
  }

  // ---------- The refinement relation ----------

  /** A file's pieces against its accepted writes. */
  ghost predicate FileRefines(base: seq<Piece>, layer: Layer, hist: seq<WriteOp>, durable: nat) {
    && durable <= |hist|
    && Tiled(layer)
    && Contiguous(base + ActiveLog(layer))
    && Contents(base + ActiveLog(layer)) == Replay(hist)
    && Contents(base) == Replay(hist[..durable])
    && (layer.data == [] ==> durable == |hist|)
  }

  ghost predicate RowsSound(s: State, f: nat) {
    forall i :: 0 <= i < |AllRows(s, f)| ==> RowSound(s.t, s.objects, AllRows(s, f)[i])
  }

  ghost predicate SnapsOk(s: State, g: Books, f: nat) {
    forall l :: IsLayerOf(s.t, f, l) ==> l in g.snaps && Contents(CommittedLog(s.t, s.objects, f, l)) == g.snaps[l]
  }

  /** What is committed of a file: its rows lie within their objects, its versions are as recorded. */
  ghost predicate CommittedOk(s: State, g: Books, f: nat) {
    RowsSound(s, f) && SnapsOk(s, g, f)
  }

  ghost predicate FileOk(s: State, g: Books, f: nat) {
    && FileRefines(Base(s, f), Active(s, f), Hist(g, f), Durable(g, f))
    && CommittedOk(s, g, f)
    && (s.stage.Committed? && s.stage.fileId == f ==> Durable(g, f) == |Hist(g, f)|)
  }

  /** One file refines its history; the others may be in any state. */
  ghost predicate RefinesAt(s: State, g: Books, f: nat) {
    Intact(s) && FileOk(s, g, f)
  }

  /** All of them do. */
  ghost predicate Refines(s: State, g: Books) {
    Intact(s) && forall f: nat :: FileOk(s, g, f)
  }

  // ---------- Sizes ----------

  lemma {:induction false} RowsEndIsEnd(t: Tables, objects: Objects, rows: seq<ChunkRow>)
    requires forall i :: 0 <= i < |rows| ==> RowSound(t, objects, rows[i])
    ensures RowsEnd(rows) == End(RowPieces(t, objects, rows))
    ensures !HasEmptyRange(rows)
  {
    if rows != [] {
      RowsEndIsEnd(t, objects, rows[..|rows| - 1]);
      assert RowSound(t, objects, rows[|rows| - 1]);
      assert RowPieces(t, objects, rows)[..|rows| - 1] == RowPieces(t, objects, rows[..|rows| - 1]);
    }
  }

  /** CalcFileSize answers the end of what is committed. */
  lemma CommittedSize(s: State, f: nat)
    requires RowsSound(s, f)
    ensures CalcFileSize(s.t, f) == Size(End(Base(s, f)))
  {
    hide FileRows, RowSound, End;
    RowsEndIsEnd(s.t, s.objects, AllRows(s, f));
  }

  /**
   The size calcSizeOf answers, under either rule: never more than the file's length, and as shipped
   equal to it exactly when the active layer is empty or reaches at least as far as what is committed.
   */
  lemma SizeExact(rule: Rule, s: State, g: Books, f: nat, faults: set<Call>)
    requires RefinesAt(s, g, f) && SizeQuery !in faults
    ensures var size := CalcSizeOf(rule, s.t, Active(s, f), f, faults);
            && size.Size?
            && size.bytes <= |Latest(s, f)| == |Replay(Hist(g, f))|
            && (size.bytes == |Latest(s, f)| <==>
                rule.Documented? || Active(s, f).chunks == [] ||
                ChunkEnd(Active(s, f).chunks) >= RowsEnd(AllRows(s, f)))
  {
    hide Contents, CommittedLog, FileRows, Intact, RowSound;
    CommittedSize(s, f);
    TiledEnds(Active(s, f));
    EndConcat(Base(s, f), ActiveLog(Active(s, f)));
  }

  // ---------- Steps that do not store into the file ----------

  lemma RowsSoundStay(s: State, s': State, f: nat)
    requires Intact(s) && Grown(s, s') && RowsSound(s, f) && AllRows(s', f) == AllRows(s, f)
    ensures RowsSound(s', f)
  {
    hide StageOk, RemovalOk, MemOk, HeadsOk, KeysOk, FilesOk, FileRows, RowsOf;
    var rows := AllRows(s, f);
    forall i | 0 <= i < |rows| ensures RowSound(s'.t, s'.objects, rows[i]) {
      assert rows[i] in rows;
      FileRowsIn(s.t, f, s.t.lastLayer, rows[i]);
      assert Kept(s, s', rows[i].layerId);
    }
  }

  lemma AcceptedKnown(rule: Rule, s: State, e: Event)
    requires Accepted(rule, s, e)
    ensures e.WriteFile? && e.name in s.t.files
  {
    hide CalcSizeOf, LayerWrite, HeadVersion;
  }

  lemma OtherBooks(rule: Rule, s: State, g: Books, e: Event, f: nat)
    requires Intact(s) && !Stores(s, e, f) && !(e.InsertFile? && f == s.t.lastFile + 1)
    ensures var g' := Track(rule, g, s, e);
            && Hist(g', f) == Hist(g, f) && Durable(g', f) == Durable(g, f)
            && forall l :: l in s.t.layers && l in g.snaps ==> l in g'.snaps && g'.snaps[l] == g.snaps[l]
  {
    assert s.stage.Inserting? ==> s.stage.layerId !in s.t.layers;
    hide Intact, Replay, Accepted;
    if Accepted(rule, s, e) {
      AcceptedKnown(rule, s, e);
    }
  }

  lemma SnapsKept(s: State, g: Books, g': Books, f: nat)
    requires SnapsOk(s, g, f)
    requires forall l :: l in s.t.layers && l in g.snaps ==> l in g'.snaps && g'.snaps[l] == g.snaps[l]
    ensures SnapsOk(s, g', f)
  {
    hide Contents, CommittedLog;
  }

  lemma OtherStage(rule: Rule, s: State, e: Event, f: nat)
    requires !Stores(s, e, f)
    ensures var stage' := Apply(rule, s, e).stage;
            stage'.Committed? && stage'.fileId == f ==> s.stage.Committed? && s.stage.fileId == f
  {
    hide ObjectKey, HeadVersion, Excluded, LayersTagged, HasEmptyRange, RowsOf, WriteTo, StepSetHead, StepDeleteHead;
  }

  lemma SnapsFrame(s: State, s': State, g: Books, f: nat)
    requires SnapsOk(s, g, f) && SameStored(s, s', f)
    ensures SnapsOk(s', g, f)
  {
    hide Contents, CommittedLog, IsLayerOf, Active, Base, AllRows, CalcFileSize;
  }

  lemma OtherCommitted(rule: Rule, s: State, g: Books, e: Event, f: nat)
    requires Intact(s) && CommittedOk(s, g, f) && !Stores(s, e, f)
    requires SnapsOk(s, Track(rule, g, s, e), f)
    ensures CommittedOk(Apply(rule, s, e), Track(rule, g, s, e), f)
  {
    hide Intact, Apply, Track, Stores, RowsSound, SnapsOk, Active, Base, AllRows, CalcFileSize, CommittedLog, Grown;
    StepIsolated(rule, s, e, f);
    StepGrown(rule, s, e);
    RowsSoundStay(s, Apply(rule, s, e), f);
    SnapsFrame(s, Apply(rule, s, e), Track(rule, g, s, e), f);
  }

  lemma OtherStep(rule: Rule, s: State, g: Books, e: Event, f: nat)
    requires RefinesAt(s, g, f) && !Stores(s, e, f) && !(e.InsertFile? && f == s.t.lastFile + 1)
    ensures FileOk(Apply(rule, s, e), Track(rule, g, s, e), f)
  {
    hide Intact, Apply, Track, Stores, FileRefines, SnapsOk, RowsSound, Active, Base, AllRows, CalcFileSize,
         CommittedLog, Hist, Durable;
    StepIsolated(rule, s, e, f);
    OtherBooks(rule, s, g, e, f);
    SnapsKept(s, g, Track(rule, g, s, e), f);
    OtherStage(rule, s, e, f);
    OtherCommitted(rule, s, g, e, f);
  }

  // ---------- New files ----------

  lemma NewFile(s: State, f: nat)
    requires Intact(s) && f > s.t.lastFile
    ensures AllRows(s, f) == [] && Base(s, f) == [] && Active(s, f) == EMPTY_LAYER
    ensures forall l :: !IsLayerOf(s.t, f, l)
    ensures s.stage.Committed? ==> s.stage.fileId != f
  {
    hide HeadsOk, KeysOk, RowsOk;
    FileRowsAbove(s.t, f, 0, s.t.lastLayer);
  }

  lemma NothingWritten(s: State, g: Books, f: nat)
    requires AllRows(s, f) == [] && Base(s, f) == [] && Active(s, f) == EMPTY_LAYER
    requires forall l :: !IsLayerOf(s.t, f, l)
    requires Hist(g, f) == [] && Durable(g, f) == 0
    requires s.stage.Committed? ==> s.stage.fileId != f
    ensures FileOk(s, g, f)
  {
    hide FileRows, Active, Base;
    assert ActiveLog(EMPTY_LAYER) == [] && Contents([]) == [];
  }

  lemma InsertStep(rule: Rule, s: State, g: Books, name: string)
    requires RefinesAt(s, g, s.t.lastFile + 1)
    ensures FileOk(Apply(rule, s, InsertFile(name)), Track(rule, g, s, InsertFile(name)), s.t.lastFile + 1)
  {
    var e, f := InsertFile(name), s.t.lastFile + 1;
    if name in s.t.files {
      DuplicateStep(rule, s, g, name, f);
    } else {
      NewFile(s, f);
      hide Intact, FileOk, FileRows, RowPieces, HeadsOk;
      StepIsolated(rule, s, e, f);
      NothingWritten(Apply(rule, s, e), Track(rule, g, s, e), f);
    }
  }

  lemma DuplicateStep(rule: Rule, s: State, g: Books, name: string, f: nat)
    requires RefinesAt(s, g, f) && name in s.t.files
    ensures FileOk(Apply(rule, s, InsertFile(name)), Track(rule, g, s, InsertFile(name)), f)
  {
    var e := InsertFile(name);
    hide Intact, FileRefines, SnapsOk, RowsSound, Active, Base, AllRows, CalcFileSize, CommittedLog, Hist, Durable;
    assert Track(rule, g, s, e) == g;
    StepIsolated(rule, s, e, f);
    OtherCommitted(rule, s, g, e, f);
  }

  // ---------- Writing ----------

  /** Only an accepted write to the file has anything to be safe about. */
  ghost predicate SafeFor(rule: Rule, s: State, e: Event, f: nat) {
    Accepted(rule, s, e) && s.t.files[e.name] == f ==>
      SafeWrite(rule, Latest(s, f), Active(s, f), CalcSizeOf(rule, s.t, Active(s, f), f, e.faults).bytes,
                e.offset, e.data)
  }

  lemma FileWriteExact(rule: Rule, base: seq<Piece>, layer: Layer, hist: seq<WriteOp>, durable: nat,
                       fileSize: nat, offset: nat, data: seq<byte>)
    requires FileRefines(base, layer, hist, durable)
    requires fileSize <= End(base + ActiveLog(layer))
    ensures FileRefines(base, LayerWrite(rule, layer, fileSize, offset, data), hist + [WriteOp(offset, data)], durable)
       <==> SafeWrite(rule, Contents(base + ActiveLog(layer)), layer, fileSize, offset, data)
  {
    hide Contents, Contiguous, End, Replay, Tiled;
    WriteExact(rule, base, layer, fileSize, offset, data);
    ReplayAppend(hist, WriteOp(offset, data));
    assert (hist + [WriteOp(offset, data)])[..durable] == hist[..durable];
  }

  /** The size a write starts from never exceeds the file, whatever the fault. */
  lemma WriteSize(rule: Rule, s: State, g: Books, f: nat, faults: set<Call>)
    requires RefinesAt(s, g, f)
    ensures var size := CalcSizeOf(rule, s.t, Active(s, f), f, faults);
            size.Size? ==> size.bytes <= End(Base(s, f) + ActiveLog(Active(s, f)))
  {
    hide Contents, RefinesAt, CalcFileSize;
    SizeExact(rule, s, g, f, {});
  }

  lemma AcceptedBooks(rule: Rule, s: State, g: Books, e: Event)
    requires Accepted(rule, s, e)
    ensures var s', g', f := Apply(rule, s, e), Track(rule, g, s, e), s.t.files[e.name];
            && s' == s.(memtable := s'.memtable) && s.stage.Idle?
            && g' == g.(hist := g'.hist)
            && Hist(g', f) == Hist(g, f) + [WriteOp(e.offset, e.data)] && Durable(g', f) == Durable(g, f)
  {
    hide WriteTo;
  }

  /** Same tables, objects and snapshots: the same is committed. */
  lemma CommittedSame(s: State, s': State, g: Books, g': Books, f: nat)
    requires s'.t == s.t && s'.objects == s.objects && g'.snaps == g.snaps
    ensures Base(s', f) == Base(s, f)
    ensures CommittedOk(s, g, f) <==> CommittedOk(s', g', f)
  {
    hide RowSound, Contents, CommittedLog, FileRows, IsLayerOf;
    assert AllRows(s', f) == AllRows(s, f);
    assert RowsSound(s, f) <==> RowsSound(s', f);
    assert SnapsOk(s, g, f) <==> SnapsOk(s', g', f);
  }

  lemma AcceptedStep(rule: Rule, s: State, g: Books, e: Event, f: nat)
    requires RefinesAt(s, g, f) && Accepted(rule, s, e) && s.t.files[e.name] == f
    ensures FileOk(Apply(rule, s, e), Track(rule, g, s, e), f) <==> SafeFor(rule, s, e, f)
  {
    var s', g' := Apply(rule, s, e), Track(rule, g, s, e);
    hide Intact, Apply, Track, FileRefines, CommittedOk, CalcSizeOf, LayerWrite, SafeWrite, Base, Active, Hist, Durable,
         Contents, End, Accepted;
    AcceptedBooks(rule, s, g, e);
    AcceptedWriteLayer(rule, s, e);
    WriteSize(rule, s, g, f, e.faults);
    CommittedSame(s, s', g, g', f);
    FileWriteExact(rule, Base(s, f), Active(s, f), Hist(g, f), Durable(g, f),
                   CalcSizeOf(rule, s.t, Active(s, f), f, e.faults).bytes, e.offset, e.data);
  }

  /** A write to the file that is not accepted. */
  lemma RejectedStep(rule: Rule, s: State, g: Books, e: Event, f: nat)
    requires FileOk(s, g, f) && e.WriteFile? && !Alters(rule, s, e, f) && e.name in s.t.files && s.t.files[e.name] == f
    ensures FileOk(Apply(rule, s, e), Track(rule, g, s, e), f)
  {
    var s' := Apply(rule, s, e);
    assert Track(rule, g, s, e) == g;
    hide Apply, Track, FileRefines, CommittedOk, Base, Active, Hist, Durable, Accepted;
    UnalteringWrite(rule, s, e, f);
    CommittedSame(s, s', g, g, f);
  }

  // ---------- Committing ----------

  /** The file after its commit, with the active layer still in memory: durable to the last write. */
  lemma FileCommit(base: seq<Piece>, layer: Layer, hist: seq<WriteOp>, durable: nat)
    requires FileRefines(base, layer, hist, durable)
    ensures FileRefines(base + ActiveLog(layer), layer, hist, |hist|)
  {
    hide Contents, Contiguous, Replay, Tiled;
    SuffixIdempotent(base, ActiveLog(layer));
    assert hist[..|hist|] == hist;
  }

  lemma CommitBooks(rule: Rule, s: State, g: Books, e: Event)
    requires Commits(s, e)
    ensures var s', g', f := Apply(rule, s, e), Track(rule, g, s, e), s.stage.fileId;
            && s' == StepCommit(s, e.reply)
            && Hist(g', f) == Hist(g, f) && Durable(g', f) == |Hist(g, f)|
            && g'.snaps == g.snaps[s.stage.layerId := Replay(Hist(g, f))]
  {
    hide Replay;
  }

  lemma CommitSound(s: State, e: Event)
    requires Intact(s) && Commits(s, e) && RowsSound(s, s.stage.fileId) && Tiled(Active(s, s.stage.fileId))
    ensures RowsSound(StepCommit(s, e.reply), s.stage.fileId)
  {
    var s', f, l := StepCommit(s, e.reply), s.stage.fileId, s.stage.layerId;
    hide Intact, StepCommit, RowSound, FileRows, RowsOf, Tiled, Kept, ObjectBytes;
    CommitHolds(s, e);
    CommitGrown(s, e.reply);
    RowsOfLayerSound(s'.t, s'.objects, l, Active(s, f));
    var rows := AllRows(s, f);
    forall i | 0 <= i < |rows| ensures RowSound(s'.t, s'.objects, rows[i]) {
      RowSoundKept(s, s', f, rows[i]);
    }
  }

  lemma RowSoundKept(s: State, s': State, f: nat, row: ChunkRow)
    requires Intact(s) && Grown(s, s') && row in AllRows(s, f) && RowSound(s.t, s.objects, row)
    ensures RowSound(s'.t, s'.objects, row)
  {
    hide StageOk, RemovalOk, MemOk, HeadsOk, KeysOk, FilesOk, FileRows, RowsOf;
    FileRowsIn(s.t, f, s.t.lastLayer, row);
    assert Kept(s, s', row.layerId);
  }

  lemma CommitSnaps(s: State, g: Books, g': Books, e: Event)
    requires Intact(s) && Commits(s, e) && SnapsOk(s, g, s.stage.fileId)
    requires g'.snaps == g.snaps[s.stage.layerId := Contents(Base(StepCommit(s, e.reply), s.stage.fileId))]
    ensures SnapsOk(StepCommit(s, e.reply), g', s.stage.fileId)
  {
    var s', f, id := StepCommit(s, e.reply), s.stage.fileId, s.stage.layerId;
    assert id !in s.t.layers && id == s.t.lastLayer && forall l :: l in s.t.layers ==> l <= s.t.lastLayer;
    hide Intact, StepCommit, Contents, CommittedLog, RowsOf, FileRows, Holds;
    CommitHolds(s, e);
    CommitGrown(s, e.reply);
    forall l | IsLayerOf(s'.t, f, l)
      ensures l in g'.snaps && Contents(CommittedLog(s'.t, s'.objects, f, l)) == g'.snaps[l]
    {
      if l != id {
        assert Kept(s, s', l);
        GrownLog(s, s', f, l);
      }
    }
  }

  /** A commit makes the file's history durable and records its contents as the version. */
  lemma CommitRefines(rule: Rule, s: State, g: Books, e: Event)
    requires Commits(s, e) && RefinesAt(s, g, s.stage.fileId)
    ensures RefinesAt(Apply(rule, s, e), Track(rule, g, s, e), s.stage.fileId)
    ensures var g', f := Track(rule, g, s, e), s.stage.fileId;
            DurableHist(g', f) == Hist(g', f) == Hist(g, f)
    ensures var g', l := Track(rule, g, s, e), s.stage.layerId;
            l in g'.snaps && g'.snaps[l] == Replay(Hist(g, s.stage.fileId)) == Latest(s, s.stage.fileId)
  {
    var s', g', f := Apply(rule, s, e), Track(rule, g, s, e), s.stage.fileId;
    var layer := Active(s, f);
    hide Intact, Apply, Track, StepCommit, RowsSound, SnapsOk, Base, Active, Hist, Durable, Contents, Contiguous,
         Replay, Tiled, Commits, Holds;
    CommitBooks(rule, s, g, e);
    StepIntact(rule, s, e);
    CommitHolds(s, e);
    CommitBase(s, e);
    FileCommit(Base(s, f), layer, Hist(g, f), Durable(g, f));
    CommitSound(s, e);
    CommitSnaps(s, g, g', e);
  }

  // ---------- Dropping the active layer ----------

  lemma FileDropped(base: seq<Piece>, layer: Layer, hist: seq<WriteOp>, durable: nat)
    requires FileRefines(base, layer, hist, durable)
    ensures FileRefines(base, EMPTY_LAYER, hist[..durable], durable)
  {
    assert ActiveLog(EMPTY_LAYER) == [] && base + [] == base;
    ContiguousPrefix(base, ActiveLog(layer));
    assert hist[..durable][..durable] == hist[..durable];
  }

  lemma DropStep(rule: Rule, s: State, g: Books, f: nat)
    requires FileOk(s, g, f) && s.stage.Committed? && s.stage.fileId == f
    ensures FileOk(Apply(rule, s, DropActive), g, f)
  {
    var s' := Apply(rule, s, DropActive);
    DropShape(rule, s);
    assert Active(s', f) == EMPTY_LAYER && Hist(g, f)[..Durable(g, f)] == Hist(g, f);
    hide Apply, FileRefines, CommittedOk, Base, Active, Hist, Durable;
    CommittedSame(s, s', g, g, f);
    FileDropped(Base(s, f), Active(s, f), Hist(g, f), Durable(g, f));
  }

  lemma CrashShape(rule: Rule, s: State, g: Books, f: nat)
    ensures var s', g' := Apply(rule, s, Crash), Track(rule, g, s, Crash);
            && s'.t == s.t && s'.objects == s.objects && s'.stage.Idle? && Active(s', f) == EMPTY_LAYER
            && Hist(g', f) == DurableHist(g, f) && Durable(g', f) == Durable(g, f) && g'.snaps == g.snaps
  {
  }

  /** A crash forgets exactly the writes that were not durable, and the file goes on refining. */
  lemma CrashRefines(rule: Rule, s: State, g: Books, f: nat)
    requires RefinesAt(s, g, f)
    ensures RefinesAt(Apply(rule, s, Crash), Track(rule, g, s, Crash), f)
    ensures Hist(Track(rule, g, s, Crash), f) == DurableHist(g, f)
  {
    var s', g' := Apply(rule, s, Crash), Track(rule, g, s, Crash);
    hide Intact, Apply, Track, CommittedOk, Base, Active, Hist, Durable, Contents, Contiguous, Replay, Tiled;
    StepIntact(rule, s, Crash);
    CrashShape(rule, s, g, f);
    CommittedSame(s, s', g, g', f);
    FileDropped(Base(s, f), Active(s, f), Hist(g, f), Durable(g, f));
  }

  // ---------- One step ----------

  lemma SafeUnlessAccepted(rule: Rule, s: State, e: Event, f: nat)
    requires !Accepted(rule, s, e) || s.t.files[e.name] != f
    ensures SafeFor(rule, s, e, f)
  {
  }

  lemma IdleStep(rule: Rule, s: State, g: Books, e: Event, f: nat)
    requires FileOk(s, g, f)
    requires (e.Commit? && !Commits(s, e)) || (e.DropActive? && !s.stage.Committed?)
    ensures FileOk(Apply(rule, s, e), Track(rule, g, s, e), f)
  {
    var s' := Apply(rule, s, e);
    assert s'.t == s.t && s'.objects == s.objects && s'.memtable == s.memtable && Track(rule, g, s, e) == g;
    assert s'.stage.Committed? ==> s' == s;
    hide Apply, Track, FileRefines, CommittedOk, Base, Hist, Durable, Commits;
    CommittedSame(s, s', g, g, f);
  }

  /** A step that may store into the file. */
  lemma OwnStep(rule: Rule, s: State, g: Books, e: Event, f: nat)
    requires RefinesAt(s, g, f) && Stores(s, e, f)
    ensures FileOk(Apply(rule, s, e), Track(rule, g, s, e), f) <==> SafeFor(rule, s, e, f)
  {
    assert !e.WriteFile? ==> SafeFor(rule, s, e, f);
    assert e.WriteFile? && Alters(rule, s, e, f) ==> Accepted(rule, s, e);
    assert e.Commit? || e.DropActive? ==> !s.stage.Idle? && s.stage.fileId == f;
    hide Intact, FileOk, Apply, Track, SafeFor, Alters, Commits, Accepted;
    if e.WriteFile? {
      if Alters(rule, s, e, f) {
        AcceptedStep(rule, s, g, e, f);
      } else {
        assert SafeFor(rule, s, e, f) by { Unaltered(rule, s, e, f); }
        RejectedStep(rule, s, g, e, f);
      }
    } else if e.Crash? {
      CrashRefines(rule, s, g, f);
    } else if e.Commit? && Commits(s, e) {
      CommitRefines(rule, s, g, e);
    } else if e.DropActive? && s.stage.Committed? {
      assert Track(rule, g, s, e) == g by { NoBooks(rule, s, g, e); }
      DropStep(rule, s, g, f);
    } else {
      IdleStep(rule, s, g, e, f);
    }
  }

  lemma Unaltered(rule: Rule, s: State, e: Event, f: nat)
    requires !Alters(rule, s, e, f)
    ensures SafeFor(rule, s, e, f)
  {
  }

  lemma NoBooks(rule: Rule, s: State, g: Books, e: Event)
    requires e.DropActive?
    ensures Track(rule, g, s, e) == g
  {
  }

  /**
   One step for one file, exactly: from a state in which the file refines its history, it does so in the
   next if and only if the step is safe for this file, whatever the others are in.
   */
  lemma FileStepExact(rule: Rule, s: State, g: Books, e: Event, f: nat)
    requires RefinesAt(s, g, f)
    ensures FileOk(Apply(rule, s, e), Track(rule, g, s, e), f) <==> SafeFor(rule, s, e, f)
    ensures Intact(Apply(rule, s, e))
  {
    assert !Stores(s, e, f) ==> !Accepted(rule, s, e) || s.t.files[e.name] != f;
    hide Intact, FileOk, Apply, Track, SafeFor, Stores, Accepted;
    StepIntact(rule, s, e);
    if Stores(s, e, f) {
      OwnStep(rule, s, g, e, f);
    } else {
      SafeUnlessAccepted(rule, s, e, f);
      if e.InsertFile? && f == s.t.lastFile + 1 {
        InsertStep(rule, s, g, e.name);
      } else {
        OtherStep(rule, s, g, e, f);
      }
    }
  }

  // ---------- Whole runs, for one file ----------

  function TrackRun(rule: Rule, g: Books, s: State, es: seq<Event>): Books
    decreases |es|
  {
    if es == [] then g else TrackRun(rule, Track(rule, g, s, es[0]), Apply(rule, s, es[0]), es[1..])
  }

  /** Every write of the run to the file is safe when its turn comes. */
  ghost predicate SafeRunFor(rule: Rule, s: State, es: seq<Event>, f: nat)
    decreases |es|
  {
    es != [] ==> SafeFor(rule, s, es[0], f) && SafeRunFor(rule, Apply(rule, s, es[0]), es[1..], f)
  }

  /** In every state the run passes through the file refines the books kept so far. */
  ghost predicate AllFileOk(rule: Rule, s: State, g: Books, es: seq<Event>, f: nat)
    decreases |es|
  {
    && FileOk(s, g, f)
    && (es != [] ==> AllFileOk(rule, Apply(rule, s, es[0]), Track(rule, g, s, es[0]), es[1..], f))
  }

  lemma {:induction false} FileRunExactFrom(rule: Rule, s: State, g: Books, es: seq<Event>, f: nat)
    requires RefinesAt(s, g, f)
    ensures AllFileOk(rule, s, g, es, f) <==> SafeRunFor(rule, s, es, f)
    ensures SafeRunFor(rule, s, es, f) ==> RefinesAt(Run(rule, s, es), TrackRun(rule, g, s, es), f)
    decreases |es|
  {
    hide FileOk, Intact, SafeFor, Apply, Track;
    if es != [] {
      FileStepExact(rule, s, g, es[0], f);
      if SafeFor(rule, s, es[0], f) {
        FileRunExactFrom(rule, Apply(rule, s, es[0]), Track(rule, g, s, es[0]), es[1..], f);
      } else {
        NotAllOk(rule, Apply(rule, s, es[0]), Track(rule, g, s, es[0]), es[1..], f);
      }
    }
  }

  lemma NotAllOk(rule: Rule, s: State, g: Books, es: seq<Event>, f: nat)
    requires !FileOk(s, g, f)
    ensures !AllFileOk(rule, s, g, es, f)
  {
  }

  lemma InitiallyRefines()
    ensures Refines(INITIAL, NO_BOOKS)
  {
    forall f: nat ensures FileOk(INITIAL, NO_BOOKS, f) {
      NothingWritten(INITIAL, NO_BOOKS, f);
    }
  }

  /**
   Whole runs of the shipped code, for each file alone: from the empty system, the file refines its
   history in every state along the run if and only if every write to it along the run is safe.
   */
  lemma FileRunExact(rule: Rule, es: seq<Event>, f: nat)
    ensures AllFileOk(rule, INITIAL, NO_BOOKS, es, f) <==> SafeRunFor(rule, INITIAL, es, f)
    ensures SafeRunFor(rule, INITIAL, es, f) ==>
              RefinesAt(Run(rule, INITIAL, es), TrackRun(rule, NO_BOOKS, INITIAL, es), f)
  {
    InitiallyRefines();
    hide FileOk, Intact;
    FileRunExactFrom(rule, INITIAL, NO_BOOKS, es, f);
  }

  // ---------- All files together ----------

  /** The write is safe for the file it goes to. */
  ghost predicate SafeEvent(rule: Rule, s: State, e: Event) {
    Accepted(rule, s, e) ==> SafeFor(rule, s, e, s.t.files[e.name])
  }

  lemma SafeForAll(rule: Rule, s: State, e: Event)
    ensures SafeEvent(rule, s, e) <==> forall f: nat :: SafeFor(rule, s, e, f)
  {
    hide SafeWrite, Latest, CalcSizeOf, LayerWrite, HeadVersion;
    if SafeEvent(rule, s, e) {
      forall f: nat ensures SafeFor(rule, s, e, f) {
      }
    }
    if (forall f: nat :: SafeFor(rule, s, e, f)) && Accepted(rule, s, e) {
      assert SafeFor(rule, s, e, s.t.files[e.name]);
    }
  }

  /** One step for the whole system, exactly. */
  lemma StepExact(rule: Rule, s: State, g: Books, e: Event)
    requires Refines(s, g)
    ensures Refines(Apply(rule, s, e), Track(rule, g, s, e)) <==> SafeEvent(rule, s, e)
  {
    hide FileOk, Intact, SafeFor, SafeEvent, Apply, Track;
    SafeForAll(rule, s, e);
    StepIntact(rule, s, e);
    forall f: nat ensures FileOk(Apply(rule, s, e), Track(rule, g, s, e), f) <==> SafeFor(rule, s, e, f) {
      FileStepExact(rule, s, g, e, f);
    }
  }

  /** Every write of the run is safe when its turn comes. */
  ghost predicate SafeRun(rule: Rule, s: State, es: seq<Event>)
    decreases |es|
  {
    es != [] ==> SafeEvent(rule, s, es[0]) && SafeRun(rule, Apply(rule, s, es[0]), es[1..])
  }

  /** Every state the run passes through refines the books kept so far. */
  ghost predicate AllRefine(rule: Rule, s: State, g: Books, es: seq<Event>)
    decreases |es|
  {
    && Refines(s, g)
    && (es != [] ==> AllRefine(rule, Apply(rule, s, es[0]), Track(rule, g, s, es[0]), es[1..]))
  }

  lemma {:induction false} AllRefineAt(rule: Rule, s: State, g: Books, es: seq<Event>, f: nat)
    requires AllRefine(rule, s, g, es)
    ensures AllFileOk(rule, s, g, es, f)
    decreases |es|
  {
    hide FileOk, Intact, Apply, Track;
    if es != [] {
      AllRefineAt(rule, Apply(rule, s, es[0]), Track(rule, g, s, es[0]), es[1..], f);
    }
  }

  lemma {:induction false} AllFilesRefine(rule: Rule, s: State, g: Books, es: seq<Event>)
    requires Intact(s) && forall f: nat :: AllFileOk(rule, s, g, es, f)
    ensures AllRefine(rule, s, g, es)
    decreases |es|
  {
    hide FileOk, Intact, Apply, Track;
    forall f: nat ensures FileOk(s, g, f) {
      assert AllFileOk(rule, s, g, es, f);
    }
    if es != [] {
      StepIntact(rule, s, es[0]);
      forall f: nat ensures AllFileOk(rule, Apply(rule, s, es[0]), Track(rule, g, s, es[0]), es[1..], f) {
        assert AllFileOk(rule, s, g, es, f);
      }
      AllFilesRefine(rule, Apply(rule, s, es[0]), Track(rule, g, s, es[0]), es[1..]);
    }
  }

  lemma {:induction false} SafeRunAt(rule: Rule, s: State, es: seq<Event>, f: nat)
    requires SafeRun(rule, s, es)
    ensures SafeRunFor(rule, s, es, f)
    decreases |es|
  {
    hide SafeEvent, SafeFor, Apply;
    if es != [] {
      SafeForAll(rule, s, es[0]);
      SafeRunAt(rule, Apply(rule, s, es[0]), es[1..], f);
    }
  }

  lemma {:induction false} SafeForAllFiles(rule: Rule, s: State, es: seq<Event>)
    requires forall f: nat :: SafeRunFor(rule, s, es, f)
    ensures SafeRun(rule, s, es)
    decreases |es|
  {
    hide SafeEvent, SafeFor, Apply;
    if es != [] {
      forall f: nat
        ensures SafeFor(rule, s, es[0], f) && SafeRunFor(rule, Apply(rule, s, es[0]), es[1..], f)
      {
        assert SafeRunFor(rule, s, es, f);
      }
      SafeForAll(rule, s, es[0]);
      SafeForAllFiles(rule, Apply(rule, s, es[0]), es[1..]);
    }
  }

  /**
   So for the whole system: every state along a run from the empty one refines flat files if and only
   if every write along it is safe.
   */
  lemma RunExact(rule: Rule, es: seq<Event>)
    ensures AllRefine(rule, INITIAL, NO_BOOKS, es) <==> SafeRun(rule, INITIAL, es)
    ensures SafeRun(rule, INITIAL, es) ==> Refines(Run(rule, INITIAL, es), TrackRun(rule, NO_BOOKS, INITIAL, es))
  {
    InitiallyRefines();
    hide FileOk, Intact, Run, TrackRun, AllFileOk, SafeRunFor, AllRefine, SafeRun;
    RunIntact(rule, INITIAL, es);
    if AllRefine(rule, INITIAL, NO_BOOKS, es) {
      forall f: nat ensures SafeRunFor(rule, INITIAL, es, f) {
        AllRefineAt(rule, INITIAL, NO_BOOKS, es, f);
        FileRunExact(rule, es, f);
      }
      SafeForAllFiles(rule, INITIAL, es);
    }
    if SafeRun(rule, INITIAL, es) {
      forall f: nat
        ensures AllFileOk(rule, INITIAL, NO_BOOKS, es, f)
        ensures FileOk(Run(rule, INITIAL, es), TrackRun(rule, NO_BOOKS, INITIAL, es), f)
      {
        SafeRunAt(rule, INITIAL, es, f);
        FileRunExact(rule, es, f);
      }
      AllFilesRefine(rule, INITIAL, NO_BOOKS, es);
    }
  }

  // ---------- The documented rule ----------

  /** Under the documented formulas only the empty write is unsafe. */
  lemma DocumentedSafe(s: State, g: Books, e: Event, f: nat)
    requires RefinesAt(s, g, f) && Accepted(Documented, s, e) && s.t.files[e.name] == f
    ensures SafeFor(Documented, s, e, f) <==> e.data != []
  {
    hide CommittedOk, Intact, Contents, CommittedLog, Contiguous, Replay;
    assert Tiled(Active(s, f));
    SizeExact(Documented, s, g, f, {});
  }

  predicate EmptyWriteTo(rule: Rule, s: State, e: Event, f: nat) {
    Accepted(rule, s, e) && s.t.files[e.name] == f && e.data == []
  }

  /** No empty write to the file is accepted along the run. */
  ghost predicate NoEmptyWriteTo(rule: Rule, s: State, es: seq<Event>, f: nat)
    decreases |es|
  {
    es != [] ==> !EmptyWriteTo(rule, s, es[0], f) && NoEmptyWriteTo(rule, Apply(rule, s, es[0]), es[1..], f)
  }

  lemma DocumentedStep(s: State, g: Books, e: Event, f: nat)
    requires RefinesAt(s, g, f)
    ensures SafeFor(Documented, s, e, f) <==> !EmptyWriteTo(Documented, s, e, f)
  {
    hide RefinesAt, SafeFor, CalcSizeOf, LayerWrite, HeadVersion;
    if Accepted(Documented, s, e) && s.t.files[e.name] == f {
      DocumentedSafe(s, g, e, f);
    } else {
      SafeUnlessAccepted(Documented, s, e, f);
    }
  }

  lemma {:induction false} DocumentedExactFrom(s: State, g: Books, es: seq<Event>, f: nat)
    requires RefinesAt(s, g, f)
    ensures SafeRunFor(Documented, s, es, f) <==> NoEmptyWriteTo(Documented, s, es, f)
    decreases |es|
  {
    hide FileOk, Intact, Apply, Track, SafeFor, EmptyWriteTo;
    if es != [] {
      DocumentedStep(s, g, es[0], f);
      if SafeFor(Documented, s, es[0], f) {
        FileStepExact(Documented, s, g, es[0], f);
        DocumentedExactFrom(Apply(Documented, s, es[0]), Track(Documented, g, s, es[0]), es[1..], f);
      }
    }
  }

  /** With them a file refines its history along a run exactly if no empty write to it is accepted. */
  lemma DocumentedExact(es: seq<Event>, f: nat)
    ensures AllFileOk(Documented, INITIAL, NO_BOOKS, es, f) <==> NoEmptyWriteTo(Documented, INITIAL, es, f)
  {
    InitiallyRefines();
    hide FileOk, Intact;
    FileRunExact(Documented, es, f);
    DocumentedExactFrom(INITIAL, NO_BOOKS, es, f);
  }

  predicate NoEmptyWrite(es: seq<Event>) {
    forall i :: 0 <= i < |es| && es[i].WriteFile? ==> es[i].data != []
  }

  lemma {:induction false} NoneEmptyTo(s: State, es: seq<Event>, f: nat)
    requires NoEmptyWrite(es)
    ensures NoEmptyWriteTo(Documented, s, es, f)
    decreases |es|
  {
    hide Apply;
    if es != [] {
      assert NoEmptyWrite(es[1..]);
      NoneEmptyTo(Apply(Documented, s, es[0]), es[1..], f);
    }
  }

  /** With the documented formulas every run of non-empty writes refines flat files, whatever is written where. */
  lemma DocumentedRefines(es: seq<Event>)
    requires NoEmptyWrite(es)
    ensures AllRefine(Documented, INITIAL, NO_BOOKS, es)
    ensures Refines(Run(Documented, INITIAL, es), TrackRun(Documented, NO_BOOKS, INITIAL, es))
  {
    hide Refines, AllRefine, SafeRun, Run, AllFileOk, SafeRunFor, NoEmptyWriteTo;
    forall f: nat ensures SafeRunFor(Documented, INITIAL, es, f) {
      NoneEmptyTo(INITIAL, es, f);
      DocumentedExact(es, f);
      FileRunExact(Documented, es, f);
    }
    SafeForAllFiles(Documented, INITIAL, es);
    RunExact(Documented, es);
  }
}
