/**
 What is frozen by a commit.  Everything here holds of every run of the shipped code: of unsafe
 writes, failed checkpoints, crashes, and head moves made by another process in between.
 */
module TimeTravel {
  import opened FlatFile
  import opened Layers
  import opened Tables
  import opened Reads
  import opened WalNames
  import opened Machine

  /** Layer `l`, its rows, its object and its tag are the same in both states. */
  ghost predicate Kept(s: State, s': State, l: nat)
    requires l in s.t.layers
  {
    var row := s.t.layers[l];
    && l in s'.t.layers && s'.t.layers[l] == row
    && RowsOf(s'.t.chunks, l) == RowsOf(s.t.chunks, l)
    && row.objectKey in s.objects && row.objectKey in s'.objects
    && s'.objects[row.objectKey] == s.objects[row.objectKey]
    && row.versionId in s.t.versions && row.versionId in s'.t.versions
    && s'.t.versions[row.versionId] == s.t.versions[row.versionId]
  }

  /** `s'` still has everything committed in `s`, and its new layers have larger ids. */
  ghost predicate Grown(s: State, s': State) {
    && (forall l :: l in s.t.layers ==> Kept(s, s', l))
    && (forall l, m :: l in s'.t.layers && l !in s.t.layers && m in s.t.layers ==> m < l)
    && s.t.lastLayer <= s'.t.lastLayer
  }

  /** Steps that leave layers, versions, chunks and objects alone. */
  lemma SameGrown(s: State, s': State)
    requires LayersOk(s.t, s.objects) && s.t.lastLayer <= s'.t.lastLayer
    requires s'.t.layers == s.t.layers && s'.t.versions == s.t.versions
    requires s'.t.chunks == s.t.chunks && s'.objects == s.objects
    ensures Grown(s, s')
  {
    hide RowsOf;
  }

  lemma UploadGrown(s: State, ok: bool, stored: bool)
    requires Intact(s)
    ensures Grown(s, StepUpload(s, ok, stored))
  {
    hide HeadsOk, KeysOk, FilesOk, MemOk, RemovalOk, RowsOk, RowsOf, ObjectKey;
  }

  lemma CommitGrown(s: State, reply: CommitReply)
    requires Intact(s)
    ensures Grown(s, StepCommit(s, reply))
  {
    hide HeadsOk, KeysOk, FilesOk, MemOk, RemovalOk, RowsOk, RowsOf;
    var s' := StepCommit(s, reply);
    if s'.t != s.t {
      assert s'.t == Committing(s) && s'.objects == s.objects;
      assert s.stage.versionId !in s.t.versions && s.stage.layerId !in s.t.layers && s.stage.layerId == s.t.lastLayer;
      forall l | l in s.t.layers ensures Kept(s, s', l) {
        RowsOfAppend(s.t.chunks, s.stage.rows, l);
        RowsOfNone(s.stage.rows, l);
      }
    } else {
      SameGrown(s, s');
    }
  }

  lemma StartTables(s: State, name: string, tag: string, faults: set<Call>)
    ensures var s' := Start(s, name, tag, faults).1;
            s'.t == s.t.(lastVersion := s'.t.lastVersion) && s'.objects == s.objects
  {
    hide HeadVersion;
  }

  /** Only a commit touches layers, versions and rows, and only an upload the objects. */
  lemma TablesUnlessCommit(rule: Rule, s: State, e: Event)
    requires !e.Commit?
    ensures var s' := Apply(rule, s, e);
            && s'.t.layers == s.t.layers && s'.t.versions == s.t.versions && s'.t.chunks == s.t.chunks
            && s.t.lastLayer <= s'.t.lastLayer
            && (!e.Upload? ==> s'.objects == s.objects)
  {
    hide LayersTagged, ObjectKey, Excluded, WriteTo, HasEmptyRange, RowsOf, GetDBFilename, IsWALFile, StepCommit, Start;
    if e.Checkpoint? {
      StartTables(s, e.name, e.tag, e.faults);
    } else if e.FlushForRemoval? && s.removal.Asked? {
      StartTables(s, GetDBFilename(s.removal.wal), e.tag, e.faults);
    }
  }

  /** Committed layers, their rows, their objects and their tags are immutable. */
  lemma StepGrown(rule: Rule, s: State, e: Event)
    requires Intact(s)
    ensures Grown(s, Apply(rule, s, e))
  {
    if e.Upload? {
      UploadGrown(s, e.ok, e.stored);
    } else if e.Commit? {
      CommitGrown(s, e.reply);
    } else {
      assert LayersOk(s.t, s.objects);
      hide Intact, Grown, LayersOk, Apply;
      TablesUnlessCommit(rule, s, e);
      SameGrown(s, Apply(rule, s, e));
    }
  }

  lemma GrownTrans(s: State, s': State, s'': State)
    requires Intact(s) && Grown(s, s') && Grown(s', s'')
    ensures Grown(s, s'')
  {
    hide StageOk, RemovalOk, MemOk, HeadsOk, KeysOk, FilesOk, RowsOk, RowsOf;
  }

  lemma {:induction false} RunGrown(rule: Rule, s: State, es: seq<Event>)
    requires Intact(s)
    ensures Grown(s, Run(rule, s, es))
    decreases |es|
  {
    if es != [] {
      hide Grown, Intact, Apply;
      StepIntact(rule, s, es[0]);
      StepGrown(rule, s, es[0]);
      RunGrown(rule, Apply(rule, s, es[0]), es[1..]);
      GrownTrans(s, Apply(rule, s, es[0]), Run(rule, s, es));
    } else {
      SameGrown(s, s);
    }
  }

  lemma StillLayer(s: State, s': State, f: nat, l: nat)
    requires Grown(s, s') && l in s.t.layers
    ensures l in s'.t.layers && s'.t.layers[l] == s.t.layers[l]
    ensures IsLayerOf(s'.t, f, l) <==> IsLayerOf(s.t, f, l)
  {
    assert Kept(s, s', l);
    hide Kept;
  }

  /** New layers have ids above those there were. */
  lemma NoneBelow(s: State, s': State, f: nat, top: nat)
    requires Grown(s, s') && top in s.t.layers
    ensures forall l :: 0 < l <= top && IsLayerOf(s'.t, f, l) ==> l in s.t.layers
  {
    hide Kept;
  }

  /** Rows and pieces up to a bound below which the file gained no layer. */
  lemma GrownLog(s: State, s': State, fileId: nat, top: nat)
    requires Intact(s) && Grown(s, s')
    requires forall l :: 0 < l <= top && IsLayerOf(s'.t, fileId, l) ==> l in s.t.layers
    ensures FileRows(s'.t, fileId, top) == FileRows(s.t, fileId, top)
    ensures CommittedLog(s'.t, s'.objects, fileId, top) == CommittedLog(s.t, s.objects, fileId, top)
  {
    hide StageOk, RemovalOk, MemOk, HeadsOk, KeysOk, FilesOk, RowsOk, Slice;
    FileRowsFrame(s.t, s'.t, fileId, top);
    var rows := FileRows(s.t, fileId, top);
    forall i | 0 <= i < |rows|
      ensures RowPiece(s'.t, s'.objects, rows[i]) == RowPiece(s.t, s.objects, rows[i])
    {
      assert rows[i] in rows;
      FileRowsIn(s.t, fileId, top, rows[i]);
    }
  }

  /** A read that meets the same rows, and the same active layer if any, answers the same in a grown state. */
  lemma SameRowsRead(s: State, s': State, layer: Layer, layer': Layer, spare: seq<byte>, spare': seq<byte>,
                     faults: set<Call>, fileId: nat, bound: nat, offset: nat, size: nat)
    requires Intact(s) && Grown(s, s')
    requires FileRows(s'.t, fileId, Top(s'.t, bound)) == FileRows(s.t, fileId, Top(s.t, bound))
    requires bound == 0 ==> layer' == layer && spare' == spare && WellMatched(layer)
    ensures ReadBelow(s'.t, s'.objects, layer', spare', faults, fileId, bound, offset, size)
         == ReadBelow(s.t, s.objects, layer, spare, faults, fileId, bound, offset, size)
  {
    hide StageOk, RemovalOk, MemOk, HeadsOk, KeysOk, FilesOk, Assemble, ActiveOverlapping, FileRows, SelectOverlapping,
         RowsOf, FetchActive;
    var range := Range(offset, offset + size);
    var rows := FileRows(s.t, fileId, Top(s.t, bound));
    var sel := Selected(s.t, layer, fileId, bound, range);
    assert Selected(s'.t, layer', fileId, bound, range) == sel;
    var a := FetchAll(s.t, s.objects, layer, spare, faults, sel);
    var b := FetchAll(s'.t, s'.objects, layer', spare', faults, sel);
    forall i | 0 <= i < |sel| ensures a[i] == b[i] {
      if i < |OverlappingRows(s.t, fileId, bound, range)| {
        var row := OverlappingRows(s.t, fileId, bound, range)[i];
        SelectedIn(rows, range, row);
        FileRowsIn(s.t, fileId, Top(s.t, bound), row);
        assert Kept(s, s', row.layerId);
      } else {
        ActiveSelected(layer.chunks, range, sel[i]);
      }
    }
    assert a == b;
  }

  /** A read below a committed version fetches the same bytes, or fails the same way, for ever. */
  lemma PinnedReadFrozen(s: State, s': State, layer: Layer, layer': Layer, spare: seq<byte>, spare': seq<byte>,
                         faults: set<Call>, fileId: nat, l: nat, offset: nat, size: nat)
    requires Intact(s) && Grown(s, s') && IsLayerOf(s.t, fileId, l)
    ensures ReadBelow(s'.t, s'.objects, layer', spare', faults, fileId, l, offset, size)
         == ReadBelow(s.t, s.objects, layer, spare, faults, fileId, l, offset, size)
  {
    assert l != 0;
    hide Intact, Kept, ReadBelow, FileRows, CommittedLog;
    NoneBelow(s, s', fileId, l);
    GrownLog(s, s', fileId, l);
    SameRowsRead(s, s', layer, layer', spare, spare', faults, fileId, l, offset, size);
  }

  // ---------- Tags ----------

  predicate SameTag(t: Tables, a: LayerRow, b: LayerRow) {
    && a.fileId == b.fileId
    && a.versionId in t.versions && b.versionId in t.versions
    && t.versions[a.versionId] == t.versions[b.versionId]
  }

  /** Within a file, a tag names one layer. */
  ghost predicate UniqueTags(t: Tables) {
    forall l, m :: l in t.layers && m in t.layers && SameTag(t, t.layers[l], t.layers[m]) ==> l == m
  }

  /** The tag of the checkpoint in flight. */
  predicate InFlight(stage: Stage, fileId: nat, tag: string) {
    match stage
    case Versioned(f, _, _, g) => f == fileId && g == tag
    case Uploaded(f, _, g, _) => f == fileId && g == tag
    case Inserting(f, _, g, _, _, _) => f == fileId && g == tag
    case _ => false
  }

  ghost predicate TagsOk(s: State) {
    && UniqueTags(s.t)
    && forall f, tag :: InFlight(s.stage, f, tag) ==> LayersTagged(s.t, f, tag) == {}
  }

  /** A checkpoint about to start brings a tag the file has not used; the WAL manager draws a UUID. */
  ghost predicate FreshTag(s: State, e: Event) {
    match e
    case Checkpoint(name, tag, _) => name in s.t.files ==> LayersTagged(s.t, s.t.files[name], tag) == {}
    case FlushForRemoval(tag, _) =>
      s.removal.Asked? && GetDBFilename(s.removal.wal) in s.t.files ==>
        LayersTagged(s.t, s.t.files[GetDBFilename(s.removal.wal)], tag) == {}
    case _ => true
  }

  /** A commit keeps tags unambiguous exactly when its tag was unused for the file. */
  lemma CommitTagExact(s: State, reply: CommitReply)
    requires Intact(s) && UniqueTags(s.t) && StepCommit(s, reply).t != s.t
    ensures UniqueTags(StepCommit(s, reply).t) <==> LayersTagged(s.t, s.stage.fileId, s.stage.tag) == {}
    ensures LayersTagged(StepCommit(s, reply).t, s.stage.fileId, s.stage.tag)
         == LayersTagged(s.t, s.stage.fileId, s.stage.tag) + {s.stage.layerId}
  {
    hide RemovalOk, MemOk, HeadsOk, KeysOk, FilesOk, RowsOk, LayersOk;
    var t' := StepCommit(s, reply).t;
    var before := LayersTagged(s.t, s.stage.fileId, s.stage.tag);
    var row := LayerRow(s.stage.fileId, s.stage.versionId, s.stage.key);
    assert t' == Committing(s) && t'.layers[s.stage.layerId] == row && t'.versions[row.versionId] == s.stage.tag;
    assert row.versionId !in s.t.versions && s.stage.layerId !in s.t.layers;
    forall l | l in s.t.layers
      ensures t'.layers[l] == s.t.layers[l]
      ensures l in before <==> SameTag(t', t'.layers[l], row)
      ensures l in before <==> l in LayersTagged(t', s.stage.fileId, s.stage.tag)
    {
      LayerVersionKnown(s, l);
    }
    assert LayersTagged(t', s.stage.fileId, s.stage.tag) == before + {s.stage.layerId};
    forall l, m | l in s.t.layers && m in s.t.layers
      ensures SameTag(t', t'.layers[l], t'.layers[m]) <==> SameTag(s.t, s.t.layers[l], s.t.layers[m])
    {
      LayerVersionKnown(s, l);
      LayerVersionKnown(s, m);
    }
    if before != {} {
      var l :| l in before;
      assert l in t'.layers && s.stage.layerId in t'.layers && l != s.stage.layerId;
      assert SameTag(t', t'.layers[l], t'.layers[s.stage.layerId]);
    }
  }

  lemma LayerVersionKnown(s: State, l: nat)
    requires Intact(s) && l in s.t.layers
    ensures s.t.layers[l].versionId in s.t.versions
  {
  }

  lemma FlightShape(rule: Rule, s: State, e: Event, f: nat, tag: string)
    requires FreshTag(s, e) && InFlight(Apply(rule, s, e).stage, f, tag)
    ensures InFlight(s.stage, f, tag) || LayersTagged(s.t, f, tag) == {}
  {
    hide LayersTagged, HeadVersion, ObjectKey, Excluded, WriteTo, HasEmptyRange, RowsOf, GetDBFilename;
  }

  lemma CommitTags(s: State, reply: CommitReply)
    requires Intact(s) && TagsOk(s) && StepCommit(s, reply).t != s.t
    ensures TagsOk(StepCommit(s, reply))
  {
    assert InFlight(s.stage, s.stage.fileId, s.stage.tag);
    hide Intact, UniqueTags, LayersTagged;
    CommitTagExact(s, reply);
  }

  /** Steps that leave layers and versions alone. */
  lemma TagsStay(rule: Rule, s: State, e: Event)
    requires TagsOk(s) && FreshTag(s, e)
    requires Apply(rule, s, e).t.layers == s.t.layers && Apply(rule, s, e).t.versions == s.t.versions
    ensures TagsOk(Apply(rule, s, e))
  {
    var s' := Apply(rule, s, e);
    hide UniqueTags, Apply, FreshTag, InFlight;
    TagsFrame(s.t, s'.t);
    forall f, tag | InFlight(s'.stage, f, tag) ensures LayersTagged(s'.t, f, tag) == {} {
      FlightShape(rule, s, e, f, tag);
      assert LayersTagged(s'.t, f, tag) == LayersTagged(s.t, f, tag);
    }
  }

  lemma StepTags(rule: Rule, s: State, e: Event)
    requires Intact(s) && TagsOk(s) && FreshTag(s, e)
    ensures TagsOk(Apply(rule, s, e))
  {
    assert e.Commit? ==> Apply(rule, s, e) == StepCommit(s, e.reply);
    hide Intact, TagsOk, Apply, StepCommit, FreshTag;
    if e.Commit? && Apply(rule, s, e).t != s.t {
      CommitTags(s, e.reply);
    } else {
      if !e.Commit? {
        TablesUnlessCommit(rule, s, e);
      }
      TagsStay(rule, s, e);
    }
  }

  lemma TagsFrame(t: Tables, t': Tables)
    requires UniqueTags(t) && t'.layers == t.layers && t'.versions == t.versions
    ensures UniqueTags(t')
  {
  }

  ghost predicate FreshTags(rule: Rule, s: State, es: seq<Event>)
    decreases |es|
  {
    es != [] ==> FreshTag(s, es[0]) && FreshTags(rule, Apply(rule, s, es[0]), es[1..])
  }

  lemma {:induction false} RunTags(rule: Rule, s: State, es: seq<Event>)
    requires Intact(s) && TagsOk(s) && FreshTags(rule, s, es)
    ensures TagsOk(Run(rule, s, es))
    decreases |es|
  {
    if es != [] {
      hide Intact, TagsOk, Apply, FreshTag;
      StepIntact(rule, s, es[0]);
      StepTags(rule, s, es[0]);
      RunTags(rule, Apply(rule, s, es[0]), es[1..]);
    }
  }

  /**
   Time travel over whole runs: once a version is committed, its tag resolves to its layer and the
   read below that layer is the same, whatever happens later and whichever heads are moved.
   */
  lemma TimeTravelStable(rule: Rule, s: State, es: seq<Event>, layer: Layer, layer': Layer, spare: seq<byte>,
                         spare': seq<byte>, faults: set<Call>, fileId: nat, l: nat, offset: nat, size: nat)
    requires Intact(s) && TagsOk(s) && FreshTags(rule, s, es)
    requires IsLayerOf(s.t, fileId, l)
    ensures var s' := Run(rule, s, es);
            && LayersTagged(s'.t, fileId, s.t.versions[s.t.layers[l].versionId]) == {l}
            && ReadBelow(s'.t, s'.objects, layer', spare', faults, fileId, l, offset, size)
            == ReadBelow(s.t, s.objects, layer, spare, faults, fileId, l, offset, size)
  {
    var s' := Run(rule, s, es);
    RunGrown(rule, s, es);
    RunIntact(rule, s, es);
    RunTags(rule, s, es);
    PinnedReadFrozen(s, s', layer, layer', spare, spare', faults, fileId, l, offset, size);
    hide ReadBelow, Run, FreshTags, StageOk, RemovalOk, MemOk, HeadsOk, KeysOk, FilesOk, RowsOk;
    var tag := s.t.versions[s.t.layers[l].versionId];
    assert l in LayersTagged(s'.t, fileId, tag);
    forall m | m in LayersTagged(s'.t, fileId, tag) ensures m == l {
    }
  }
}
