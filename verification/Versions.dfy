/**
 Versions, from the commit to the read: what a commit records is what a head on that version reads, after
 any run whatever with fresh tags.  Later writes may be unsafe, checkpoints may fail, the process may crash.
 */
module Versions {
  import opened FlatFile
  import opened Overlay
  import opened Layers
  import opened Tables
  import opened Reads
  import opened Machine
  import opened TimeTravel
  import opened Stored
  import opened Isolation
  import opened Atomicity
  import opened Refinement
  import opened Consequences

  // ---------- What a version holds ----------

  /** The contents of a file up to layer `l`. */
  function VersionContents(s: State, f: nat, l: nat): seq<byte> {
    Contents(CommittedLog(s.t, s.objects, f, l))
  }

  /** The version's rows lie within their objects and leave no hole. */
  ghost predicate VersionOk(s: State, f: nat, l: nat) {
    IsLayerOf(s.t, f, l) && l != 0 && ReadSound(s.t, s.objects, EMPTY_LAYER, f, l)
  }

  lemma AnyLayerSound(t: Tables, objects: Objects, layer: Layer, f: nat, l: nat)
    requires l != 0
    ensures ReadSound(t, objects, layer, f, l) <==> ReadSound(t, objects, EMPTY_LAYER, f, l)
    ensures ReadLog(t, objects, layer, f, l) == CommittedLog(t, objects, f, l)
  {
    hide FileRows, RowSound, Contiguous, RowPieces, Tiled;
    assert ReadLog(t, objects, layer, f, l) == ReadLog(t, objects, EMPTY_LAYER, f, l);
  }

  /** A version is a prefix of the file's committed pieces. */
  lemma VersionPrefix(s: State, f: nat, l: nat)
    requires Intact(s) && IsLayerOf(s.t, f, l)
    ensures CommittedLog(s.t, s.objects, f, l) <= Base(s, f)
    ensures 0 < l <= s.t.lastLayer
  {
    hide HeadsOk, KeysOk, MemOk, StageOk, RemovalOk, RowPiece, RowsOk;
    FileRowsPrefix(s.t, f, l, s.t.lastLayer);
  }

  /** Of a file that refines its history, every version is sound and holds what was recorded at its commit. */
  lemma RefinesVersions(s: State, g: Books, f: nat, l: nat)
    requires RefinesAt(s, g, f) && IsLayerOf(s.t, f, l)
    ensures VersionOk(s, f, l)
    ensures l in g.snaps && VersionContents(s, f, l) == g.snaps[l]
  {
    hide Intact, RowsSound, Tiled, Contiguous, Contents, Replay, FileRows, RowSound, CommittedLog, ActiveLog, IsLayerOf;
    VersionPrefix(s, f, l);
    RowsReady(s, f, l);
    var prefix := CommittedLog(s.t, s.objects, f, l);
    var rest := Base(s, f)[|prefix|..] + ActiveLog(Active(s, f));
    assert prefix + rest == Base(s, f) + ActiveLog(Active(s, f));
    ContiguousPrefix(prefix, rest);
    assert ReadLog(s.t, s.objects, EMPTY_LAYER, f, l) == prefix;
  }

  lemma VersionOkKept(s: State, s': State, f: nat, l: nat)
    requires Intact(s) && Grown(s, s') && IsLayerOf(s.t, f, l)
    ensures IsLayerOf(s'.t, f, l) && s'.t.layers[l] == s.t.layers[l]
    ensures VersionContents(s', f, l) == VersionContents(s, f, l)
    ensures VersionOk(s, f, l) ==> VersionOk(s', f, l)
  {
    hide Intact, Contents, Contiguous, Tiled, FileRows, RowPieces, Kept, RowSound;
    StillLayer(s, s', f, l);
    NoneBelow(s, s', f, l);
    GrownLog(s, s', f, l);
    if VersionOk(s, f, l) {
      var rows := FileRows(s.t, f, l);
      forall i | 0 <= i < |rows|
        ensures RowSound(s'.t, s'.objects, rows[i])
        ensures rows[i].layerId in s'.t.layers && s'.t.layers[rows[i].layerId].objectKey != ""
      {
        RowKept(s, s', rows[i]);
      }
    }
  }

  lemma RowKept(s: State, s': State, row: ChunkRow)
    requires Grown(s, s') && row.layerId in s.t.layers && RowSound(s.t, s.objects, row)
    ensures RowSound(s'.t, s'.objects, row)
    ensures row.layerId in s'.t.layers && s'.t.layers[row.layerId] == s.t.layers[row.layerId]
  {
    assert Kept(s, s', row.layerId);
    hide RowsOf;
  }

  /** The contents of a version are never revised, over every run. */
  lemma VersionContentsFrozen(rule: Rule, s: State, es: seq<Event>, f: nat, l: nat)
    requires Intact(s) && IsLayerOf(s.t, f, l)
    ensures var s' := Run(rule, s, es);
            && IsLayerOf(s'.t, f, l) && s'.t.layers[l] == s.t.layers[l]
            && VersionContents(s', f, l) == VersionContents(s, f, l)
            && (VersionOk(s, f, l) ==> VersionOk(s', f, l))
  {
    hide Intact, Run, VersionContents, VersionOk, IsLayerOf;
    RunGrown(rule, s, es);
    VersionOkKept(s, Run(rule, s, es), f, l);
  }

  // ---------- Heads ----------

  /** The layer of the version a file's head names. */
  ghost predicate HeadLayer(t: Tables, f: nat, l: nat) {
    IsLayerOf(t, f, l) && f in t.heads && t.layers[l].versionId == t.heads[f]
  }

  /** The tag query for the file's head may hand over layer `pick`. */
  ghost predicate MayPick(t: Tables, f: nat, pick: nat) {
    HeadVersion(t, f).Some? && pick in LayersTagged(t, f, HeadVersion(t, f).value.1)
  }

  /** No head dangles: it names one layer, of the same file, and its tag query can find it. */
  lemma HeadResolves(s: State, f: nat)
    requires Intact(s) && f in s.t.heads
    ensures exists l :: HeadLayer(s.t, f, l) && MayPick(s.t, f, l) && forall m :: HeadLayer(s.t, f, m) ==> m == l
  {
    hide FilesOk, RowsOk, KeysOk, MemOk, StageOk, RemovalOk;
    var l :| IsLayerOf(s.t, f, l) && s.t.layers[l].versionId == s.t.heads[f];
    assert HeadLayer(s.t, f, l) && MayPick(s.t, f, l);
  }

  /** With unambiguous tags, resolving the head's tag leads back to the head's own layer. */
  lemma PickIsHead(s: State, f: nat, l: nat, pick: nat)
    requires Intact(s) && TagsOk(s) && HeadLayer(s.t, f, l)
    requires MayPick(s.t, f, pick)
    ensures pick == l != 0
  {
    hide HeadsOk, KeysOk, MemOk, StageOk, RemovalOk, RowsOk;
    assert SameTag(s.t, s.t.layers[pick], s.t.layers[l]);
  }

  /** A read with a head answers the window of that version's contents, with the same exceptions as ever. */
  lemma PinnedRead(s: State, name: string, l: nat, pick: nat, spare: seq<byte>, offset: nat, size: nat)
    requires Intact(s) && TagsOk(s) && name in s.t.files && HeadLayer(s.t, s.t.files[name], l)
    requires MayPick(s.t, s.t.files[name], pick)
    requires VersionOk(s, s.t.files[name], l) && offset + size < 0x8000_0000_0000_0000
    ensures var f := s.t.files[name];
            var sel := Selected(s.t, Active(s, f), f, l, Range(offset, offset + size));
            && ReadFile(s.t, s.objects, s.memtable, name, pick, spare, {}, offset, size)
               == SoundReply(sel, VersionContents(s, f, l), offset, size)
            && (size > 0 ==> (sel != [] <==> offset < |VersionContents(s, f, l)|))
  {
    hide Intact, TagsOk, ReadSound, SoundReply, Selected, Contents, ReadLog, ReadBelow, CommittedLog, HeadVersion,
         HasEmptyRange, HeadLayer;
    var f := s.t.files[name];
    PickIsHead(s, f, l, pick);
    VersionNotEmpty(s, f, l);
    AnyLayerSound(s.t, s.objects, Active(s, f), f, l);
    ReadExact(s.t, s.objects, Active(s, f), spare, f, l, offset, size);
  }

  lemma VersionNotEmpty(s: State, f: nat, l: nat)
    requires VersionOk(s, f, l)
    ensures !HasEmptyRange(RowsOf(s.t.chunks, l))
  {
    hide RowsOf, FileRows, Contiguous;
    var rows := RowsOf(s.t.chunks, l);
    forall i | 0 <= i < |rows| ensures !rows[i].fileRange.IsEmpty() {
      assert rows[i] in rows;
      RowsOfIn(s.t.chunks, l, rows[i]);
      FileRowsIn(s.t, f, l, rows[i]);
      var k :| 0 <= k < |FileRows(s.t, f, l)| && FileRows(s.t, f, l)[k] == rows[i];
    }
  }

  /** Setting the head to a version's tag pins that version: its layer, and no other, is read. */
  lemma SetHeadPins(rule: Rule, s: State, name: string, tag: string, l: nat)
    requires Intact(s) && TagsOk(s) && name in s.t.files && l in LayersTagged(s.t, s.t.files[name], tag)
    requires VersionOk(s, s.t.files[name], l)
    ensures var f := s.t.files[name];
            var s' := Apply(rule, s, SetHead(name, tag, l));
            && HeadLayer(s'.t, f, l)
            && HeadVersion(s'.t, f) == Some((s.t.layers[l].versionId, tag))
            && forall pick :: MayPick(s'.t, f, pick) <==> pick == l
  {
    hide HasEmptyRange, RowsOf, Intact, UniqueTags, HeadVersion, VersionOk;
    VersionNotEmpty(s, s.t.files[name], l);
    SetHeadShape(s.t, name, tag, l);
    forall pick | pick in LayersTagged(s.t, s.t.files[name], tag) ensures pick == l {
      OneLayerPerTag(s.t, s.t.files[name], tag, pick, l);
    }
  }

  lemma SetHeadShape(t: Tables, name: string, tag: string, l: nat)
    requires name in t.files && l in LayersTagged(t, t.files[name], tag) && !HasEmptyRange(RowsOf(t.chunks, l))
    ensures var t' := StepSetHead(t, name, tag, l);
            && HeadLayer(t', t.files[name], l)
            && HeadVersion(t', t.files[name]) == Some((t.layers[l].versionId, tag))
            && forall pick :: MayPick(t', t.files[name], pick) <==> pick in LayersTagged(t, t.files[name], tag)
  {
    hide HasEmptyRange, RowsOf;
    var t' := StepSetHead(t, name, tag, l);
    assert LayersTagged(t', t.files[name], tag) == LayersTagged(t, t.files[name], tag);
  }

  lemma OneLayerPerTag(t: Tables, f: nat, tag: string, l: nat, m: nat)
    requires UniqueTags(t) && l in LayersTagged(t, f, tag) && m in LayersTagged(t, f, tag)
    ensures l == m
  {
    assert SameTag(t, t.layers[l], t.layers[m]);
  }

  // ---------- The commit ----------

  lemma CommitTagged(s: State)
    requires s.stage.Inserting?
    ensures s.stage.layerId in LayersTagged(Committing(s), s.stage.fileId, s.stage.tag)
  {
  }

  /** After its commit the version has its tag, and its contents are the file's latest. */
  lemma CommitPoint(rule: Rule, s: State, g: Books, e: Event)
    requires Commits(s, e) && RefinesAt(s, g, s.stage.fileId) && TagsOk(s)
    ensures var s', f, l := Apply(rule, s, e), s.stage.fileId, s.stage.layerId;
            && Intact(s') && TagsOk(s') && s'.t.files == s.t.files
            && l in LayersTagged(s'.t, f, s.stage.tag)
            && VersionOk(s', f, l) && VersionContents(s', f, l) == Latest(s, f)
  {
    assert Intact(s) && FreshTag(s, e) && Apply(rule, s, e) == StepCommit(s, e.reply);
    hide FileOk, Intact, TagsOk, Apply, Track, StepCommit, Latest, FreshTag, LayersTagged, VersionOk, Holds, Commits,
         VersionContents;
    CommitShape(s, e);
    CommitTagged(s);
    CommitHolds(s, e);
    CommitRefines(rule, s, g, e);
    StepTags(rule, s, e);
    HoldsLayer(Apply(rule, s, e), s.stage.fileId, s.stage.layerId, Active(s, s.stage.fileId));
    RefinesVersions(Apply(rule, s, e), Track(rule, g, s, e), s.stage.fileId, s.stage.layerId);
  }

  lemma HoldsLayer(s: State, f: nat, l: nat, layer: Layer)
    requires Holds(s, f, l, layer)
    ensures IsLayerOf(s.t, f, l)
  {
  }

  // ---------- Runs ----------

  /** Over every run with fresh tags a tagged layer keeps its tag, alone, and its contents. */
  lemma VersionKept(rule: Rule, s: State, es: seq<Event>, f: nat, tag: string, l: nat)
    requires Intact(s) && TagsOk(s) && FreshTags(rule, s, es)
    requires l in LayersTagged(s.t, f, tag)
    ensures var s' := Run(rule, s, es);
            && Intact(s') && TagsOk(s')
            && LayersTagged(s'.t, f, tag) == {l}
            && s'.t.layers[l] == s.t.layers[l]
            && VersionContents(s', f, l) == VersionContents(s, f, l)
            && (VersionOk(s, f, l) ==> VersionOk(s', f, l))
  {
    var s' := Run(rule, s, es);
    assert IsLayerOf(s.t, f, l);
    hide Intact, Run, FreshTags, TagsOk, VersionContents, VersionOk, LayersTagged, Grown;
    VersionContentsFrozen(rule, s, es, f, l);
    RunTags(rule, s, es);
    RunIntact(rule, s, es);
    RunGrown(rule, s, es);
    StillTagged(s, s', f, tag, l);
    OnlyTagged(s', f, tag, l);
  }

  lemma OnlyTagged(s: State, f: nat, tag: string, l: nat)
    requires TagsOk(s) && l in LayersTagged(s.t, f, tag)
    ensures LayersTagged(s.t, f, tag) == {l}
  {
    hide LayersTagged, UniqueTags;
    forall m | m in LayersTagged(s.t, f, tag) ensures m == l {
      OneLayerPerTag(s.t, f, tag, m, l);
    }
  }

  lemma StillTagged(s: State, s': State, f: nat, tag: string, l: nat)
    requires Grown(s, s') && l in LayersTagged(s.t, f, tag)
    ensures l in LayersTagged(s'.t, f, tag)
  {
    assert Kept(s, s', l);
    hide RowsOf;
  }

  predicate MovesHead(s: State, e: Event, f: nat) {
    (e.SetHead? || e.DeleteHead?) && e.name in s.t.files && s.t.files[e.name] == f
  }

  ghost predicate HeadLeft(rule: Rule, s: State, es: seq<Event>, f: nat)
    decreases |es|
  {
    es != [] ==> !MovesHead(s, es[0], f) && HeadLeft(rule, Apply(rule, s, es[0]), es[1..], f)
  }

  lemma {:induction false} HeadRun(rule: Rule, s: State, es: seq<Event>, f: nat)
    requires Intact(s) && f in s.t.heads && HeadLeft(rule, s, es, f)
    ensures f in Run(rule, s, es).t.heads && Run(rule, s, es).t.heads[f] == s.t.heads[f]
    decreases |es|
  {
    if es != [] {
      hide Intact, Apply;
      StepIntact(rule, s, es[0]);
      HeadIsolated(rule, s, es[0], f);
      HeadRun(rule, Apply(rule, s, es[0]), es[1..], f);
    }
  }

  // ---------- The head ----------

  /** The head goes to the tag's one layer, and nothing else of the state changes. */
  lemma PinPoint(rule: Rule, s: State, name: string, tag: string, l: nat)
    requires Intact(s) && TagsOk(s) && name in s.t.files && LayersTagged(s.t, s.t.files[name], tag) == {l}
    requires VersionOk(s, s.t.files[name], l)
    ensures var s', f := Apply(rule, s, SetHead(name, tag, l)), s.t.files[name];
            && Intact(s') && TagsOk(s') && s'.t.files == s.t.files
            && LayersTagged(s'.t, f, tag) == {l} && HeadLayer(s'.t, f, l)
            && VersionOk(s', f, l) && VersionContents(s', f, l) == VersionContents(s, f, l)
  {
    var pin := SetHead(name, tag, l);
    assert FreshTag(s, pin);
    assert l in LayersTagged(s.t, s.t.files[name], tag);
    PinShape(rule, s, pin);
    assert LayersTagged(Apply(rule, s, pin).t, s.t.files[name], tag) == LayersTagged(s.t, s.t.files[name], tag);
    hide Intact, TagsOk, Apply, FreshTag, VersionOk, VersionContents, HeadLayer, MayPick;
    StepIntact(rule, s, pin);
    StepTags(rule, s, pin);
    StepGrown(rule, s, pin);
    VersionOkKept(s, Apply(rule, s, pin), s.t.files[name], l);
    SetHeadPins(rule, s, name, tag, l);
  }

  lemma PinShape(rule: Rule, s: State, e: Event)
    requires e.SetHead?
    ensures Apply(rule, s, e).t == s.t.(heads := Apply(rule, s, e).t.heads)
  {
  }

  /** A head that was left alone still names the same layer. */
  lemma HeadStays(rule: Rule, s: State, es: seq<Event>, f: nat, l: nat)
    requires Intact(s) && HeadLayer(s.t, f, l) && HeadLeft(rule, s, es, f)
    ensures HeadLayer(Run(rule, s, es).t, f, l)
  {
    hide Intact, Run, HeadLeft;
    RunGrown(rule, s, es);
    StillLayer(s, Run(rule, s, es), f, l);
    HeadRun(rule, s, es, f);
  }

  // ---------- From the commit to the read ----------

  /**
   Time travel, over every run of the shipped code with fresh tags: commit a file that refines its
   history; run anything, set the head to the commit's tag, and run anything that leaves the head alone.
   Whichever layer the database hands over for the tag, it is the committed one, and a read answers the
   window of the contents at the commit.
   */
  lemma CommittedVersionReads(rule: Rule, s: State, g: Books, e: Event, es: seq<Event>, name: string, l: nat,
                              es': seq<Event>, pick: nat, spare: seq<byte>, offset: nat, size: nat)
    requires Commits(s, e) && RefinesAt(s, g, s.stage.fileId) && TagsOk(s)
    requires name in s.t.files && s.t.files[name] == s.stage.fileId && offset + size < 0x8000_0000_0000_0000
    requires var s1 := Apply(rule, s, e);
             var s2 := Run(rule, s1, es);
             var s3 := Apply(rule, s2, SetHead(name, s.stage.tag, l));
             && FreshTags(rule, s1, es)
             && l in LayersTagged(s2.t, s.stage.fileId, s.stage.tag)
             && FreshTags(rule, s3, es') && HeadLeft(rule, s3, es', s.stage.fileId)
             && MayPick(Run(rule, s3, es').t, s.stage.fileId, pick)
    ensures var f := s.stage.fileId;
            var s3 := Apply(rule, Run(rule, Apply(rule, s, e), es), SetHead(name, s.stage.tag, l));
            var s4 := Run(rule, s3, es');
            var sel := Selected(s4.t, Active(s4, f), f, l, Range(offset, offset + size));
            && l == pick == s.stage.layerId
            && ReadFile(s4.t, s4.objects, s4.memtable, name, pick, spare, {}, offset, size)
               == SoundReply(sel, Latest(s, f), offset, size)
            && (size > 0 ==> (sel != [] <==> offset < |Latest(s, f)|))
  {
    var f, tag, id := s.stage.fileId, s.stage.tag, s.stage.layerId;
    hide RefinesAt, TagsOk, Commits, Apply, Run, FreshTags, HeadLeft, LayersTagged, MayPick, HeadLayer, Latest,
         Selected, SoundReply, ReadFile, Intact, VersionOk, VersionContents;
    CommitPoint(rule, s, g, e);
    var s1 := Apply(rule, s, e);
    VersionKept(rule, s1, es, f, tag, id);
    var s2 := Run(rule, s1, es);
    FilesKept(rule, s1, es, name);
    PinPoint(rule, s2, name, tag, l);
    var s3 := Apply(rule, s2, SetHead(name, tag, l));
    VersionKept(rule, s3, es', f, tag, id);
    FilesKept(rule, s3, es', name);
    HeadStays(rule, s3, es', f, id);
    var s4 := Run(rule, s3, es');
    PickIsHead(s4, f, id, pick);
    PinnedRead(s4, name, id, pick, spare, offset, size);
  }

  // ---------- Committed objects ----------

  /** The rows' layer ranges follow one another from 0 to `n`. */
  ghost predicate RowsTile(rows: seq<ChunkRow>, n: nat) {
    if rows == [] then n == 0
    else
      var last := rows[|rows| - 1].layerRange;
      last.lo < last.hi == n && RowsTile(rows[..|rows| - 1], last.lo)
  }

  /** Every layer of the file has an object of exactly the bytes its rows tile. */
  ghost predicate ObjectsTiled(s: State, f: nat) {
    forall l :: IsLayerOf(s.t, f, l) ==> RowsTile(RowsOf(s.t.chunks, l), |ObjectBytes(s.t, s.objects, l)|)
  }

  lemma {:induction false} TiledRows(layer: Layer, layerId: nat, n: nat, end: nat)
    requires n <= |layer.chunks|
    ensures RowsTile(ToRows(layerId, layer.chunks[..n]), end) <==>
            && (forall i :: 0 <= i < n ==> TiledAt(layer.chunks, i))
            && end == if n == 0 then 0 else layer.chunks[n - 1].layerRange.hi
  {
    if n > 0 {
      TiledRows(layer, layerId, n - 1, layer.chunks[n - 1].layerRange.lo);
      assert ToRows(layerId, layer.chunks[..n])[..n - 1] == ToRows(layerId, layer.chunks[..n - 1]);
      assert TiledAt(layer.chunks, n - 1) <==>
             && layer.chunks[n - 1].layerRange.lo == (if n == 1 then 0 else layer.chunks[n - 2].layerRange.hi)
             && layer.chunks[n - 1].layerRange.lo < layer.chunks[n - 1].layerRange.hi;
      if forall i :: 0 <= i < n ==> TiledAt(layer.chunks, i) {
        assert TiledAt(layer.chunks, n - 1);
      }
    }
  }

  lemma RowsTileExact(layer: Layer, layerId: nat)
    requires WellMatched(layer) && layer.size == LayerEnd(layer)
    ensures RowsTile(ToRows(layerId, layer.chunks), |layer.data|) <==> Tiled(layer)
  {
    TiledRows(layer, layerId, |layer.chunks|, |layer.data|);
    assert layer.chunks[..|layer.chunks|] == layer.chunks;
    hide RowsTile;
  }

  lemma HeldTiles(s: State, f: nat, l: nat, layer: Layer)
    requires Holds(s, f, l, layer) && WellMatched(layer) && layer.size == LayerEnd(layer)
    ensures RowsTile(RowsOf(s.t.chunks, l), |ObjectBytes(s.t, s.objects, l)|) <==> Tiled(layer)
  {
    hide RowsTile, Tiled, WellMatched, RowsOf;
    RowsTileExact(layer, l);
  }

  lemma ActiveKnown(s: State, f: nat)
    requires Intact(s)
    ensures WellMatched(Active(s, f)) && Active(s, f).size == LayerEnd(Active(s, f))
  {
  }

  /** What becomes of a committed layer is settled at its commit: its rows tile its object, ever after,
      exactly when the active layer was tiled. */
  lemma ObjectTiledExact(rule: Rule, s: State, e: Event, es: seq<Event>)
    requires Intact(s) && Commits(s, e)
    ensures var s', l := Run(rule, Apply(rule, s, e), es), s.stage.layerId;
            RowsTile(RowsOf(s'.t.chunks, l), |ObjectBytes(s'.t, s'.objects, l)|) <==> Tiled(Active(s, s.stage.fileId))
  {
    var s1, f, l := Apply(rule, s, e), s.stage.fileId, s.stage.layerId;
    assert s1 == StepCommit(s, e.reply);
    hide Intact, Apply, Run, StepCommit, Tiled, WellMatched, RowsTile, RowsOf, Holds, Active, Grown, Commits;
    CommitHolds(s, e);
    StepIntact(rule, s, e);
    RunGrown(rule, s1, es);
    HoldsKept(s1, Run(rule, s1, es), f, l, Active(s, f));
    ActiveKnown(s, f);
    HeldTiles(Run(rule, s1, es), f, l, Active(s, f));
  }

  lemma ObjectsTiledCommit(rule: Rule, s: State, g: Books, e: Event, f: nat)
    requires RefinesAt(s, g, f) && ObjectsTiled(s, f) && Commits(s, e) && s.stage.fileId == f
    ensures ObjectsTiled(Apply(rule, s, e), f)
  {
    var s' := Apply(rule, s, e);
    assert s' == StepCommit(s, e.reply) && Intact(s);
    hide FileOk, Intact, Apply, StepCommit, Tiled, WellMatched, RowsTile, RowsOf, Holds, Active, Commits, Kept,
         ObjectBytes;
    CommitHolds(s, e);
    CommitGrown(s, e.reply);
    ActiveTiled(s, g, f);
    ActiveKnown(s, f);
    HeldTiles(s', f, s.stage.layerId, Active(s, f));
    forall l | IsLayerOf(s'.t, f, l) ensures RowsTile(RowsOf(s'.t.chunks, l), |ObjectBytes(s'.t, s'.objects, l)|) {
      if l != s.stage.layerId {
        TilesKept(s, s', f, l);
      }
    }
  }

  lemma TilesKept(s: State, s': State, f: nat, l: nat)
    requires Grown(s, s') && l in s.t.layers
    ensures IsLayerOf(s.t, f, l) <==> IsLayerOf(s'.t, f, l)
    ensures RowsOf(s'.t.chunks, l) == RowsOf(s.t.chunks, l)
    ensures ObjectBytes(s'.t, s'.objects, l) == ObjectBytes(s.t, s.objects, l)
  {
    assert Kept(s, s', l);
    hide RowsOf;
  }

  lemma SameLayers(rule: Rule, s: State, e: Event, f: nat)
    requires Intact(s) && !(Commits(s, e) && s.stage.fileId == f)
    ensures forall l :: IsLayerOf(Apply(rule, s, e).t, f, l) <==> IsLayerOf(s.t, f, l)
  {
    if !e.Commit? {
      hide Intact, Apply;
      TablesUnlessCommit(rule, s, e);
    } else if !Commits(s, e) {
      hide Intact, StepCommit;
      IdleCommit(s, e);
    } else {
      hide Intact, Apply, IsLayerOf;
      StepIsolated(rule, s, e, f);
    }
  }

  lemma ObjectsTiledStep(rule: Rule, s: State, g: Books, e: Event, f: nat)
    requires RefinesAt(s, g, f) && ObjectsTiled(s, f)
    ensures ObjectsTiled(Apply(rule, s, e), f)
  {
    assert Intact(s);
    hide RefinesAt, Intact, Apply, RowsTile, RowsOf, Kept, Commits, ObjectBytes;
    if Commits(s, e) && s.stage.fileId == f {
      ObjectsTiledCommit(rule, s, g, e, f);
    } else {
      var s' := Apply(rule, s, e);
      StepGrown(rule, s, e);
      SameLayers(rule, s, e, f);
      forall l | IsLayerOf(s'.t, f, l) ensures RowsTile(RowsOf(s'.t.chunks, l), |ObjectBytes(s'.t, s'.objects, l)|) {
        TilesKept(s, s', f, l);
      }
    }
  }

  /** Over every run whose writes to the file are safe, all its objects are tiled. */
  lemma {:induction false} ObjectsTiledRun(rule: Rule, s: State, g: Books, es: seq<Event>, f: nat)
    requires RefinesAt(s, g, f) && ObjectsTiled(s, f) && SafeRunFor(rule, s, es, f)
    ensures ObjectsTiled(Run(rule, s, es), f)
    decreases |es|
  {
    if es != [] {
      hide FileOk, Intact, ObjectsTiled, Apply, Track, SafeFor;
      FileStepExact(rule, s, g, es[0], f);
      ObjectsTiledStep(rule, s, g, es[0], f);
      ObjectsTiledRun(rule, Apply(rule, s, es[0]), Track(rule, g, s, es[0]), es[1..], f);
    }
  }
}
