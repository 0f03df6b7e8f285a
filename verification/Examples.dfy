/**
 The defects as they show: runs of the shipped code from the empty system that end in a read of the
 wrong bytes.
 */
module Examples {
  import opened FlatFile
  import opened Overlay
  import opened Layers
  import opened Tables
  import opened Reads
  import opened Machine
  import opened Stored
  import opened Consequences
  import opened CheckpointRun
  import opened Defects

  // ---------- One file, written in turn ----------

  function WriteOf(op: WriteOp): Event {
    WriteFile("f", op.offset, op.data, {})
  }

  function WritesOf(ops: seq<WriteOp>): seq<Event> {
    seq(|ops|, i requires 0 <= i < |ops| => WriteOf(ops[i]))
  }

  /** Idle, and "f" is file 1, without a head. */
  predicate Ready(s: State) {
    s.stage.Idle? && s.t.files == map["f" := 1] && s.t.heads == map[] && s.removal.NoRemoval?
  }

  lemma Opened()
    ensures Ready(Run(Shipped, INITIAL, [InsertFile("f")]))
    ensures var s := Run(Shipped, INITIAL, [InsertFile("f")]);
            && Intact(s) && Active(s, 1) == EMPTY_LAYER && AllRows(s, 1) == []
            && s.t.lastLayer == 0 && s.t.lastVersion == 0
            && s.t == EMPTY_TABLES.(files := map["f" := 1], lastFile := 1)
  {
    var e := InsertFile("f");
    assert [e][1..] == [];
    assert Intact(INITIAL);
    RunIntact(Shipped, INITIAL, [e]);
    assert Run(Shipped, INITIAL, [e]) == Apply(Shipped, INITIAL, e);
  }

  /** The size a write finds: that of the layer, or of the committed rows below an empty one. */
  function SizeFound(s: State, layer: Layer): nat {
    if layer.chunks != [] then ChunkEnd(layer.chunks) else RowsEnd(AllRows(s, 1))
  }

  function AfterWrite(s: State, layer: Layer, op: WriteOp): Layer {
    LayerWrite(Shipped, layer, SizeFound(s, layer), op.offset, op.data)
  }

  lemma WriteReady(s: State, op: WriteOp)
    requires Ready(s) && !HasEmptyRange(AllRows(s, 1))
    ensures var s' := Apply(Shipped, s, WriteOf(op));
            && s' == s.(memtable := s'.memtable) && Ready(s')
            && Active(s', 1) == AfterWrite(s, Active(s, 1), op)
  {
    hide LayerWrite, FileRows, HasEmptyRange;
    assert HeadVersion(s.t, 1).None?;
  }

  lemma RunOf(s: State, e: Event, es: seq<Event>)
    ensures Run(Shipped, s, [e] + es) == Run(Shipped, Apply(Shipped, s, e), es)
  {
    hide Apply;
    assert ([e] + es)[1..] == es;
  }

  lemma WriteThen(s: State, ops: seq<WriteOp>)
    requires ops != []
    ensures Run(Shipped, s, WritesOf(ops)) == Run(Shipped, Apply(Shipped, s, WriteOf(ops[0])), WritesOf(ops[1..]))
  {
    hide Apply;
    assert WritesOf(ops) == [WriteOf(ops[0])] + WritesOf(ops[1..]);
    RunOf(s, WriteOf(ops[0]), WritesOf(ops[1..]));
  }

  /** Whole runs of writes: everything but the active layer stays. */
  function LayerAfter(s: State, layer: Layer, ops: seq<WriteOp>): Layer
    decreases |ops|
  {
    if ops == [] then layer else LayerAfter(s, AfterWrite(s, layer, ops[0]), ops[1..])
  }

  lemma {:induction false} WritesReady(s: State, ops: seq<WriteOp>)
    requires Ready(s) && !HasEmptyRange(AllRows(s, 1))
    ensures var s' := Run(Shipped, s, WritesOf(ops));
            && s' == s.(memtable := s'.memtable) && Ready(s')
            && Active(s', 1) == LayerAfter(s, Active(s, 1), ops)
    decreases |ops|
  {
    hide Apply, AfterWrite, HasEmptyRange, FileRows;
    if ops == [] {
      assert WritesOf(ops) == [];
    } else {
      var s1 := Apply(Shipped, s, WriteOf(ops[0]));
      WriteThen(s, ops);
      WriteReady(s, ops[0]);
      WritesReady(s1, ops[1..]);
      assert AllRows(s1, 1) == AllRows(s, 1);
      LayerAfterSame(s1, s, Active(s1, 1), ops[1..]);
    }
  }

  lemma {:induction false} LayerAfterSame(s: State, s': State, layer: Layer, ops: seq<WriteOp>)
    requires AllRows(s', 1) == AllRows(s, 1)
    ensures LayerAfter(s', layer, ops) == LayerAfter(s, layer, ops)
    decreases |ops|
  {
    hide FileRows, LayerWrite, ChunkEnd, RowsEnd;
    if ops != [] {
      assert AfterWrite(s', layer, ops[0]) == AfterWrite(s, layer, ops[0]);
      LayerAfterSame(s, s', AfterWrite(s, layer, ops[0]), ops[1..]);
    }
  }

  // ---------- A checkpoint in between ----------

  /** Layer `l` has an object of exactly these bytes. */
  predicate HasObject(s: State, l: nat, data: seq<byte>) {
    && l in s.t.layers && s.t.layers[l].objectKey != "" && s.t.layers[l].objectKey in s.objects
    && s.objects[s.t.layers[l].objectKey] == data
  }

  lemma KeyFits(v: nat)
    requires v < 10
    ensures |ObjectKey("f", 1, v)| <= 255
  {
  }

  lemma FlushReady(s: State, tag: string)
    requires Ready(s) && Intact(s) && 1 in s.memtable && s.memtable[1].data != [] && Disjoint(s.memtable[1].chunks)
    requires s.t.lastVersion < 9
    ensures var s' := Run(Shipped, s, Steps("f", tag, |s.memtable[1].chunks|));
            && s' == Done(s, "f", tag) && Ready(s') && Intact(s')
            && Active(s', 1) == EMPTY_LAYER
            && AllRows(s', 1) == AllRows(s, 1) + ToRows(s.t.lastLayer + 1, s.memtable[1].chunks)
            && s'.t.lastVersion == s.t.lastVersion + 1 && s'.t.lastLayer == s.t.lastLayer + 1
            && HasObject(s', s'.t.lastLayer, s.memtable[1].data)
  {
    assert HeadVersion(s.t, 1).None?;
    KeyFits(s.t.lastVersion + 1);
    assert Ready(Done(s, "f", tag)) && Active(Done(s, "f", tag), 1) == EMPTY_LAYER;
    assert HasObject(Done(s, "f", tag), s.t.lastLayer + 1, s.memtable[1].data);
    hide Intact, ObjectKey, HeadVersion, Disjoint, FileRows, Run, Steps;
    CheckpointSucceeds(Shipped, s, "f", tag);
    DoneRows(s, "f", tag);
    RunIntact(Shipped, s, Steps("f", tag, |s.memtable[1].chunks|));
  }

  /** A file made of these bytes, committed. */
  function CommittedFile(data: seq<byte>): seq<Event> {
    [InsertFile("f")] + (WritesOf([WriteOp(0, data)]) + Steps("f", "v1", 1))
  }

  lemma OneRowEnd(rows: seq<ChunkRow>)
    requires |rows| == 1
    ensures RowsEnd(rows) == rows[0].fileRange.hi
  {
    assert rows[..0] == [];
  }

  lemma OneAfter(s: State, op: WriteOp)
    requires AllRows(s, 1) == [] && op.offset == 0
    ensures LayerAfter(s, EMPTY_LAYER, [op]) ==
              Layer([Chunk(0, false, Range(0, |op.data|), Range(0, |op.data|))], op.data, |op.data|)
  {
    assert [op][1..] == [];
    assert LayerAfter(s, EMPTY_LAYER, [op]) == AfterWrite(s, EMPTY_LAYER, op);
  }

  lemma CommittedState(data: seq<byte>)
    requires data != []
    ensures var s := Run(Shipped, INITIAL, CommittedFile(data));
            && Ready(s) && Intact(s) && Active(s, 1) == EMPTY_LAYER && s.t.lastLayer == 1 && s.t.lastVersion == 1
            && AllRows(s, 1) == [ChunkRow(1, Range(0, |data|), Range(0, |data|))]
            && HasObject(s, 1, data)
  {
    var op, insert := WriteOp(0, data), [InsertFile("f")];
    var s0 := Run(Shipped, INITIAL, insert);
    var s1 := Run(Shipped, s0, WritesOf([op]));
    var chunks := [Chunk(0, false, Range(0, |data|), Range(0, |data|))];
    assert ToRows(1, chunks) == [ChunkRow(1, Range(0, |data|), Range(0, |data|))];
    assert Disjoint(chunks);
    hide Run, FileRows, WritesOf, Intact, Steps, LayerAfter, ToRows, Disjoint, HasObject;
    Opened();
    RunConcat(Shipped, INITIAL, insert, WritesOf([op]) + Steps("f", "v1", 1));
    RunConcat(Shipped, s0, WritesOf([op]), Steps("f", "v1", 1));
    WritesReady(s0, [op]);
    OneAfter(s0, op);
    RunIntact(Shipped, s0, WritesOf([op]));
    assert AllRows(s1, 1) == [];
    FlushReady(s1, "v1");
  }

  // ---------- Reads that meet one chunk ----------

  lemma AssembleOne(c: Chunk, bytes: seq<byte>, offset: nat, size: nat)
    requires size > 0 && |bytes| == size && c.fileRange == Range(offset, offset + size)
    ensures Assemble([c], [Got(bytes)], offset, size) == Bytes(bytes)
  {
    hide Cut;
    assert FetchedPieces([c], [Got(bytes)]) == [Piece(offset, bytes)];
    LastWins([Piece(offset, bytes)], offset, size);
    assert ChunkEnd([c]) == offset + size by { assert [c][..0] == []; }
  }

  lemma ReadyRead(s: State, pick: nat, spare: seq<byte>, offset: nat, size: nat)
    requires Ready(s)
    ensures ReadFile(s.t, s.objects, s.memtable, "f", pick, spare, {}, offset, size)
         == ReadBelow(s.t, s.objects, Active(s, 1), spare, {}, 1, 0, offset, size)
  {
    assert HeadVersion(s.t, 1).None?;
    hide ReadBelow;
  }

  lemma OneChunkRead(s: State, pick: nat, spare: seq<byte>, c: Chunk, bytes: seq<byte>, offset: nat, size: nat)
    requires Ready(s) && size > 0 && offset + size < 0x8000_0000_0000_0000 && |bytes| == size
    requires Selected(s.t, Active(s, 1), 1, 0, Range(offset, offset + size)) == [c]
    requires c.fileRange == Range(offset, offset + size)
    requires Fetch(s.t, s.objects, Active(s, 1), spare, {}, [c], 0) == Got(bytes)
    ensures ReadFile(s.t, s.objects, s.memtable, "f", pick, spare, {}, offset, size) == Bytes(bytes)
  {
    hide Ready, Active, Selected, Fetch, Assemble, ReadFile;
    ReadyRead(s, pick, spare, offset, size);
    var fetched := FetchAll(s.t, s.objects, Active(s, 1), spare, {}, [c]);
    assert fetched == [Got(bytes)];
    AssembleOne(c, bytes, offset, size);
  }

  // ---------- A broken gap, in memory ----------

  /** Three bytes, one overwritten, then a write past the end: the gap's range runs into the first chunk's. */
  lemma BrokenGapExample()
    ensures var one := LayerWrite(Shipped, EMPTY_LAYER, 0, 0, [1, 2, 3]);
            var two := LayerWrite(Shipped, one, 3, 0, [4]);
            var three := LayerWrite(Shipped, two, 3, 5, [6]);
            && Tiled(two) && !Tiled(three)
            && three.chunks[2].layerRange == Range(1, 3)
            && LayerWrite(Documented, two, 3, 5, [6]).chunks[2].layerRange == Range(4, 6)
            && !Disjoint(three.chunks)
  {
    var one := LayerWrite(Shipped, EMPTY_LAYER, 0, 0, [1, 2, 3]);
    var two := LayerWrite(Shipped, one, 3, 0, [4]);
    var three := LayerWrite(Shipped, two, 3, 5, [6]);
    assert one.chunks == [Chunk(0, false, Range(0, 3), Range(0, 3))];
    assert two.chunks == one.chunks + [Chunk(0, false, Range(3, 4), Range(0, 1))];
    assert TiledAt(two.chunks, 0) && TiledAt(two.chunks, 1);
    assert three.chunks == two.chunks +
      [Chunk(0, false, Range(1, 3), Range(3, 5)), Chunk(0, false, Range(3, 4), Range(5, 6))];
    assert !TiledAt(three.chunks, 2);
    assert SqlOverlap(three.chunks[0].layerRange, three.chunks[2].layerRange);
  }

  function GapOps(): seq<WriteOp> {
    [WriteOp(0, [1, 2, 3]), WriteOp(0, [4]), WriteOp(5, [6])]
  }

  lemma GapWrites()
    ensures Write([], 0, [1, 2, 3]) == [1, 2, 3]
    ensures Write([1, 2, 3], 0, [4]) == [4, 2, 3]
    ensures Write([4, 2, 3], 5, [6]) == [4, 2, 3, 0, 0, 6]
  {
  }

  lemma ReplayThree(a: WriteOp, b: WriteOp, c: WriteOp)
    ensures Replay([a, b, c]) == Write(Write(Write([], a.offset, a.data), b.offset, b.data), c.offset, c.data)
  {
    hide Write;
    assert Replay([]) == [];
    hide Replay;
    ReplayAppend([], a);
    ReplayAppend([a], b);
    ReplayAppend([a, b], c);
    assert [a, b, c] == [a, b] + [c] && [a, b] == [a] + [b] && [a] == [] + [a];
  }

  lemma GapFlat()
    ensures Replay(GapOps()) == [4, 2, 3, 0, 0, 6]
  {
    hide Write, Replay;
    GapWrites();
    ReplayThree(WriteOp(0, [1, 2, 3]), WriteOp(0, [4]), WriteOp(5, [6]));
  }

  lemma ThreeAfter(s: State, layer: Layer, a: WriteOp, b: WriteOp, c: WriteOp)
    ensures LayerAfter(s, layer, [a, b, c]) == AfterWrite(s, AfterWrite(s, AfterWrite(s, layer, a), b), c)
  {
    hide AfterWrite;
    assert [a, b, c][1..] == [b, c] && [b, c][1..] == [c] && [c][1..] == [];
    assert LayerAfter(s, AfterWrite(s, AfterWrite(s, layer, a), b), [c])
        == AfterWrite(s, AfterWrite(s, AfterWrite(s, layer, a), b), c);
  }

  lemma GapLayer(s: State)
    requires AllRows(s, 1) == []
    ensures LayerAfter(s, EMPTY_LAYER, GapOps()) ==
              Layer([Chunk(0, false, Range(0, 3), Range(0, 3)), Chunk(0, false, Range(3, 4), Range(0, 1)),
                     Chunk(0, false, Range(1, 3), Range(3, 5)), Chunk(0, false, Range(3, 4), Range(5, 6))],
                    [1, 2, 3, 4, 0, 0, 6], 4)
  {
    hide LayerWrite, LayerAfter, FileRows, ChunkEnd;
    var a, b, c := WriteOp(0, [1, 2, 3]), WriteOp(0, [4]), WriteOp(5, [6]);
    ThreeAfter(s, EMPTY_LAYER, a, b, c);
    GapWritten();
    var one := LayerWrite(Shipped, EMPTY_LAYER, 0, 0, [1, 2, 3]);
    assert AfterWrite(s, EMPTY_LAYER, a) == one;
    FoundSize(s, EMPTY_LAYER, 0, a);
    FoundSize(s, one, 3, b);
    LayerWriteEnd(Shipped, EMPTY_LAYER, 0, 0, [1, 2, 3]);
    assert ChunkEnd(EMPTY_LAYER.chunks) == 0 by { NoChunksEnd(); }
  }

  lemma NoChunksEnd()
    ensures ChunkEnd([]) == 0
  {
  }

  lemma GapWritten()
    ensures var one := LayerWrite(Shipped, EMPTY_LAYER, 0, 0, [1, 2, 3]);
            var two := LayerWrite(Shipped, one, 3, 0, [4]);
            LayerWrite(Shipped, two, 3, 5, [6]) ==
              Layer([Chunk(0, false, Range(0, 3), Range(0, 3)), Chunk(0, false, Range(3, 4), Range(0, 1)),
                     Chunk(0, false, Range(1, 3), Range(3, 5)), Chunk(0, false, Range(3, 4), Range(5, 6))],
                    [1, 2, 3, 4, 0, 0, 6], 4)
  {
    var one := LayerWrite(Shipped, EMPTY_LAYER, 0, 0, [1, 2, 3]);
    assert one == Layer([Chunk(0, false, Range(0, 3), Range(0, 3))], [1, 2, 3], 3);
    var two := LayerWrite(Shipped, one, 3, 0, [4]);
    assert two == Layer(one.chunks + [Chunk(0, false, Range(3, 4), Range(0, 1))], [1, 2, 3, 4], 4);
  }

  lemma ActiveSnoc(front: seq<Chunk>, c: Chunk, range: Range)
    ensures ActiveOverlapping(front + [c], range)
         == ActiveOverlapping(front, range) + if RangesOverlap(c.fileRange, range) then [c] else []
  {
    assert (front + [c])[..|front|] == front;
  }

  lemma NoneActive(chunks: seq<Chunk>, range: Range)
    requires forall i :: 0 <= i < |chunks| ==> !RangesOverlap(chunks[i].fileRange, range)
    ensures ActiveOverlapping(chunks, range) == []
  {
    hide ActiveOverlapping, RangesOverlap;
    var sel := ActiveOverlapping(chunks, range);
    if sel != [] {
      ActiveSelected(chunks, range, sel[0]);
    }
  }

  function GapChunks(): seq<Chunk> {
    [Chunk(0, false, Range(0, 3), Range(0, 3)), Chunk(0, false, Range(3, 4), Range(0, 1)),
     Chunk(0, false, Range(1, 3), Range(3, 5)), Chunk(0, false, Range(3, 4), Range(5, 6))]
  }

  lemma GapSelected()
    ensures ActiveOverlapping(GapChunks(), Range(3, 5)) == [GapChunks()[2]]
    ensures ActiveOverlapping(GapChunks(), Range(5, 6)) == [GapChunks()[3]]
  {
    hide ActiveOverlapping;
    var c := GapChunks();
    NoneActive(c[..2], Range(3, 5));
    NoneActive(c[..3], Range(5, 6));
    assert c[..2] + [c[2]] == c[..3] && c[..3] + [c[3]] == c;
    ActiveSnoc(c[..2], c[2], Range(3, 5));
    ActiveSnoc(c[..3], c[3], Range(3, 5));
    ActiveSnoc(c[..3], c[3], Range(5, 6));
  }

  lemma BrokenGapState()
    ensures var s := Run(Shipped, INITIAL, [InsertFile("f")] + WritesOf(GapOps()));
            Ready(s) && AllRows(s, 1) == [] && Active(s, 1) == Layer(GapChunks(), [1, 2, 3, 4, 0, 0, 6], 4)
  {
    var s0 := Run(Shipped, INITIAL, [InsertFile("f")]);
    hide Run, LayerAfter, GapOps, FileRows, WritesOf, Intact;
    Opened();
    RunConcat(Shipped, INITIAL, [InsertFile("f")], WritesOf(GapOps()));
    WritesReady(s0, GapOps());
    GapLayer(s0);
  }

  lemma NoRowsSelected(s: State, range: Range)
    requires AllRows(s, 1) == []
    ensures Selected(s.t, Active(s, 1), 1, 0, range) == ActiveOverlapping(Active(s, 1).chunks, range)
  {
    assert OverlappingRows(s.t, 1, 0, range) == [];
  }

  lemma GapFetched(t: Tables, objects: Objects, spare: seq<byte>)
    ensures var layer := Layer(GapChunks(), [1, 2, 3, 4, 0, 0, 6], 4);
            && Fetch(t, objects, layer, spare, {}, [GapChunks()[2]], 0) == Got([2, 3])
            && Fetch(t, objects, layer, spare, {}, [GapChunks()[3]], 0) == Got([4])
  {
    var data := [1, 2, 3, 4, 0, 0, 6];
    assert (data + spare)[1..3] == [2, 3] && (data + spare)[3..4] == [4];
  }

  /**
   Three bytes, one overwritten, then a write past the end: the gap reads as the file's old bytes, and the
   byte just written as another one.
   */
  lemma BrokenGapRun(pick: nat, spare: seq<byte>)
    ensures var s := Run(Shipped, INITIAL, [InsertFile("f")] + WritesOf(GapOps()));
            && ReadFile(s.t, s.objects, s.memtable, "f", pick, spare, {}, 3, 2) == Bytes([2, 3])
            && ReadFile(s.t, s.objects, s.memtable, "f", pick, spare, {}, 5, 1) == Bytes([4])
            && Window(Replay(GapOps()), 3, 2) == [0, 0] && Window(Replay(GapOps()), 5, 1) == [6]
  {
    var s := Run(Shipped, INITIAL, [InsertFile("f")] + WritesOf(GapOps()));
    hide Run, ReadFile, FileRows, GapOps, WritesOf, Replay, ActiveOverlapping, Selected, Fetch;
    GapFetched(s.t, s.objects, spare);
    BrokenGapState();
    GapFlat();
    GapSelected();
    NoRowsSelected(s, Range(3, 5));
    NoRowsSelected(s, Range(5, 6));
    OneChunkRead(s, pick, spare, GapChunks()[2], [2, 3], 3, 2);
    OneChunkRead(s, pick, spare, GapChunks()[3], [4], 5, 1);
  }

  // ---------- Silent corruption ----------

  lemma GapLayers()
    ensures var l1 := LayerWrite(Shipped, EMPTY_LAYER, 10, 10, [1, 2]);
            var l2 := LayerWrite(Shipped, l1, 12, 14, [3, 4]);
            && l1 == Layer([Chunk(0, false, Range(0, 2), Range(10, 12))], [1, 2], 2)
            && l2 == Layer(l1.chunks + [Chunk(0, false, Range(12, 14), Range(12, 14)),
                                        Chunk(0, false, Range(14, 16), Range(14, 16))], [1, 2, 0, 0, 3, 4], 16)
  {
  }

  lemma LaterLayers(l2: Layer)
    requires |l2.chunks| == 3 && l2.chunks[2] == Chunk(0, false, Range(14, 16), Range(14, 16))
    requires l2.data == [1, 2, 0, 0, 3, 4]
    ensures var l3 := LayerWrite(Shipped, l2, 16, 0, [5, 6]);
            var l4 := LayerWrite(Shipped, l3, 16, 21, [7, 8, 9, 10, 11]);
            && l4.chunks == l2.chunks + [Chunk(0, false, Range(16, 18), Range(0, 2)),
                                         Chunk(0, false, Range(2, 7), Range(16, 21)),
                                         Chunk(0, false, Range(7, 12), Range(21, 26))]
            && l4.data == [1, 2, 0, 0, 3, 4, 5, 6, 0, 0, 0, 0, 0, 7, 8, 9, 10, 11]
  {
  }

  lemma CorruptLayer(layer: Layer)
    requires |layer.chunks| == 6
    requires layer.chunks[0].layerRange == Range(0, 2) && layer.chunks[1].layerRange == Range(12, 14)
    requires layer.chunks[2].layerRange == Range(14, 16) && layer.chunks[3].layerRange == Range(16, 18)
    requires layer.chunks[4].layerRange == Range(2, 7) && layer.chunks[5].layerRange == Range(7, 12)
    requires layer.data == [1, 2, 0, 0, 3, 4, 5, 6, 0, 0, 0, 0, 0, 7, 8, 9, 10, 11]
    ensures Disjoint(layer.chunks) && Within(layer) && !Tiled(layer)
    ensures Slice(layer.data, layer.chunks[5].layerRange) == [6, 0, 0, 0, 0]
  {
    assert !TiledAt(layer.chunks, 1);
    assert layer.data[7..12] == [6, 0, 0, 0, 0];
  }

  function CorruptOps(): seq<WriteOp> {
    [WriteOp(10, [1, 2]), WriteOp(14, [3, 4]), WriteOp(0, [5, 6]), WriteOp(21, [7, 8, 9, 10, 11])]
  }

  const TEN: seq<byte> := [1, 1, 1, 1, 1, 1, 1, 1, 1, 1]

  lemma FourAfter(s: State, layer: Layer, a: WriteOp, b: WriteOp, c: WriteOp, d: WriteOp)
    ensures LayerAfter(s, layer, [a, b, c, d])
         == AfterWrite(s, AfterWrite(s, AfterWrite(s, AfterWrite(s, layer, a), b), c), d)
  {
    hide AfterWrite;
    assert [a, b, c, d][1..] == [b, c, d];
    ThreeAfter(s, AfterWrite(s, layer, a), b, c, d);
  }

  function CorruptChunks(): seq<Chunk> {
    [Chunk(0, false, Range(0, 2), Range(10, 12)), Chunk(0, false, Range(12, 14), Range(12, 14)),
     Chunk(0, false, Range(14, 16), Range(14, 16)), Chunk(0, false, Range(16, 18), Range(0, 2)),
     Chunk(0, false, Range(2, 7), Range(16, 21)), Chunk(0, false, Range(7, 12), Range(21, 26))]
  }

  const CORRUPT: seq<byte> := [1, 2, 0, 0, 3, 4, 5, 6, 0, 0, 0, 0, 0, 7, 8, 9, 10, 11]

  lemma FoundSize(s: State, layer: Layer, fileSize: nat, op: WriteOp)
    ensures SizeFound(s, LayerWrite(Shipped, layer, fileSize, op.offset, op.data))
         == Max(ChunkEnd(layer.chunks), op.offset + |op.data|)
  {
    hide LayerWrite, ChunkEnd, FileRows;
    LayerWriteEnd(Shipped, layer, fileSize, op.offset, op.data);
  }

  lemma CorruptAfter(s: State)
    requires AllRows(s, 1) == [ChunkRow(1, Range(0, 10), Range(0, 10))]
    ensures var layer := LayerAfter(s, EMPTY_LAYER, CorruptOps());
            layer.chunks == CorruptChunks() && layer.data == CORRUPT
  {
    var a, b, c, d := WriteOp(10, [1, 2]), WriteOp(14, [3, 4]), WriteOp(0, [5, 6]), WriteOp(21, [7, 8, 9, 10, 11]);
    assert SizeFound(s, EMPTY_LAYER) == 10 by { OneRowEnd(AllRows(s, 1)); }
    var l1 := LayerWrite(Shipped, EMPTY_LAYER, 10, a.offset, a.data);
    var l2 := LayerWrite(Shipped, l1, 12, b.offset, b.data);
    var l3 := LayerWrite(Shipped, l2, 16, c.offset, c.data);
    assert ChunkEnd(EMPTY_LAYER.chunks) == 0;
    hide LayerWrite, SizeFound, LayerAfter, ChunkEnd, FileRows;
    FourAfter(s, EMPTY_LAYER, a, b, c, d);
    FoundSize(s, EMPTY_LAYER, 10, a);
    FoundSize(s, l1, 12, b);
    FoundSize(s, l2, 16, c);
    LayerWriteEnd(Shipped, EMPTY_LAYER, 10, a.offset, a.data);
    LayerWriteEnd(Shipped, l1, 12, b.offset, b.data);
    LayerWriteEnd(Shipped, l2, 16, c.offset, c.data);
    GapLayers();
    LaterLayers(l2);
  }

  lemma NoneSelected(rows: seq<ChunkRow>, range: Range)
    requires forall i :: 0 <= i < |rows| ==> !SqlOverlap(rows[i].fileRange, range)
    ensures SelectOverlapping(rows, range) == []
  {
    hide SelectOverlapping, SqlOverlap;
    var sel := SelectOverlapping(rows, range);
    if sel != [] {
      SelectedIn(rows, range, sel[0]);
    }
  }

  lemma CorruptSelected(rows: seq<ChunkRow>)
    requires rows == [ChunkRow(1, Range(0, 10), Range(0, 10))] + ToRows(2, CorruptChunks())
    ensures SelectOverlapping(rows, Range(21, 26)) == [ChunkRow(2, Range(7, 12), Range(21, 26))]
  {
    hide SelectOverlapping;
    var last := ChunkRow(2, Range(7, 12), Range(21, 26));
    assert rows == rows[..6] + [last] && rows[6] == last;
    forall i | 0 <= i < 6 ensures !SqlOverlap(rows[i].fileRange, Range(21, 26)) {
      assert i > 0 ==> rows[i].fileRange == CorruptChunks()[i - 1].fileRange;
    }
    NoneSelected(rows[..6], Range(21, 26));
    SelectSnoc(rows[..6], last, Range(21, 26));
  }

  lemma SelectSnoc(front: seq<ChunkRow>, row: ChunkRow, range: Range)
    ensures SelectOverlapping(front + [row], range)
         == SelectOverlapping(front, range) + if SqlOverlap(row.fileRange, range) then [row] else []
  {
    assert (front + [row])[..|front|] == front;
  }

  // ---------- Past the data ----------

  function PastOps(): seq<WriteOp> {
    [WriteOp(10, [1, 2]), WriteOp(14, [3, 4])]
  }

  lemma PastAfter(s: State)
    requires AllRows(s, 1) == [ChunkRow(1, Range(0, 10), Range(0, 10))]
    ensures LayerAfter(s, EMPTY_LAYER, PastOps()) == Layer(CorruptChunks()[..3], [1, 2, 0, 0, 3, 4], 16)
  {
    hide LayerWrite, ChunkEnd, FileRows, LayerAfter, RowsEnd;
    var a, b := WriteOp(10, [1, 2]), WriteOp(14, [3, 4]);
    OneRowEnd(AllRows(s, 1));
    assert SizeFound(s, EMPTY_LAYER) == 10;
    hide SizeFound;
    TwoAfter(s, EMPTY_LAYER, a, b);
    NoChunksEnd();
    FoundSize(s, EMPTY_LAYER, 10, a);
    GapLayers();
  }

  lemma TwoAfter(s: State, layer: Layer, a: WriteOp, b: WriteOp)
    ensures LayerAfter(s, layer, [a, b]) == AfterWrite(s, AfterWrite(s, layer, a), b)
  {
    hide AfterWrite;
    assert [a, b][1..] == [b] && [b][1..] == [];
    assert LayerAfter(s, AfterWrite(s, layer, a), [b]) == AfterWrite(s, AfterWrite(s, layer, a), b);
  }

  lemma PastSelected(s: State)
    requires AllRows(s, 1) == [ChunkRow(1, Range(0, 10), Range(0, 10))]
    requires Active(s, 1).chunks == CorruptChunks()[..3]
    ensures Selected(s.t, Active(s, 1), 1, 0, Range(14, 16)) == [CorruptChunks()[2]]
  {
    var chunks := CorruptChunks();
    hide FileRows, SelectOverlapping, ActiveOverlapping;
    NoneSelected(AllRows(s, 1), Range(14, 16));
    NoneActive(chunks[..2], Range(14, 16));
    assert chunks[..3] == chunks[..2] + [chunks[2]];
    ActiveSnoc(chunks[..2], chunks[2], Range(14, 16));
  }

  lemma PastState()
    ensures var s := Run(Shipped, INITIAL, CommittedFile(TEN) + WritesOf(PastOps()));
            && Ready(s) && AllRows(s, 1) == [ChunkRow(1, Range(0, 10), Range(0, 10))]
            && Active(s, 1) == Layer(CorruptChunks()[..3], [1, 2, 0, 0, 3, 4], 16)
  {
    var s0 := Run(Shipped, INITIAL, CommittedFile(TEN));
    assert |TEN| == 10;
    hide Run, FileRows, WritesOf, LayerAfter, PastOps, CommittedFile, CorruptChunks;
    CommittedState(TEN);
    RunConcat(Shipped, INITIAL, CommittedFile(TEN), WritesOf(PastOps()));
    WritesReady(s0, PastOps());
    PastAfter(s0);
    var s := Run(Shipped, s0, WritesOf(PastOps()));
    assert AllRows(s, 1) == AllRows(s0, 1);
  }

  lemma AssembleFault(c: Chunk, offset: nat, size: nat)
    requires c.fileRange == Range(offset, offset + size)
    ensures Assemble([c], [SliceFault], offset, size) == Panicked
  {
  }

  lemma OneFault(s: State, pick: nat, spare: seq<byte>, c: Chunk, offset: nat, size: nat)
    requires Ready(s) && offset + size < 0x8000_0000_0000_0000
    requires Selected(s.t, Active(s, 1), 1, 0, Range(offset, offset + size)) == [c]
    requires c.fileRange == Range(offset, offset + size)
    requires Fetch(s.t, s.objects, Active(s, 1), spare, {}, [c], 0) == SliceFault
    ensures ReadFile(s.t, s.objects, s.memtable, "f", pick, spare, {}, offset, size) == Panicked
  {
    hide Ready, Active, Selected, Fetch, Assemble, ReadFile;
    ReadyRead(s, pick, spare, offset, size);
    assert FetchAll(s.t, s.objects, Active(s, 1), spare, {}, [c]) == [SliceFault];
    AssembleFault(c, offset, size);
  }

  lemma PastFetched(t: Tables, objects: Objects, spare: seq<byte>)
    ensures var layer := Layer(CorruptChunks()[..3], [1, 2, 0, 0, 3, 4], 16);
            Fetch(t, objects, layer, spare, {}, [CorruptChunks()[2]], 0)
            == if |spare| >= 10 then Got(spare[8..10]) else SliceFault
  {
    if |spare| >= 10 {
      assert ([1, 2, 0, 0, 3, 4] + spare)[14..16] == spare[8..10];
    }
  }

  /**
   Ten committed bytes and a broken gap: reading back the last write panics, or, if the data's buffer has
   room enough behind it, answers what happens to be there.
   */
  lemma PastDataRun(pick: nat, spare: seq<byte>)
    ensures var s := Run(Shipped, INITIAL, CommittedFile(TEN) + WritesOf(PastOps()));
            ReadFile(s.t, s.objects, s.memtable, "f", pick, spare, {}, 14, 2)
            == if |spare| >= 10 then Bytes(spare[8..10]) else Panicked
    ensures Window(Replay([WriteOp(0, TEN)] + PastOps()), 14, 2) == [3, 4]
  {
    var s := Run(Shipped, INITIAL, CommittedFile(TEN) + WritesOf(PastOps()));
    var last := WriteOp(14, [3, 4]);
    assert [WriteOp(0, TEN)] + PastOps() == [WriteOp(0, TEN), WriteOp(10, [1, 2])] + [last];
    LastWritten([WriteOp(0, TEN), WriteOp(10, [1, 2])], last);
    hide Run, ReadFile, FileRows, PastOps, WritesOf, Replay, Window, Selected, Fetch, CommittedFile;
    PastState();
    PastSelected(s);
    PastFetched(s.t, s.objects, spare);
    assert CorruptChunks()[2].fileRange == Range(14, 16);
    if |spare| >= 10 {
      OneChunkRead(s, pick, spare, CorruptChunks()[2], spare[8..10], 14, 2);
    } else {
      OneFault(s, pick, spare, CorruptChunks()[2], 14, 2);
    }
  }

  // ---------- Both together, flushed ----------

  /** Ten committed bytes, the four writes, and a checkpoint. */
  function CorruptRun(): seq<Event> {
    CommittedFile(TEN) + (WritesOf(CorruptOps()) + Steps("f", "v2", 6))
  }

  lemma CorruptState()
    ensures var s := Run(Shipped, INITIAL, CorruptRun());
            && Ready(s) && Active(s, 1) == EMPTY_LAYER && HasObject(s, 2, CORRUPT) && s.t.lastLayer == 2
            && AllRows(s, 1) == [ChunkRow(1, Range(0, 10), Range(0, 10))] + ToRows(2, CorruptChunks())
  {
    var s0 := Run(Shipped, INITIAL, CommittedFile(TEN));
    assert |TEN| == 10;
    hide Run, FileRows, WritesOf, Intact, Steps, CorruptOps, CommittedFile, ToRows, HasObject, CorruptChunks;
    CommittedState(TEN);
    RunConcat(Shipped, INITIAL, CommittedFile(TEN), WritesOf(CorruptOps()) + Steps("f", "v2", 6));
    RunConcat(Shipped, s0, WritesOf(CorruptOps()), Steps("f", "v2", 6));
    CorruptFlush(s0);
  }

  lemma CorruptFlush(s: State)
    requires Ready(s) && Intact(s) && Active(s, 1) == EMPTY_LAYER && s.t.lastLayer == 1 && s.t.lastVersion == 1
    requires AllRows(s, 1) == [ChunkRow(1, Range(0, 10), Range(0, 10))]
    ensures var s' := Run(Shipped, Run(Shipped, s, WritesOf(CorruptOps())), Steps("f", "v2", 6));
            && Ready(s') && Active(s', 1) == EMPTY_LAYER && HasObject(s', 2, CORRUPT) && s'.t.lastLayer == 2
            && AllRows(s', 1) == AllRows(s, 1) + ToRows(2, CorruptChunks())
  {
    var s1 := Run(Shipped, s, WritesOf(CorruptOps()));
    assert |CORRUPT| == 18 && |CorruptChunks()| == 6;
    hide Run, FileRows, WritesOf, Intact, Steps, CorruptOps, ToRows, HasObject, Disjoint, CorruptChunks;
    CorruptWritten(s);
    RunIntact(Shipped, s, WritesOf(CorruptOps()));
    FlushReady(s1, "v2");
  }

  lemma CorruptWritten(s: State)
    requires Ready(s) && Active(s, 1) == EMPTY_LAYER && AllRows(s, 1) == [ChunkRow(1, Range(0, 10), Range(0, 10))]
    ensures var s' := Run(Shipped, s, WritesOf(CorruptOps()));
            && s' == s.(memtable := s'.memtable) && Ready(s') && AllRows(s', 1) == AllRows(s, 1)
            && 1 in s'.memtable && s'.memtable[1].chunks == CorruptChunks() && s'.memtable[1].data == CORRUPT
            && Disjoint(s'.memtable[1].chunks)
  {
    assert !HasEmptyRange(AllRows(s, 1));
    assert |CORRUPT| == 18;
    hide Run, FileRows, WritesOf, LayerAfter, CorruptOps, Disjoint, Ready, CorruptChunks, HasEmptyRange;
    WritesReady(s, CorruptOps());
    CorruptAfter(s);
    CorruptDisjoint(Active(Run(Shipped, s, WritesOf(CorruptOps())), 1));
  }

  lemma CorruptDisjoint(layer: Layer)
    requires layer.chunks == CorruptChunks() && layer.data == CORRUPT
    ensures Disjoint(layer.chunks) && layer.chunks != []
  {
    hide Disjoint, Within, Tiled, Slice;
    CorruptLayer(layer);
  }

  lemma CorruptFetch(s: State, spare: seq<byte>)
    requires HasObject(s, 2, CORRUPT)
    ensures Fetch(s.t, s.objects, EMPTY_LAYER, spare, {}, [ToChunk(ChunkRow(2, Range(7, 12), Range(21, 26)))], 0)
         == Got([6, 0, 0, 0, 0])
  {
    assert CORRUPT[7..12] == [6, 0, 0, 0, 0];
    FetchExact(s.t, s.objects, ToChunk(ChunkRow(2, Range(7, 12), Range(21, 26))));
  }

  lemma {:induction false} LastWritten(ops: seq<WriteOp>, op: WriteOp)
    requires op.data != []
    ensures Window(Replay(ops + [op]), op.offset, |op.data|) == op.data
  {
    hide Write, Replay;
    ReplayAppend(ops, op);
    WriteSpecified(Replay(ops), op.offset, op.data);
  }

  /**
   Silent corruption, from the empty system: every step succeeds, both checkpoints included, and a read of
   the last five bytes written succeeds and answers others.
   */
  lemma SilentCorruptionRun(pick: nat, spare: seq<byte>)
    ensures var s := Run(Shipped, INITIAL, CorruptRun());
            && ReadFile(s.t, s.objects, s.memtable, "f", pick, spare, {}, 21, 5) == Bytes([6, 0, 0, 0, 0])
            && s.stage.Idle? && s.t.lastLayer == 2 && Active(s, 1) == EMPTY_LAYER
    ensures Window(Replay([WriteOp(0, TEN)] + CorruptOps()), 21, 5) == [7, 8, 9, 10, 11]
  {
    hide Run, CorruptRun, ReadFile, Window, Replay, CorruptOps;
    CorruptWindow();
    CorruptState();
    CorruptRead(Run(Shipped, INITIAL, CorruptRun()), pick, spare);
  }

  lemma CorruptWindow()
    ensures Window(Replay([WriteOp(0, TEN)] + CorruptOps()), 21, 5) == [7, 8, 9, 10, 11]
  {
    var last := WriteOp(21, [7, 8, 9, 10, 11]);
    assert [WriteOp(0, TEN)] + CorruptOps() == [WriteOp(0, TEN)] + CorruptOps()[..3] + [last];
    hide Replay, Window;
    LastWritten([WriteOp(0, TEN)] + CorruptOps()[..3], last);
  }

  lemma CorruptRead(s: State, pick: nat, spare: seq<byte>)
    requires Ready(s) && Active(s, 1) == EMPTY_LAYER && HasObject(s, 2, CORRUPT)
    requires AllRows(s, 1) == [ChunkRow(1, Range(0, 10), Range(0, 10))] + ToRows(2, CorruptChunks())
    ensures ReadFile(s.t, s.objects, s.memtable, "f", pick, spare, {}, 21, 5) == Bytes([6, 0, 0, 0, 0])
  {
    var row := ChunkRow(2, Range(7, 12), Range(21, 26));
    hide ReadFile, FileRows, HasObject, SelectOverlapping, Selected, Fetch, CorruptChunks, ToRows, Active;
    CorruptSelected(AllRows(s, 1));
    CorruptFetch(s, spare);
    RowsSelected(s, Range(21, 26));
    assert ToChunks([row]) == [ToChunk(row)];
    OneChunkRead(s, pick, spare, ToChunk(row), [6, 0, 0, 0, 0], 21, 5);
  }

  lemma RowsSelected(s: State, range: Range)
    ensures Selected(s.t, EMPTY_LAYER, 1, 0, range) == ToChunks(SelectOverlapping(AllRows(s, 1), range))
  {
    hide SelectOverlapping, FileRows;
  }

  // ---------- The shrinking size ----------

  lemma ShrinkLayers()
    ensures var one := LayerWrite(Shipped, EMPTY_LAYER, 5, 0, [9]);
            var two := LayerWrite(Shipped, one, 1, 3, [7]);
            && SizeWith(Shipped, 5, one) == 1 && SizeWith(Documented, 5, one) == 5
            && ActiveLog(two) == [Piece(0, [9]), Piece(1, [0, 0]), Piece(3, [7])]
  {
    var c0 := Chunk(0, false, Range(0, 1), Range(0, 1));
    var one := LayerWrite(Shipped, EMPTY_LAYER, 5, 0, [9]);
    assert one == Layer([c0], [9], 1);
    assert one.chunks[..0] == [];
    assert ChunkEnd(one.chunks) == 1;
    var two := LayerWrite(Shipped, one, 1, 3, [7]);
    assert two.data == [9, 0, 0, 7];
    assert two.chunks == [c0, Chunk(0, false, Range(1, 3), Range(1, 3)), Chunk(0, false, Range(3, 4), Range(3, 4))];
    assert two.data[0..1] == [9] && two.data[1..3] == [0, 0] && two.data[3..4] == [7];
  }

  lemma ShrinkWrites()
    ensures Write([1, 2, 3, 4, 5], 0, [9]) == [9, 2, 3, 4, 5]
    ensures Write([9, 2, 3, 4, 5], 1, [0, 0]) == [9, 0, 0, 4, 5]
    ensures Write([9, 0, 0, 4, 5], 3, [7]) == [9, 0, 0, 7, 5]
    ensures Write([9, 2, 3, 4, 5], 3, [7]) == [9, 2, 3, 7, 5]
  {
  }

  /** Five committed bytes, the first overwritten, then the fourth: the zero-fill wipes out bytes two and three. */
  lemma ShrinkExample()
    ensures var base := [Piece(0, [1, 2, 3, 4, 5])];
            var one := LayerWrite(Shipped, EMPTY_LAYER, SizeWith(Shipped, 5, EMPTY_LAYER), 0, [9]);
            var two := LayerWrite(Shipped, one, SizeWith(Shipped, 5, one), 3, [7]);
            && SizeWith(Shipped, 5, one) == 1 && SizeWith(Documented, 5, one) == 5
            && Contents(base + ActiveLog(two)) == [9, 0, 0, 7, 5]
            && Write(Write([1, 2, 3, 4, 5], 0, [9]), 3, [7]) == [9, 2, 3, 7, 5]
  {
    var base := [Piece(0, [1, 2, 3, 4, 5])];
    var a, b, c := Piece(0, [9]), Piece(1, [0, 0]), Piece(3, [7]);
    ShrinkLayers();
    ShrinkWrites();
    assert base[..0] == [];
    assert Contents(base) == [1, 2, 3, 4, 5];
    hide Write, LayerWrite, ActiveLog, Contents, SizeWith, Contiguous;
    AppendIsWrite(base, a);
    AppendIsWrite(base + [a], b);
    AppendIsWrite(base + [a] + [b], c);
    assert base + [a, b, c] == base + [a] + [b] + [c];
    assert SizeWith(Shipped, 5, EMPTY_LAYER) == 5 by { EmptySize(); }
  }

  lemma EmptySize()
    ensures SizeWith(Shipped, 5, EMPTY_LAYER) == 5
  {
  }

  function ShrinkOps(): seq<WriteOp> {
    [WriteOp(0, [9]), WriteOp(3, [7])]
  }

  /** Five committed bytes, the first overwritten, then the fourth. */
  function ShrinkSteps(): seq<Event> {
    CommittedFile([1, 2, 3, 4, 5]) + WritesOf(ShrinkOps())
  }

  lemma ShrinkLayer(s: State)
    requires AllRows(s, 1) == [ChunkRow(1, Range(0, 5), Range(0, 5))]
    ensures var one := LayerWrite(Shipped, EMPTY_LAYER, SizeWith(Shipped, 5, EMPTY_LAYER), 0, [9]);
            var two := LayerWrite(Shipped, one, SizeWith(Shipped, 5, one), 3, [7]);
            LayerAfter(s, EMPTY_LAYER, ShrinkOps()) == two && Tiled(two)
            && (forall i :: 0 <= i < |two.chunks| ==> !two.chunks[i].flushed)
  {
    var a, b := WriteOp(0, [9]), WriteOp(3, [7]);
    assert SizeFound(s, EMPTY_LAYER) == 5 by { OneRowEnd(AllRows(s, 1)); }
    assert [a, b][1..] == [b] && [b][1..] == [];
    var one := AfterWrite(s, EMPTY_LAYER, a);
    assert one == Layer([Chunk(0, false, Range(0, 1), Range(0, 1))], [9], 1);
    var two := AfterWrite(s, one, b);
    assert ChunkEnd(one.chunks) == 1 by { assert one.chunks[..0] == []; }
    assert LayerAfter(s, EMPTY_LAYER, [a, b]) == LayerAfter(s, one, [b]) == two;
    assert two.chunks == one.chunks + [Chunk(0, false, Range(1, 3), Range(1, 3)),
                                       Chunk(0, false, Range(3, 4), Range(3, 4))];
    assert TiledAt(two.chunks, 0) && TiledAt(two.chunks, 1) && TiledAt(two.chunks, 2);
  }

  lemma ShrinkState()
    ensures var s := Run(Shipped, INITIAL, ShrinkSteps());
            && Ready(s) && Active(s, 1) == LayerAfter(s, EMPTY_LAYER, ShrinkOps())
            && HasObject(s, 1, [1, 2, 3, 4, 5])
            && AllRows(s, 1) == [ChunkRow(1, Range(0, 5), Range(0, 5))]
  {
    var s0 := Run(Shipped, INITIAL, CommittedFile([1, 2, 3, 4, 5]));
    hide Run, FileRows, WritesOf, LayerAfter, ShrinkOps, CommittedFile;
    CommittedState([1, 2, 3, 4, 5]);
    RunConcat(Shipped, INITIAL, CommittedFile([1, 2, 3, 4, 5]), WritesOf(ShrinkOps()));
    WritesReady(s0, ShrinkOps());
    var s := Run(Shipped, s0, WritesOf(ShrinkOps()));
    assert AllRows(s, 1) == AllRows(s0, 1);
    LayerAfterSame(s0, s, EMPTY_LAYER, ShrinkOps());
  }

  lemma ShrinkLog(s: State)
    requires HasObject(s, 1, [1, 2, 3, 4, 5]) && AllRows(s, 1) == [ChunkRow(1, Range(0, 5), Range(0, 5))]
    ensures Base(s, 1) == [Piece(0, [1, 2, 3, 4, 5])]
    ensures RowSound(s.t, s.objects, ChunkRow(1, Range(0, 5), Range(0, 5)))
  {
    hide FileRows;
    assert ObjectBytes(s.t, s.objects, 1)[0..5] == [1, 2, 3, 4, 5];
  }

  lemma ShrinkContiguous()
    ensures Contiguous([Piece(0, [1, 2, 3, 4, 5])] + [Piece(0, [9]), Piece(1, [0, 0]), Piece(3, [7])])
  {
    var five := [Piece(0, [1, 2, 3, 4, 5])];
    var more := [Piece(0, [9]), Piece(1, [0, 0]), Piece(3, [7])];
    assert five[..0] == [] && End(five) == 5 && Contiguous(five);
    hide Contiguous, End;
    ContiguousExtend(five, more);
  }

  lemma ShrinkSound(s: State)
    requires HasObject(s, 1, [1, 2, 3, 4, 5]) && AllRows(s, 1) == [ChunkRow(1, Range(0, 5), Range(0, 5))]
    requires Tiled(Active(s, 1)) && ActiveLog(Active(s, 1)) == [Piece(0, [9]), Piece(1, [0, 0]), Piece(3, [7])]
    ensures ReadSound(s.t, s.objects, Active(s, 1), 1, 0)
    ensures ReadLog(s.t, s.objects, Active(s, 1), 1, 0)
         == [Piece(0, [1, 2, 3, 4, 5])] + ActiveLog(Active(s, 1))
  {
    hide Tiled, FileRows, Active, ActiveLog, Contiguous, RowSound, RowPieces;
    ShrinkLog(s);
    ShrinkContiguous();
  }

  lemma ShrinkSelected(s: State)
    requires AllRows(s, 1) == [ChunkRow(1, Range(0, 5), Range(0, 5))]
    requires forall i :: 0 <= i < |Active(s, 1).chunks| ==> !Active(s, 1).chunks[i].flushed
    ensures !HasOneByteChunk(Selected(s.t, Active(s, 1), 1, 0, Range(0, 5)))
  {
    hide FileRows, SelectOverlapping, ActiveOverlapping;
    var sel := Selected(s.t, Active(s, 1), 1, 0, Range(0, 5));
    var rows := OverlappingRows(s.t, 1, 0, Range(0, 5));
    forall i | 0 <= i < |sel| && sel[i].flushed ensures sel[i].layerRange.Length() == 5 {
      if i < |rows| {
        SelectedIn(AllRows(s, 1), Range(0, 5), rows[i]);
      } else {
        ActiveSelected(Active(s, 1).chunks, Range(0, 5), sel[i]);
      }
    }
  }

  /** The size shrinks to one byte, and the second write zeroes the two committed bytes before it. */
  lemma ShrinkRun(pick: nat, spare: seq<byte>)
    ensures var s := Run(Shipped, INITIAL, ShrinkSteps());
            ReadFile(s.t, s.objects, s.memtable, "f", pick, spare, {}, 0, 5) == Bytes([9, 0, 0, 7, 5])
    ensures Replay([WriteOp(0, [1, 2, 3, 4, 5])] + ShrinkOps()) == [9, 2, 3, 7, 5]
  {
    hide Run, ShrinkSteps, FileRows, Replay, LayerAfter, ShrinkOps, ReadFile;
    ShrinkFlat();
    ShrinkState();
    ShrinkAnswer(Run(Shipped, INITIAL, ShrinkSteps()), pick, spare);
  }

  lemma ShrinkFlat()
    ensures Replay([WriteOp(0, [1, 2, 3, 4, 5])] + ShrinkOps()) == [9, 2, 3, 7, 5]
  {
    assert [WriteOp(0, [1, 2, 3, 4, 5])] + ShrinkOps()
        == [WriteOp(0, [1, 2, 3, 4, 5]), WriteOp(0, [9]), WriteOp(3, [7])];
    assert Write([], 0, [1, 2, 3, 4, 5]) == [1, 2, 3, 4, 5];
    hide Write, Replay;
    ShrinkWrites();
    ReplayThree(WriteOp(0, [1, 2, 3, 4, 5]), WriteOp(0, [9]), WriteOp(3, [7]));
  }

  lemma ShrinkAnswer(s: State, pick: nat, spare: seq<byte>)
    requires Ready(s) && Active(s, 1) == LayerAfter(s, EMPTY_LAYER, ShrinkOps())
    requires HasObject(s, 1, [1, 2, 3, 4, 5]) && AllRows(s, 1) == [ChunkRow(1, Range(0, 5), Range(0, 5))]
    ensures ReadFile(s.t, s.objects, s.memtable, "f", pick, spare, {}, 0, 5) == Bytes([9, 0, 0, 7, 5])
  {
    hide FileRows, HasObject, LayerAfter, LayerWrite, Tiled, SizeWith, Contents, ActiveLog, ShrinkOps, Selected, Active,
         HasOneByteChunk, ReadFile, ReadSound, ReadLog, ReadBelow;
    ShrinkLayer(s);
    ShrinkLayers();
    ShrinkSizes();
    ShrinkExample();
    ShrinkSound(s);
    ShrinkSelected(s);
    ReadExact(s.t, s.objects, Active(s, 1), spare, 1, 0, 0, 5);
    ReadyRead(s, pick, spare, 0, 5);
  }

  lemma ShrinkSizes()
    ensures SizeWith(Shipped, 5, EMPTY_LAYER) == 5
    ensures SizeWith(Shipped, 5, LayerWrite(Shipped, EMPTY_LAYER, 5, 0, [9])) == 1
  {
    ShrinkLayers();
    EmptySize();
  }
}
