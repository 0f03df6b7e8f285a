/**
 A read: the chunks it selects, the bytes it fetches for each, and what it makes of them.
 `ReadResult` is stated with the newest-piece-wins meaning of Overlay, not with a buffer; the
 method in Manager fills a buffer and is proved against it.
 */
module Reads {
  import opened FlatFile
  import opened Overlay
  import opened Layers
  import opened Tables

  const INT8_LIMIT: nat := 0x8000_0000_0000_0000

  /** The calls to the outside a method may find failing; `Get(i)` fetches the i-th chunk of a read. */
  datatype Call = BeginTx | FileQuery | HeadQuery | SizeQuery | LayerQuery | ChunkQuery | VersionInsert
      | Get(i: nat) | CommitTx

  datatype Fetched = Got(data: seq<byte>) | GetFailed | SliceFault

  datatype ReadReply = Bytes(bytes: seq<byte>) | NotFound | Failed | Panicked

  function ToChunk(row: ChunkRow): Chunk {
    Chunk(row.layerId, true, row.layerRange, row.fileRange)
  }

  function ToChunks(rows: seq<ChunkRow>): seq<Chunk> {
    seq(|rows|, i requires 0 <= i < |rows| => ToChunk(rows[i]))
  }

  function ActiveOverlapping(chunks: seq<Chunk>, range: Range): seq<Chunk> {
    if chunks == [] then []
    else
      var last := chunks[|chunks| - 1];
      ActiveOverlapping(chunks[..|chunks| - 1], range) + if RangesOverlap(last.fileRange, range) then [last] else []
  }

  /** GetAllOverlappingChunks: committed rows first; the active layer only without a version bound. */
  function Selected(t: Tables, layer: Layer, fileId: nat, bound: nat, range: Range): seq<Chunk> {
    ToChunks(OverlappingRows(t, fileId, bound, range)) +
    if bound == 0 then ActiveOverlapping(layer.chunks, range) else []
  }

  /** Slicing may reach into the spare capacity behind the data; beyond that it faults. */
  function FetchActive(layer: Layer, spare: seq<byte>, chunk: Chunk): Fetched {
    var r := chunk.layerRange;
    if r.lo <= r.hi <= |layer.data + spare| then Got((layer.data + spare)[r.lo..r.hi]) else SliceFault
  }

  /**
   getChunkData: an unknown layer has the empty key, and the empty key has no bytes.  An empty layer
   range never yields zero bytes: its inclusive form is refused, or fetches too much.
   */
  function FetchCommitted(t: Tables, objects: Objects, chunk: Chunk): Fetched {
    if chunk.layerId !in t.layers || t.layers[chunk.layerId].objectKey == "" then Got([])
    else
      var r := chunk.layerRange;
      if r.IsEmpty() then GetFailed
      else
        match GetObject(objects, t.layers[chunk.layerId].objectKey, r.lo, r.hi - 1)
        case NoObject => GetFailed
        case Object(data) => if |data| != r.hi - r.lo then GetFailed else Got(data)
  }

  function Fetch(t: Tables, objects: Objects, layer: Layer, spare: seq<byte>, faults: set<Call>,
                 chunks: seq<Chunk>, i: nat): Fetched
    requires i < |chunks|
  {
    if !chunks[i].flushed then FetchActive(layer, spare, chunks[i])
    else if Get(i) in faults then GetFailed
    else FetchCommitted(t, objects, chunks[i])
  }

  function FetchAll(t: Tables, objects: Objects, layer: Layer, spare: seq<byte>, faults: set<Call>,
                    chunks: seq<Chunk>): seq<Fetched>
  {
    seq(|chunks|, i requires 0 <= i < |chunks| => Fetch(t, objects, layer, spare, faults, chunks, i))
  }

  /** The pieces fetched before the first failing fetch. */
  function FetchedPieces(chunks: seq<Chunk>, fetched: seq<Fetched>): seq<Piece>
    requires |chunks| == |fetched|
  {
    if chunks == [] || !fetched[0].Got? then []
    else [Piece(chunks[0].fileRange.lo, fetched[0].data)] + FetchedPieces(chunks[1..], fetched[1..])
  }

  /** The pieces of the first `n` chunks, all of them fetched. */
  function PiecesUpTo(chunks: seq<Chunk>, fetched: seq<Fetched>, n: nat): seq<Piece>
    requires n <= |chunks| == |fetched|
    requires forall j :: 0 <= j < n ==> fetched[j].Got?
  {
    seq(n, j requires 0 <= j < n => Piece(chunks[j].fileRange.lo, fetched[j].data))
  }

  lemma {:induction false} FetchedUpTo(chunks: seq<Chunk>, fetched: seq<Fetched>, n: nat)
    requires n <= |chunks| == |fetched|
    requires forall j :: 0 <= j < n ==> fetched[j].Got?
    requires n < |fetched| ==> !fetched[n].Got?
    ensures FetchedPieces(chunks, fetched) == PiecesUpTo(chunks, fetched, n)
  {
    if n > 0 {
      FetchedUpTo(chunks[1..], fetched[1..], n - 1);
    }
  }

  /** Positions [lo, lo + n) of the overlay. */
  function Cut(log: seq<Piece>, lo: nat, n: nat): seq<byte> {
    seq(n, i requires 0 <= i => ByteAt(log, lo + i))
  }

  /**
   What the selected chunks make of a window.  The buffer's length is an unsigned difference, so
   with nothing selected it wraps around unless the window starts at 0, and allocating it panics.
   */
  function Assemble(chunks: seq<Chunk>, fetched: seq<Fetched>, offset: nat, size: nat): ReadReply
    requires |chunks| == |fetched|
  {
    var pieces := FetchedPieces(chunks, fetched);
    if ChunkEnd(chunks) < offset then Panicked
    else if |pieces| < |fetched| then
      if fetched[|pieces|].SliceFault? then Panicked else Failed
    else Bytes(Cut(pieces, offset, Min(ChunkEnd(chunks) - offset, size)))
  }

  /** A read of a known file, below the given version bound (0 for the latest contents). */
  function ReadBelow(t: Tables, objects: Objects, layer: Layer, spare: seq<byte>, faults: set<Call>,
                     fileId: nat, bound: nat, offset: nat, size: nat): ReadReply
  {
    if ChunkQuery in faults || offset + size >= INT8_LIMIT then Failed
    else
      var chunks := Selected(t, layer, fileId, bound, Range(offset, offset + size));
      var reply := Assemble(chunks, FetchAll(t, objects, layer, spare, faults, chunks), offset, size);
      if reply.Bytes? && CommitTx in faults then Failed else reply
  }

  // ---------- Selecting pieces ----------

  function Touching(log: seq<Piece>, lo: nat, hi: nat): seq<Piece> {
    if log == [] then []
    else
      var last := log[|log| - 1];
      Touching(log[..|log| - 1], lo, hi) + if last.at < hi && lo < PieceEnd(last) then [last] else []
  }

  lemma {:induction false} TouchingConcat(x: seq<Piece>, y: seq<Piece>, lo: nat, hi: nat)
    ensures Touching(x + y, lo, hi) == Touching(x, lo, hi) + Touching(y, lo, hi)
  {
    if y == [] {
      assert x + y == x;
    } else {
      assert (x + y)[..|x + y| - 1] == x + y[..|y| - 1];
      TouchingConcat(x, y[..|y| - 1], lo, hi);
    }
  }

  /** Overlaying only the pieces that touch the window agrees with overlaying all, inside the window. */
  lemma {:induction false} TouchingByte(log: seq<Piece>, lo: nat, hi: nat, p: nat)
    requires lo <= p < hi
    ensures ByteAt(Touching(log, lo, hi), p) == ByteAt(log, p)
  {
    if log != [] {
      var front, last := log[..|log| - 1], log[|log| - 1];
      TouchingByte(front, lo, hi, p);
      var sel := Touching(front, lo, hi);
      assert (sel + [last])[..|sel|] == sel && sel + [] == sel;
    }
  }

  lemma {:induction false} TouchingIn(log: seq<Piece>, lo: nat, hi: nat, x: Piece)
    ensures x in Touching(log, lo, hi) <==> x in log && x.at < hi && lo < PieceEnd(x)
  {
    if log != [] {
      TouchingIn(log[..|log| - 1], lo, hi, x);
      assert log == log[..|log| - 1] + [log[|log| - 1]];
    }
  }

  lemma {:induction false} EndReached(log: seq<Piece>)
    requires log != [] && End(log) > 0
    ensures exists x :: x in log && PieceEnd(x) == End(log)
  {
    var front, last := log[..|log| - 1], log[|log| - 1];
    if PieceEnd(last) < End(log) {
      EndReached(front);
      var x :| x in front && PieceEnd(x) == End(front);
      assert x in log;
    } else {
      assert last in log;
    }
  }

  lemma EndBounds(log: seq<Piece>, x: Piece)
    requires x in log
    ensures PieceEnd(x) <= End(log)
  {
    var i :| 0 <= i < |log| && log[i] == x;
    PieceBelowEnd(log, i);
  }

  /** The largest end among the touching pieces: never past the log's, and short of it only past the window. */
  lemma TouchingEnd(log: seq<Piece>, lo: nat, hi: nat)
    requires Contiguous(log) && lo < hi
    ensures End(Touching(log, lo, hi)) <= End(log)
    ensures lo < End(log) ==> End(Touching(log, lo, hi)) >= Min(hi, End(log))
    ensures Touching(log, lo, hi) != [] <==> lo < End(log)
  {
    var touching := Touching(log, lo, hi);
    if lo < End(log) {
      var p := Min(hi, End(log)) - 1;
      NoHoles(log, p);
      var i :| 0 <= i < |log| && Covers(log[i], p);
      TouchingIn(log, lo, hi, log[i]);
      EndBounds(touching, log[i]);
    }
    if touching != [] {
      TouchingIn(log, lo, hi, touching[0]);
      EndBounds(log, touching[0]);
      EndBounds(touching, touching[0]);
      EndReached(touching);
      var x :| x in touching && PieceEnd(x) == End(touching);
      TouchingIn(log, lo, hi, x);
      EndBounds(log, x);
    }
  }

  lemma {:induction false} ActiveTouching(layer: Layer, n: nat, lo: nat, hi: nat)
    requires Tiled(layer) && n <= |layer.chunks| && lo < hi
    ensures var sel := ActiveOverlapping(layer.chunks[..n], Range(lo, hi));
            && |sel| == |Touching(ActiveLog(layer)[..n], lo, hi)|
            && forall i :: 0 <= i < |sel| ==>
                 && sel[i] in layer.chunks
                 && ActivePiece(layer, sel[i]) == Touching(ActiveLog(layer)[..n], lo, hi)[i]
  {
    if n > 0 {
      ActiveTouching(layer, n - 1, lo, hi);
      TiledBound(layer, n - 1);
      assert layer.chunks[..n][..n - 1] == layer.chunks[..n - 1];
      assert ActiveLog(layer)[..n][..n - 1] == ActiveLog(layer)[..n - 1];
      assert TiledAt(layer.chunks, n - 1);
    }
  }

  lemma RowPieceShape(t: Tables, objects: Objects, row: ChunkRow)
    requires RowSound(t, objects, row)
    ensures RowPiece(t, objects, row).at == row.fileRange.lo < row.fileRange.hi == PieceEnd(RowPiece(t, objects, row))
  {
  }

  lemma {:induction false} RowsTouching(t: Tables, objects: Objects, rows: seq<ChunkRow>, lo: nat, hi: nat)
    requires lo < hi
    requires forall i :: 0 <= i < |rows| ==> RowSound(t, objects, rows[i])
    ensures RowPieces(t, objects, SelectOverlapping(rows, Range(lo, hi)))
         == Touching(RowPieces(t, objects, rows), lo, hi)
  {
    hide RowPiece, RowSound, PieceEnd;
    if rows != [] {
      var front, last := rows[..|rows| - 1], rows[|rows| - 1];
      RowsTouching(t, objects, front, lo, hi);
      RowPieceShape(t, objects, last);
      assert RowPieces(t, objects, rows)[..|rows| - 1] == RowPieces(t, objects, front);
    }
  }

  // ---------- A read of sound state is the flat window ----------

  /** The files, layers and rows a read relies on. */
  predicate ReadSound(t: Tables, objects: Objects, layer: Layer, fileId: nat, bound: nat) {
    && (forall i :: 0 <= i < |FileRows(t, fileId, Top(t, bound))| ==>
          var row := FileRows(t, fileId, Top(t, bound))[i];
          RowSound(t, objects, row) && row.layerId in t.layers && t.layers[row.layerId].objectKey != "")
    && (bound == 0 ==> Tiled(layer))
    && Contiguous(ReadLog(t, objects, layer, fileId, bound))
  }

  function ReadLog(t: Tables, objects: Objects, layer: Layer, fileId: nat, bound: nat): seq<Piece> {
    CommittedLog(t, objects, fileId, Top(t, bound)) + if bound == 0 then ActiveLog(layer) else []
  }

  /** A committed chunk of one byte: its inclusive byte range is refused by the object store. */
  predicate HasOneByteChunk(chunks: seq<Chunk>) {
    exists i :: 0 <= i < |chunks| && chunks[i].flushed && chunks[i].layerRange.Length() == 1
  }

  /** `chunk`, as selected, stands for `piece`. */
  predicate StandsFor(t: Tables, objects: Objects, layer: Layer, chunk: Chunk, piece: Piece) {
    && chunk.fileRange.lo == piece.at
    && chunk.fileRange.hi == PieceEnd(piece)
    && if chunk.flushed then
         && RowSound(t, objects, ChunkRow(chunk.layerId, chunk.layerRange, chunk.fileRange))
         && chunk.layerId in t.layers && t.layers[chunk.layerId].objectKey != ""
         && piece.bytes == Slice(ObjectBytes(t, objects, chunk.layerId), chunk.layerRange)
       else
         chunk in layer.chunks && piece == ActivePiece(layer, chunk)
  }

  lemma SelectedRows(t: Tables, objects: Objects, layer: Layer, fileId: nat, bound: nat, lo: nat, hi: nat)
    requires ReadSound(t, objects, layer, fileId, bound) && lo < hi
    ensures var sel := ToChunks(OverlappingRows(t, fileId, bound, Range(lo, hi)));
            var touching := Touching(CommittedLog(t, objects, fileId, Top(t, bound)), lo, hi);
            AllStandFor(t, objects, layer, sel, touching)
  {
    hide Contiguous, Touching, SelectOverlapping, FileRows;
    var rows := FileRows(t, fileId, Top(t, bound));
    RowsTouching(t, objects, rows, lo, hi);
    var sel := SelectOverlapping(rows, Range(lo, hi));
    var pieces := RowPieces(t, objects, sel);
    forall i | 0 <= i < |sel| ensures StandsFor(t, objects, layer, ToChunk(sel[i]), pieces[i]) {
      SelectedIn(rows, Range(lo, hi), sel[i]);
      var k :| 0 <= k < |rows| && rows[k] == sel[i];
    }
  }

  lemma SelectedActive(t: Tables, objects: Objects, layer: Layer, lo: nat, hi: nat)
    requires Tiled(layer) && lo < hi
    ensures var sel := ActiveOverlapping(layer.chunks, Range(lo, hi));
            var touching := Touching(ActiveLog(layer), lo, hi);
            AllStandFor(t, objects, layer, sel, touching)
  {
    hide Touching, ActiveOverlapping;
    ActiveTouching(layer, |layer.chunks|, lo, hi);
    assert layer.chunks[..|layer.chunks|] == layer.chunks && ActiveLog(layer)[..|layer.chunks|] == ActiveLog(layer);
    var sel := ActiveOverlapping(layer.chunks, Range(lo, hi));
    var touching := Touching(ActiveLog(layer), lo, hi);
    forall i | 0 <= i < |sel| ensures StandsFor(t, objects, layer, sel[i], touching[i]) {
      assert sel[i] in layer.chunks;
      var k :| 0 <= k < |layer.chunks| && layer.chunks[k] == sel[i];
      TiledBound(layer, k);
    }
  }

  predicate AllStandFor(t: Tables, objects: Objects, layer: Layer, chunks: seq<Chunk>, pieces: seq<Piece>) {
    && |chunks| == |pieces|
    && forall i :: 0 <= i < |chunks| ==> StandsFor(t, objects, layer, chunks[i], pieces[i])
  }

  lemma StandsForConcat(t: Tables, objects: Objects, layer: Layer,
                        chunks: seq<Chunk>, pieces: seq<Piece>, chunks': seq<Chunk>, pieces': seq<Piece>)
    requires AllStandFor(t, objects, layer, chunks, pieces)
    requires AllStandFor(t, objects, layer, chunks', pieces')
    ensures AllStandFor(t, objects, layer, chunks + chunks', pieces + pieces')
  {
  }

  lemma SelectedPieces(t: Tables, objects: Objects, layer: Layer, fileId: nat, bound: nat, lo: nat, hi: nat)
    requires ReadSound(t, objects, layer, fileId, bound) && lo < hi
    ensures var sel := Selected(t, layer, fileId, bound, Range(lo, hi));
            var touching := Touching(ReadLog(t, objects, layer, fileId, bound), lo, hi);
            AllStandFor(t, objects, layer, sel, touching)
  {
    var committed := CommittedLog(t, objects, fileId, Top(t, bound));
    var active := if bound == 0 then ActiveLog(layer) else [];
    TouchingConcat(committed, active, lo, hi);
    SelectedRows(t, objects, layer, fileId, bound, lo, hi);
    if bound == 0 {
      SelectedActive(t, objects, layer, lo, hi);
    }
    StandsForConcat(t, objects, layer,
                    ToChunks(OverlappingRows(t, fileId, bound, Range(lo, hi))), Touching(committed, lo, hi),
                    if bound == 0 then ActiveOverlapping(layer.chunks, Range(lo, hi)) else [],
                    Touching(active, lo, hi));
  }

  lemma {:induction false} ChunkEndPieces(chunks: seq<Chunk>, pieces: seq<Piece>)
    requires |chunks| == |pieces|
    requires forall i :: 0 <= i < |chunks| ==> chunks[i].fileRange.hi == PieceEnd(pieces[i])
    ensures ChunkEnd(chunks) == End(pieces)
  {
    if chunks != [] {
      ChunkEndPieces(chunks[..|chunks| - 1], pieces[..|pieces| - 1]);
    }
  }

  lemma {:induction false} AllFetched(chunks: seq<Chunk>, fetched: seq<Fetched>, pieces: seq<Piece>)
    requires |chunks| == |fetched| == |pieces|
    requires forall i :: 0 <= i < |chunks| ==>
               fetched[i].Got? ==> pieces[i] == Piece(chunks[i].fileRange.lo, fetched[i].data)
    ensures (forall i :: 0 <= i < |chunks| ==> fetched[i].Got?) ==> FetchedPieces(chunks, fetched) == pieces
    ensures |FetchedPieces(chunks, fetched)| <= |fetched|
    ensures var n := |FetchedPieces(chunks, fetched)|; n < |fetched| ==> !fetched[n].Got?
  {
    if chunks != [] && fetched[0].Got? {
      AllFetched(chunks[1..], fetched[1..], pieces[1..]);
    }
  }

  // ---------- The two cases of a fault-free read ----------

  lemma {:induction false} SelectNothing(rows: seq<ChunkRow>, at: nat)
    ensures SelectOverlapping(rows, Range(at, at)) == []
  {
    if rows != [] {
      SelectNothing(rows[..|rows| - 1], at);
    }
  }

  lemma {:induction false} ActiveSelected(chunks: seq<Chunk>, range: Range, c: Chunk)
    ensures c in ActiveOverlapping(chunks, range) <==> c in chunks && RangesOverlap(c.fileRange, range)
  {
    if chunks != [] {
      ActiveSelected(chunks[..|chunks| - 1], range, c);
      assert chunks == chunks[..|chunks| - 1] + [chunks[|chunks| - 1]];
    }
  }

  lemma {:induction false} ChunkEndBound(chunks: seq<Chunk>, i: nat)
    requires i < |chunks|
    ensures chunks[i].fileRange.hi <= ChunkEnd(chunks)
  {
    if i < |chunks| - 1 {
      ChunkEndBound(chunks[..|chunks| - 1], i);
    }
  }

  /** A tiled layer's own slice never reaches the spare capacity. */
  lemma ActiveFetch(layer: Layer, spare: seq<byte>, chunk: Chunk)
    requires Tiled(layer) && chunk in layer.chunks
    ensures FetchActive(layer, spare, chunk) == Got(ActivePiece(layer, chunk).bytes)
    ensures !chunk.flushed
  {
    var k :| 0 <= k < |layer.chunks| && layer.chunks[k] == chunk;
    TiledBound(layer, k);
    var r := chunk.layerRange;
    assert (layer.data + spare)[r.lo..r.hi] == layer.data[r.lo..r.hi];
  }

  /** A sound committed chunk is fetched in full, unless it is a single byte. */
  lemma CommittedFetch(t: Tables, objects: Objects, chunk: Chunk)
    requires RowSound(t, objects, ChunkRow(chunk.layerId, chunk.layerRange, chunk.fileRange))
    requires chunk.layerId in t.layers && t.layers[chunk.layerId].objectKey != ""
    ensures FetchCommitted(t, objects, chunk) ==
              if chunk.layerRange.Length() == 1 then GetFailed
              else Got(Slice(ObjectBytes(t, objects, chunk.layerId), chunk.layerRange))
  {
  }

  lemma EmptyFetch(layer: Layer, spare: seq<byte>, t: Tables, objects: Objects, offset: nat, i: nat)
    requires Tiled(layer)
    requires i < |ActiveOverlapping(layer.chunks, Range(offset, offset))|
    ensures var sel := ActiveOverlapping(layer.chunks, Range(offset, offset));
            Fetch(t, objects, layer, spare, {}, sel, i).Got? && !sel[i].flushed && sel[i].fileRange.hi > offset
  {
    hide Tiled, ActiveOverlapping, FetchActive;
    var sel := ActiveOverlapping(layer.chunks, Range(offset, offset));
    ActiveSelected(layer.chunks, Range(offset, offset), sel[i]);
    ActiveFetch(layer, spare, sel[i]);
  }

  lemma EmptyAssemble(sel: seq<Chunk>, fetched: seq<Fetched>, offset: nat)
    requires |sel| == |fetched| && forall i :: 0 <= i < |sel| ==> fetched[i].Got? && sel[i].fileRange.hi > offset
    ensures Assemble(sel, fetched, offset, 0) == if sel == [] && offset > 0 then Panicked else Bytes([])
  {
    hide FetchedPieces;
    FetchedUpTo(sel, fetched, |sel|);
    if sel != [] {
      ChunkEndBound(sel, 0);
    }
  }

  lemma EmptySelected(t: Tables, layer: Layer, fileId: nat, bound: nat, offset: nat)
    ensures Selected(t, layer, fileId, bound, Range(offset, offset))
         == if bound == 0 then ActiveOverlapping(layer.chunks, Range(offset, offset)) else []
  {
    hide FileRows, SelectOverlapping, ActiveOverlapping;
    SelectNothing(FileRows(t, fileId, Top(t, bound)), offset);
  }

  lemma EmptyRead(t: Tables, objects: Objects, layer: Layer, spare: seq<byte>, fileId: nat, bound: nat, offset: nat)
    requires ReadSound(t, objects, layer, fileId, bound)
    requires offset < 0x8000_0000_0000_0000
    ensures var sel := Selected(t, layer, fileId, bound, Range(offset, offset));
            && !HasOneByteChunk(sel)
            && ReadBelow(t, objects, layer, spare, {}, fileId, bound, offset, 0) ==
                 if sel == [] && offset > 0 then Panicked else Bytes([])
  {
    assert bound == 0 ==> Tiled(layer);
    hide ReadSound, Selected, ActiveOverlapping, Tiled, Fetch, Assemble;
    var sel := Selected(t, layer, fileId, bound, Range(offset, offset));
    EmptySelected(t, layer, fileId, bound, offset);
    var fetched := FetchAll(t, objects, layer, spare, {}, sel);
    forall i | 0 <= i < |sel| ensures fetched[i].Got? && !sel[i].flushed && sel[i].fileRange.hi > offset {
      EmptyFetch(layer, spare, t, objects, offset, i);
    }
    EmptyAssemble(sel, fetched, offset);
  }

  /** The fetches of the selected chunks, in terms of the log's pieces that touch the window. */
  predicate Verdict(sel: seq<Chunk>, fetched: seq<Fetched>, touching: seq<Piece>) {
    && |sel| == |fetched| == |touching|
    && ChunkEnd(sel) == End(touching)
    && var pieces := FetchedPieces(sel, fetched);
       && |pieces| <= |fetched|
       && (HasOneByteChunk(sel) <==> |pieces| < |fetched|)
       && (|pieces| < |fetched| ==> fetched[|pieces|].GetFailed?)
       && (!HasOneByteChunk(sel) ==> pieces == touching)
  }

  lemma VerdictFrom(sel: seq<Chunk>, fetched: seq<Fetched>, touching: seq<Piece>)
    requires |sel| == |fetched| == |touching|
    requires forall i :: 0 <= i < |sel| ==>
               && sel[i].fileRange.lo == touching[i].at
               && sel[i].fileRange.hi == PieceEnd(touching[i])
               && fetched[i] == if sel[i].flushed && sel[i].layerRange.Length() == 1 then GetFailed
                                else Got(touching[i].bytes)
    ensures Verdict(sel, fetched, touching)
  {
    ChunkEndPieces(sel, touching);
    AllFetched(sel, fetched, touching);
    if HasOneByteChunk(sel) {
      var i :| 0 <= i < |sel| && sel[i].flushed && sel[i].layerRange.Length() == 1;
      FetchedAllGot(sel, fetched, i);
    }
  }

  lemma FetchVerdict(t: Tables, objects: Objects, layer: Layer, spare: seq<byte>, fileId: nat, bound: nat, lo: nat,
      hi: nat)
    requires ReadSound(t, objects, layer, fileId, bound) && lo < hi
    ensures var sel := Selected(t, layer, fileId, bound, Range(lo, hi));
            var fetched := FetchAll(t, objects, layer, spare, {}, sel);
            Verdict(sel, fetched, Touching(ReadLog(t, objects, layer, fileId, bound), lo, hi))
  {
    var sel := Selected(t, layer, fileId, bound, Range(lo, hi));
    var fetched := FetchAll(t, objects, layer, spare, {}, sel);
    var touching := Touching(ReadLog(t, objects, layer, fileId, bound), lo, hi);
    SelectedPieces(t, objects, layer, fileId, bound, lo, hi);
    forall i | 0 <= i < |sel|
      ensures sel[i].fileRange.lo == touching[i].at && sel[i].fileRange.hi == PieceEnd(touching[i])
      ensures fetched[i] == if sel[i].flushed && sel[i].layerRange.Length() == 1 then GetFailed
                            else Got(touching[i].bytes)
    {
      assert StandsFor(t, objects, layer, sel[i], touching[i]);
      if sel[i].flushed {
        CommittedFetch(t, objects, sel[i]);
      } else {
        ActiveFetch(layer, spare, sel[i]);
      }
    }
    VerdictFrom(sel, fetched, touching);
  }

  lemma {:induction false} FetchedAllGot(chunks: seq<Chunk>, fetched: seq<Fetched>, i: nat)
    requires |chunks| == |fetched| && i < |chunks| && !fetched[i].Got?
    ensures |FetchedPieces(chunks, fetched)| <= i
  {
    if fetched[0].Got? {
      FetchedAllGot(chunks[1..], fetched[1..], i - 1);
    }
  }

  lemma CutIsWindow(sub: seq<Piece>, log: seq<Piece>, offset: nat, size: nat, end: nat)
    requires offset < end && Min(end, offset + size) == Min(offset + size, End(log))
    requires forall p :: offset <= p < Min(offset + size, End(log)) ==> ByteAt(sub, p) == ByteAt(log, p)
    ensures Cut(sub, offset, Min(end - offset, size)) == Window(Contents(log), offset, size)
  {
    var a, b := Cut(sub, offset, Min(end - offset, size)), Window(Contents(log), offset, size);
    forall i | 0 <= i < |a| ensures a[i] == b[i] {
      assert a[i] == ByteAt(sub, offset + i);
    }
  }

  /** Cutting the window out of the touching pieces alone gives the window of the whole file. */
  lemma TouchingWindow(log: seq<Piece>, offset: nat, size: nat)
    requires Contiguous(log) && offset < End(log) && size > 0
    ensures var touching := Touching(log, offset, offset + size);
            && offset < End(touching)
            && Cut(touching, offset, Min(End(touching) - offset, size)) == Window(Contents(log), offset, size)
  {
    hide Contiguous, Touching, ByteAt, End, Contents, Cut, Window;
    var touching := Touching(log, offset, offset + size);
    TouchingEnd(log, offset, offset + size);
    forall p | offset <= p < Min(offset + size, End(log)) ensures ByteAt(touching, p) == ByteAt(log, p) {
      TouchingByte(log, offset, offset + size, p);
    }
    CutIsWindow(touching, log, offset, size, End(touching));
  }

  /** What a fault-free read of sound state answers, given the chunks it selects. */
  function SoundReply(sel: seq<Chunk>, flat: seq<byte>, offset: nat, size: nat): ReadReply {
    if sel == [] && offset > 0 then Panicked
    else if HasOneByteChunk(sel) then Failed
    else Bytes(Window(flat, offset, size))
  }

  lemma AssembleIs(chunks: seq<Chunk>, fetched: seq<Fetched>, offset: nat, size: nat, window: seq<byte>, oneByte: bool)
    requires |chunks| == |fetched|
    requires var n := |FetchedPieces(chunks, fetched)|;
             n <= |fetched| && (oneByte <==> n < |fetched|) && (n < |fetched| ==> fetched[n].GetFailed?)
    requires chunks != [] ==> offset < ChunkEnd(chunks)
    requires chunks != [] && !oneByte ==>
               Cut(FetchedPieces(chunks, fetched), offset, Min(ChunkEnd(chunks) - offset, size)) == window
    requires chunks == [] ==> window == []
    ensures Assemble(chunks, fetched, offset, size) ==
              if chunks == [] && offset > 0 then Panicked else if oneByte then Failed else Bytes(window)
  {
  }

  lemma AssembleWindow(sel: seq<Chunk>, fetched: seq<Fetched>, log: seq<Piece>, offset: nat, size: nat)
    requires Contiguous(log) && size > 0
    requires Verdict(sel, fetched, Touching(log, offset, offset + size))
    ensures sel != [] <==> offset < End(log)
    ensures Assemble(sel, fetched, offset, size) == SoundReply(sel, Contents(log), offset, size)
  {
    hide Contiguous, Touching, End, Contents, Cut, ChunkEnd, FetchedPieces, Assemble, HasOneByteChunk;
    TouchingEnd(log, offset, offset + size);
    if sel != [] {
      TouchingWindow(log, offset, size);
    }
    AssembleIs(sel, fetched, offset, size, Window(Contents(log), offset, size), HasOneByteChunk(sel));
  }

  lemma NonEmptyRead(t: Tables, objects: Objects, layer: Layer, spare: seq<byte>, fileId: nat, bound: nat,
      offset: nat, size: nat)
    requires size > 0 && offset + size < 0x8000_0000_0000_0000
    requires Contiguous(ReadLog(t, objects, layer, fileId, bound))
    requires var sel := Selected(t, layer, fileId, bound, Range(offset, offset + size));
             Verdict(sel, FetchAll(t, objects, layer, spare, {}, sel),
                     Touching(ReadLog(t, objects, layer, fileId, bound), offset, offset + size))
    ensures var sel := Selected(t, layer, fileId, bound, Range(offset, offset + size));
            && (sel != [] <==> offset < End(ReadLog(t, objects, layer, fileId, bound)))
            && ReadBelow(t, objects, layer, spare, {}, fileId, bound, offset, size)
            == SoundReply(sel, Contents(ReadLog(t, objects, layer, fileId, bound)), offset, size)
  {
    var sel := Selected(t, layer, fileId, bound, Range(offset, offset + size));
    AssembleWindow(sel, FetchAll(t, objects, layer, spare, {}, sel),
                   ReadLog(t, objects, layer, fileId, bound), offset, size);
  }

  /**
   A fault-free read of sound state, for every offset and size: it answers the flat window exactly
   when something is selected (or the window starts at 0) and no selected committed chunk is a
   single byte; otherwise it panics on the wrapped buffer length, or fails on the one-byte get.
   A non-empty window selects something exactly when it starts inside the file.
   */
  lemma ReadExact(t: Tables, objects: Objects, layer: Layer, spare: seq<byte>, fileId: nat, bound: nat, offset: nat,
      size: nat)
    requires ReadSound(t, objects, layer, fileId, bound)
    requires offset + size < 0x8000_0000_0000_0000
    ensures var sel := Selected(t, layer, fileId, bound, Range(offset, offset + size));
            var flat := Contents(ReadLog(t, objects, layer, fileId, bound));
            && ReadBelow(t, objects, layer, spare, {}, fileId, bound, offset, size)
               == SoundReply(sel, flat, offset, size)
            && (size > 0 ==> (sel != [] <==> offset < |flat|))
  {
    hide Contiguous, Touching, End, Verdict, Selected, ReadBelow, FetchAll;
    if size == 0 {
      EmptyRead(t, objects, layer, spare, fileId, bound, offset);
    } else {
      FetchVerdict(t, objects, layer, spare, fileId, bound, offset, offset + size);
      NonEmptyRead(t, objects, layer, spare, fileId, bound, offset, size);
    }
  }

  // ---------- Failures ----------

  lemma FaultyFetch(t: Tables, objects: Objects, layer: Layer, spare: seq<byte>, faults: set<Call>, chunks: seq<Chunk>)
    requires var fetched := FetchAll(t, objects, layer, spare, faults, chunks);
             |FetchedPieces(chunks, fetched)| == |fetched|
    ensures FetchAll(t, objects, layer, spare, faults, chunks) == FetchAll(t, objects, layer, spare, {}, chunks)
  {
    var fetched := FetchAll(t, objects, layer, spare, faults, chunks);
    forall i | 0 <= i < |fetched| ensures fetched[i] == FetchAll(t, objects, layer, spare, {}, chunks)[i] {
      if !fetched[i].Got? {
        FetchedAllGot(chunks, fetched, i);
      }
    }
  }

  /** Whatever fails, a read that answers at all answers what it answers when nothing fails. */
  lemma FaultyRead(t: Tables, objects: Objects, layer: Layer, spare: seq<byte>, faults: set<Call>, fileId: nat,
                   bound: nat, offset: nat, size: nat)
    requires ReadBelow(t, objects, layer, spare, faults, fileId, bound, offset, size).Bytes?
    ensures ReadBelow(t, objects, layer, spare, faults, fileId, bound, offset, size)
         == ReadBelow(t, objects, layer, spare, {}, fileId, bound, offset, size)
  {
    hide Selected, FetchedPieces;
    var chunks := Selected(t, layer, fileId, bound, Range(offset, offset + size));
    var fetched := FetchAll(t, objects, layer, spare, faults, chunks);
    assert |FetchedPieces(chunks, fetched)| <= |fetched| by { FetchedShorter(chunks, fetched); }
    FaultyFetch(t, objects, layer, spare, faults, chunks);
  }

  lemma {:induction false} FetchedShorter(chunks: seq<Chunk>, fetched: seq<Fetched>)
    requires |chunks| == |fetched|
    ensures |FetchedPieces(chunks, fetched)| <= |fetched|
  {
    if chunks != [] && fetched[0].Got? {
      FetchedShorter(chunks[1..], fetched[1..]);
    }
  }

  /** The get of one of the flushed chunks fails. */
  predicate GetFails(chunks: seq<Chunk>, faults: set<Call>) {
    exists i :: 0 <= i < |chunks| && chunks[i].flushed && Get(i) in faults
  }

  lemma NoSliceFault(t: Tables, objects: Objects, layer: Layer, spare: seq<byte>, faults: set<Call>, fileId: nat,
                     bound: nat, lo: nat, hi: nat)
    requires ReadSound(t, objects, layer, fileId, bound) && lo < hi
    ensures var sel := Selected(t, layer, fileId, bound, Range(lo, hi));
            forall i :: 0 <= i < |sel| ==> !FetchAll(t, objects, layer, spare, faults, sel)[i].SliceFault?
  {
    hide ReadSound, Selected, ReadLog, Touching, Tiled, RowSound, FetchActive;
    var sel := Selected(t, layer, fileId, bound, Range(lo, hi));
    SelectedPieces(t, objects, layer, fileId, bound, lo, hi);
    forall i | 0 <= i < |sel| ensures !FetchAll(t, objects, layer, spare, faults, sel)[i].SliceFault? {
      assert StandsFor(t, objects, layer, sel[i], Touching(ReadLog(t, objects, layer, fileId, bound), lo, hi)[i]);
      if !sel[i].flushed {
        UnflushedLatest(t, layer, fileId, bound, Range(lo, hi), i);
        UnflushedFetch(t, objects, layer, spare, fileId, bound, sel, i);
      }
    }
  }

  lemma UnflushedLatest(t: Tables, layer: Layer, fileId: nat, bound: nat, range: Range, i: nat)
    requires i < |Selected(t, layer, fileId, bound, range)| && !Selected(t, layer, fileId, bound, range)[i].flushed
    ensures bound == 0
  {
    hide OverlappingRows, ActiveOverlapping;
  }

  lemma UnflushedFetch(t: Tables, objects: Objects, layer: Layer, spare: seq<byte>, fileId: nat, bound: nat,
                       sel: seq<Chunk>, i: nat)
    requires ReadSound(t, objects, layer, fileId, bound) && i < |sel| && !sel[i].flushed && sel[i] in layer.chunks
    requires bound == 0
    ensures FetchActive(layer, spare, sel[i]).Got?
  {
    hide Tiled, Contiguous, FileRows, RowSound;
    ActiveFetch(layer, spare, sel[i]);
  }

  lemma SameFetches(t: Tables, objects: Objects, layer: Layer, spare: seq<byte>, faults: set<Call>, chunks: seq<Chunk>)
    requires !GetFails(chunks, faults)
    ensures FetchAll(t, objects, layer, spare, faults, chunks) == FetchAll(t, objects, layer, spare, {}, chunks)
  {
    hide FetchActive, FetchCommitted;
  }

  /** A fetch that fails without a fault of its own: the read fails, unless the window misses the chunks. */
  lemma AssembleFails(chunks: seq<Chunk>, fetched: seq<Fetched>, offset: nat, size: nat, i: nat)
    requires |chunks| == |fetched| && i < |fetched| && !fetched[i].Got? && offset <= ChunkEnd(chunks)
    requires forall j :: 0 <= j < |fetched| ==> !fetched[j].SliceFault?
    ensures Assemble(chunks, fetched, offset, size) == Failed
  {
    hide FetchedPieces, ChunkEnd;
    FetchedAllGot(chunks, fetched, i);
  }

  /**
   The answer of a read of sound state, for every window and whatever fails, of the calls it makes: a
   panic when nothing overlaps above offset 0; an error when a one-byte flushed chunk overlaps, a get or
   the commit fails, or before all that the chunk query fails or the window ends past the bigints; and in
   every other case the flat window.
   */
  lemma ReadUnderFaults(t: Tables, objects: Objects, layer: Layer, spare: seq<byte>, faults: set<Call>, fileId: nat,
                        bound: nat, offset: nat, size: nat)
    requires ReadSound(t, objects, layer, fileId, bound)
    ensures var sel := Selected(t, layer, fileId, bound, Range(offset, offset + size));
            ReadBelow(t, objects, layer, spare, faults, fileId, bound, offset, size) ==
              if ChunkQuery in faults || offset + size >= 0x8000_0000_0000_0000 then Failed
              else if sel == [] && offset > 0 then Panicked
              else if HasOneByteChunk(sel) || GetFails(sel, faults) || CommitTx in faults then Failed
              else Bytes(Window(Contents(ReadLog(t, objects, layer, fileId, bound)), offset, size))
  {
    hide ReadSound, Selected, HasOneByteChunk, Contents, ReadLog, FetchAll, Assemble, Window, GetFails;
    if ChunkQuery !in faults && offset + size < 0x8000_0000_0000_0000 {
      var sel := Selected(t, layer, fileId, bound, Range(offset, offset + size));
      ReadExact(t, objects, layer, spare, fileId, bound, offset, size);
      if GetFails(sel, faults) {
        GetFailure(t, objects, layer, spare, faults, fileId, bound, offset, size);
      } else {
        SameFetches(t, objects, layer, spare, faults, sel);
      }
    }
  }

  lemma GetFailure(t: Tables, objects: Objects, layer: Layer, spare: seq<byte>, faults: set<Call>, fileId: nat,
                   bound: nat, offset: nat, size: nat)
    requires ReadSound(t, objects, layer, fileId, bound)
    requires GetFails(Selected(t, layer, fileId, bound, Range(offset, offset + size)), faults)
    ensures var sel := Selected(t, layer, fileId, bound, Range(offset, offset + size));
            sel != [] && Assemble(sel, FetchAll(t, objects, layer, spare, faults, sel), offset, size) == Failed
  {
    hide ReadSound, Selected, Assemble, FetchActive, FetchCommitted, ChunkEnd;
    var sel := Selected(t, layer, fileId, bound, Range(offset, offset + size));
    if size == 0 {
      NoEmptyGets(t, objects, layer, faults, fileId, bound, offset);
      assert false;
    } else {
      var i :| 0 <= i < |sel| && sel[i].flushed && Get(i) in faults;
      NoSliceFault(t, objects, layer, spare, faults, fileId, bound, offset, offset + size);
      SelectedTouches(t, layer, fileId, bound, Range(offset, offset + size), i);
      ChunkEndBound(sel, i);
      AssembleFails(sel, FetchAll(t, objects, layer, spare, faults, sel), offset, size, i);
    }
  }

  lemma EmptyUnflushed(t: Tables, objects: Objects, layer: Layer, fileId: nat, bound: nat, offset: nat, i: nat)
    requires ReadSound(t, objects, layer, fileId, bound)
    requires i < |Selected(t, layer, fileId, bound, Range(offset, offset))|
    ensures !Selected(t, layer, fileId, bound, Range(offset, offset))[i].flushed
  {
    assert bound == 0 ==> Tiled(layer);
    hide ReadSound, Selected, ActiveOverlapping, Tiled, Fetch;
    EmptySelected(t, layer, fileId, bound, offset);
    EmptyFetch(layer, [], t, objects, offset, i);
  }

  lemma NoEmptyGets(t: Tables, objects: Objects, layer: Layer, faults: set<Call>, fileId: nat, bound: nat, offset: nat)
    requires ReadSound(t, objects, layer, fileId, bound)
    ensures !GetFails(Selected(t, layer, fileId, bound, Range(offset, offset)), faults)
  {
    hide ReadSound, Selected;
    var sel := Selected(t, layer, fileId, bound, Range(offset, offset));
    forall i | 0 <= i < |sel| ensures !sel[i].flushed {
      EmptyUnflushed(t, objects, layer, fileId, bound, offset, i);
    }
  }

  lemma SelectedTouches(t: Tables, layer: Layer, fileId: nat, bound: nat, range: Range, i: nat)
    requires i < |Selected(t, layer, fileId, bound, range)|
    ensures range.lo < Selected(t, layer, fileId, bound, range)[i].fileRange.hi
  {
    hide FileRows, SelectOverlapping, ActiveOverlapping;
    var rows := OverlappingRows(t, fileId, bound, range);
    if i < |rows| {
      SelectedIn(FileRows(t, fileId, Top(t, bound)), range, rows[i]);
    } else {
      ActiveSelected(layer.chunks, range, Selected(t, layer, fileId, bound, range)[i]);
    }
  }
}
