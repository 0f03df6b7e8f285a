/**
 The metadata tables and the object store, with the queries the storage manager asks.

 A serial column is modelled by the last id drawn from it; ids start at 1 and, as sequences are not
 rolled back, are never drawn twice.  The chunk table is kept in id order, so an id is a position.
 */
module Tables {
  import opened FlatFile
  import opened Overlay
  import opened Layers
  import opened Ranges

  datatype Option<+T> = None | Some(value: T)

  datatype LayerRow = LayerRow(fileId: nat, versionId: nat, objectKey: string)

  datatype ChunkRow = ChunkRow(layerId: nat, layerRange: Range, fileRange: Range)

  datatype Tables = Tables(
    files: map<string, nat>,
    versions: map<nat, string>,
    layers: map<nat, LayerRow>,
    chunks: seq<ChunkRow>,
    heads: map<nat, nat>,
    lastFile: nat,
    lastVersion: nat,
    lastLayer: nat)

  type Objects = map<string, seq<byte>>

  const EMPTY_TABLES := Tables(map[], map[], map[], [], map[], 0, 0, 0)

  // ---------- Queries ----------

  /** GetLayerChunks: the rows of one layer, by chunk id. */
  function RowsOf(chunks: seq<ChunkRow>, layerId: nat): seq<ChunkRow> {
    if chunks == [] then []
    else
      var last := chunks[|chunks| - 1];
      RowsOf(chunks[..|chunks| - 1], layerId) + if last.layerId == layerId then [last] else []
  }

  predicate IsLayerOf(t: Tables, fileId: nat, layerId: nat) {
    layerId in t.layers && t.layers[layerId].fileId == fileId
  }

  /** The rows of a file's layers up to `top`, by layer id and then by chunk id. */
  function FileRows(t: Tables, fileId: nat, top: nat): seq<ChunkRow> {
    if top == 0 then []
    else
      FileRows(t, fileId, top - 1) + if IsLayerOf(t, fileId, top) then RowsOf(t.chunks, top) else []
  }

  /** The `&&` of two ranges; nothing overlaps an empty one. */
  predicate SqlOverlap(a: Range, b: Range) {
    !a.IsEmpty() && !b.IsEmpty() && RangesOverlap(a, b)
  }

  /** So two ranges overlap exactly if they have a position in common. */
  lemma SqlOverlapExact(a: Range, b: Range)
    ensures SqlOverlap(a, b) <==> exists p :: a.Has(p) && b.Has(p)
  {
    if SqlOverlap(a, b) {
      assert a.Has(Max(a.lo, b.lo)) && b.Has(Max(a.lo, b.lo));
    }
  }

  function SelectOverlapping(rows: seq<ChunkRow>, range: Range): seq<ChunkRow> {
    if rows == [] then []
    else
      var last := rows[|rows| - 1];
      SelectOverlapping(rows[..|rows| - 1], range) + if SqlOverlap(last.fileRange, range) then [last] else []
  }

  /** Bound 0 stands for no bound: then every layer there is qualifies. */
  function Top(t: Tables, bound: nat): nat {
    if bound == 0 then t.lastLayer else bound
  }

  /** GetOverlappingChunksWithVersion. */
  function OverlappingRows(t: Tables, fileId: nat, bound: nat, range: Range): seq<ChunkRow> {
    SelectOverlapping(FileRows(t, fileId, Top(t, bound)), range)
  }

  datatype SizeReply = Size(bytes: nat) | SizeFailed

  function RowsEnd(rows: seq<ChunkRow>): nat {
    if rows == [] then 0
    else Max(RowsEnd(rows[..|rows| - 1]), rows[|rows| - 1].fileRange.hi)
  }

  predicate HasEmptyRange(rows: seq<ChunkRow>) {
    exists i :: 0 <= i < |rows| && rows[i].fileRange.IsEmpty()
  }

  /**
   CalcFileSize: no rows count as size 0.  UPPER of an empty range is NULL and NULL sorts first
   in descending order, so one empty range makes the answer NULL, which the caller cannot scan.
   */
  function CalcFileSize(t: Tables, fileId: nat): SizeReply {
    var rows := FileRows(t, fileId, t.lastLayer);
    if HasEmptyRange(rows) then SizeFailed else Size(RowsEnd(rows))
  }

  /** GetHeadVersion: the version id and tag the file's head joins with. */
  function HeadVersion(t: Tables, fileId: nat): Option<(nat, string)> {
    if fileId in t.heads && t.heads[fileId] in t.versions
    then Some((t.heads[fileId], t.versions[t.heads[fileId]]))
    else None
  }

  /** The rows GetLayerByVersion selects; the driver hands over any one of them. */
  function LayersTagged(t: Tables, fileId: nat, tag: string): set<nat> {
    set l | l in t.layers && t.layers[l].fileId == fileId
            && t.layers[l].versionId in t.versions && t.versions[t.layers[l].versionId] == tag
  }

  // ---------- Object keys and ranged gets ----------

  function ObjectKey(name: string, fileId: nat, versionId: nat): string {
    "layers/" + name + "/" + Decimal(fileId) + "-" + Decimal(versionId)
  }

  lemma LastDash(a: string, x: string, b: string, y: string)
    requires AllDigits(x) && AllDigits(y)
    requires a + "-" + x == b + "-" + y
    ensures x == y
  {
    var s, s' := a + "-" + x, b + "-" + y;
    assert s[|a|] == '-' && s'[|b|] == '-';
    assert forall i :: |a| < i < |s| ==> IsDigit(s[i]);
    assert forall i :: |b| < i < |s'| ==> IsDigit(s'[i]);
    assert x == s[|a| + 1..] == s'[|b| + 1..] == y;
  }

  /** Keys of distinct versions differ, whatever the file names contain. */
  lemma ObjectKeyVersion(name: string, fileId: nat, versionId: nat, name': string, fileId': nat, versionId': nat)
    requires ObjectKey(name, fileId, versionId) == ObjectKey(name', fileId', versionId')
    ensures versionId == versionId'
  {
    LastDash("layers/" + name + "/" + Decimal(fileId), Decimal(versionId),
             "layers/" + name' + "/" + Decimal(fileId'), Decimal(versionId'));
    DecimalInjective(versionId, versionId');
  }

  datatype ObjectReply = Object(data: seq<byte>) | NoObject

  /**
   GetObject over the inclusive byte range [first, last] (section 14.1.2 of RFC 9110).  The store's
   own check refuses first == last; a range starting past the object is not satisfiable; one
   reaching past its end is cut there.
   */
  function GetObject(objects: Objects, key: string, first: nat, last: nat): ObjectReply {
    if first >= last || key !in objects || first >= |objects[key]| then NoObject
    else Object(objects[key][first..Min(last + 1, |objects[key]|)])
  }

  // ---------- What the committed rows denote ----------

  function ObjectBytes(t: Tables, objects: Objects, layerId: nat): seq<byte> {
    if layerId in t.layers && t.layers[layerId].objectKey in objects
    then objects[t.layers[layerId].objectKey]
    else []
  }

  function RowPiece(t: Tables, objects: Objects, row: ChunkRow): Piece {
    Piece(row.fileRange.lo, Slice(ObjectBytes(t, objects, row.layerId), row.layerRange))
  }

  function RowPieces(t: Tables, objects: Objects, rows: seq<ChunkRow>): seq<Piece> {
    seq(|rows|, i requires 0 <= i < |rows| => RowPiece(t, objects, rows[i]))
  }

  function CommittedLog(t: Tables, objects: Objects, fileId: nat, top: nat): seq<Piece> {
    RowPieces(t, objects, FileRows(t, fileId, top))
  }

  /** The row lies within its layer's object, is not empty, and its ranges match. */
  predicate RowSound(t: Tables, objects: Objects, row: ChunkRow) {
    && Matched(row.layerRange, row.fileRange)
    && !row.layerRange.IsEmpty()
    && row.layerRange.hi <= |ObjectBytes(t, objects, row.layerId)|
  }

  // ---------- How rows behave when tables grow ----------

  lemma {:induction false} RowsOfAppend(chunks: seq<ChunkRow>, more: seq<ChunkRow>, layerId: nat)
    ensures RowsOf(chunks + more, layerId) == RowsOf(chunks, layerId) + RowsOf(more, layerId)
  {
    if more == [] {
      assert chunks + more == chunks;
    } else {
      assert (chunks + more)[..|chunks + more| - 1] == chunks + more[..|more| - 1];
      RowsOfAppend(chunks, more[..|more| - 1], layerId);
    }
  }

  lemma {:induction false} RowsOfAll(rows: seq<ChunkRow>, layerId: nat)
    requires forall i :: 0 <= i < |rows| ==> rows[i].layerId == layerId
    ensures RowsOf(rows, layerId) == rows
  {
    if rows != [] {
      RowsOfAll(rows[..|rows| - 1], layerId);
    }
  }

  lemma {:induction false} RowsOfNone(rows: seq<ChunkRow>, layerId: nat)
    requires forall i :: 0 <= i < |rows| ==> rows[i].layerId != layerId
    ensures RowsOf(rows, layerId) == []
  {
    if rows != [] {
      RowsOfNone(rows[..|rows| - 1], layerId);
    }
  }

  lemma {:induction false} RowsOfIn(chunks: seq<ChunkRow>, layerId: nat, row: ChunkRow)
    ensures row in RowsOf(chunks, layerId) <==> row in chunks && row.layerId == layerId
  {
    if chunks != [] {
      RowsOfIn(chunks[..|chunks| - 1], layerId, row);
      assert chunks == chunks[..|chunks| - 1] + [chunks[|chunks| - 1]];
    }
  }

  /** FileRows selects the file's rows up to the bound: no row lost, none of another file. */
  lemma {:induction false} FileRowsIn(t: Tables, fileId: nat, top: nat, row: ChunkRow)
    ensures row in FileRows(t, fileId, top) <==>
            row in t.chunks && 0 < row.layerId <= top && IsLayerOf(t, fileId, row.layerId)
  {
    if top > 0 {
      FileRowsIn(t, fileId, top - 1, row);
      RowsOfIn(t.chunks, top, row);
    }
  }

  lemma {:induction false} SelectedIn(rows: seq<ChunkRow>, range: Range, row: ChunkRow)
    ensures row in SelectOverlapping(rows, range) <==> row in rows && SqlOverlap(row.fileRange, range)
  {
    if rows != [] {
      SelectedIn(rows[..|rows| - 1], range, row);
      assert rows == rows[..|rows| - 1] + [rows[|rows| - 1]];
    }
  }

  // ---------- The order of the versioned chunk query ----------

  /** The chunk ids behind RowsOf. */
  function RowIdsOf(chunks: seq<ChunkRow>, layerId: nat): seq<nat> {
    if chunks == [] then []
    else
      var n := |chunks| - 1;
      RowIdsOf(chunks[..n], layerId) + if chunks[n].layerId == layerId then [n] else []
  }

  /** The chunk ids behind FileRows. */
  function FileRowIds(t: Tables, fileId: nat, top: nat): seq<nat> {
    if top == 0 then []
    else
      FileRowIds(t, fileId, top - 1) + if IsLayerOf(t, fileId, top) then RowIdsOf(t.chunks, top) else []
  }

  lemma {:induction false} RowIdsExact(chunks: seq<ChunkRow>, layerId: nat)
    ensures var ids, rows := RowIdsOf(chunks, layerId), RowsOf(chunks, layerId);
            && |ids| == |rows|
            && (forall i :: 0 <= i < |ids| ==>
                  ids[i] < |chunks| && chunks[ids[i]] == rows[i] && rows[i].layerId == layerId)
            && (forall i, j :: 0 <= i < j < |ids| ==> ids[i] < ids[j])
  {
    if chunks != [] {
      var n := |chunks| - 1;
      RowIdsExact(chunks[..n], layerId);
    }
  }

  lemma {:induction false} RowIdsIn(chunks: seq<ChunkRow>, layerId: nat, id: nat)
    ensures id in RowIdsOf(chunks, layerId) <==> id < |chunks| && chunks[id].layerId == layerId
  {
    if chunks != [] {
      RowIdsIn(chunks[..|chunks| - 1], layerId, id);
    }
  }

  lemma {:induction false} FileRowIdsIn(t: Tables, fileId: nat, top: nat, id: nat)
    ensures id in FileRowIds(t, fileId, top) <==>
            id < |t.chunks| && 0 < t.chunks[id].layerId <= top && IsLayerOf(t, fileId, t.chunks[id].layerId)
  {
    if top > 0 {
      hide RowIdsOf;
      FileRowIdsIn(t, fileId, top - 1, id);
      RowIdsIn(t.chunks, top, id);
    }
  }

  /** The rows with these ids. */
  predicate AreRows(chunks: seq<ChunkRow>, ids: seq<nat>, rows: seq<ChunkRow>) {
    |ids| == |rows| && forall i :: 0 <= i < |ids| ==> ids[i] < |chunks| && chunks[ids[i]] == rows[i]
  }

  /** By layer id, and within a layer by chunk id; so no id comes twice. */
  predicate InOrder(ids: seq<nat>, rows: seq<ChunkRow>)
    requires |ids| == |rows|
  {
    forall i, j :: 0 <= i < j < |ids| ==>
      rows[i].layerId < rows[j].layerId || (rows[i].layerId == rows[j].layerId && ids[i] < ids[j])
  }

  lemma NextLayerRows(chunks: seq<ChunkRow>, ids: seq<nat>, rows: seq<ChunkRow>, ids': seq<nat>, rows': seq<ChunkRow>,
                      top: nat)
    requires AreRows(chunks, ids, rows) && AreRows(chunks, ids', rows') && InOrder(ids, rows)
    requires forall i :: 0 <= i < |rows| ==> rows[i].layerId < top
    requires forall i :: 0 <= i < |rows'| ==> rows'[i].layerId == top
    requires forall i, j :: 0 <= i < j < |ids'| ==> ids'[i] < ids'[j]
    ensures AreRows(chunks, ids + ids', rows + rows') && InOrder(ids + ids', rows + rows')
  {
  }

  /**
   The query's rows, exactly: those of the file's layers up to the bound, each once, ordered by layer
   id and within a layer by chunk id.
   */
  lemma {:induction false} FileRowsExact(t: Tables, fileId: nat, top: nat)
    ensures var ids, rows := FileRowIds(t, fileId, top), FileRows(t, fileId, top);
            && AreRows(t.chunks, ids, rows) && InOrder(ids, rows)
            && (forall id :: 0 <= id < |t.chunks| ==>
                  (id in ids <==> 0 < t.chunks[id].layerId <= top && IsLayerOf(t, fileId, t.chunks[id].layerId)))
            && (forall i :: 0 <= i < |rows| ==> rows[i].layerId <= top)
  {
    if top > 0 {
      hide RowIdsOf, RowsOf;
      FileRowsExact(t, fileId, top - 1);
      RowIdsExact(t.chunks, top);
      if IsLayerOf(t, fileId, top) {
        NextLayerRows(t.chunks, FileRowIds(t, fileId, top - 1), FileRows(t, fileId, top - 1),
                      RowIdsOf(t.chunks, top), RowsOf(t.chunks, top), top);
      }
    }
    forall id: nat | id < |t.chunks|
      ensures id in FileRowIds(t, fileId, top) <==>
              0 < t.chunks[id].layerId <= top && IsLayerOf(t, fileId, t.chunks[id].layerId)
    {
      FileRowIdsIn(t, fileId, top, id);
    }
  }

  /** What a file's rows up to `top` depend on: its own layers up to `top`, and their rows. */
  predicate SameRows(t: Tables, t': Tables, fileId: nat, top: nat) {
    forall l :: 0 < l <= top ==>
      && (IsLayerOf(t, fileId, l) <==> IsLayerOf(t', fileId, l))
      && (IsLayerOf(t, fileId, l) ==> RowsOf(t.chunks, l) == RowsOf(t'.chunks, l))
  }

  lemma {:induction false} FileRowsFrame(t: Tables, t': Tables, fileId: nat, top: nat)
    requires SameRows(t, t', fileId, top)
    ensures FileRows(t, fileId, top) == FileRows(t', fileId, top)
  {
    if top > 0 {
      FileRowsFrame(t, t', fileId, top - 1);
      assert IsLayerOf(t, fileId, top) <==> IsLayerOf(t', fileId, top);
    }
  }

  /** Ids above the file's last layer select nothing. */
  lemma {:induction false} FileRowsAbove(t: Tables, fileId: nat, low: nat, top: nat)
    requires low <= top && forall l :: low < l <= top ==> !IsLayerOf(t, fileId, l)
    ensures FileRows(t, fileId, top) == FileRows(t, fileId, low)
  {
    if low < top {
      FileRowsAbove(t, fileId, low, top - 1);
    }
  }

  lemma {:induction false} FileRowsPrefix(t: Tables, f: nat, low: nat, top: nat)
    requires low <= top
    ensures FileRows(t, f, low) <= FileRows(t, f, top)
  {
    if low < top {
      FileRowsPrefix(t, f, low, top - 1);
    }
  }

  /** The rows of a new layer come after all others of its file. */
  lemma NewLayerRows(t: Tables, t': Tables, f: nat, id: nat, rows: seq<ChunkRow>)
    requires id > 0 && t'.chunks == t.chunks + rows && IsLayerOf(t', f, id)
    requires forall l: nat :: l < id ==> (IsLayerOf(t, f, l) <==> IsLayerOf(t', f, l))
    requires forall i :: 0 <= i < |rows| ==> rows[i].layerId == id
    requires forall i :: 0 <= i < |t.chunks| ==> t.chunks[i].layerId != id
    ensures FileRows(t', f, id) == FileRows(t, f, id - 1) + rows
    ensures RowsOf(t'.chunks, id) == rows
  {
    hide IsLayerOf, RowsOf, FileRows;
    assert SameRows(t, t', f, id - 1) by {
      forall l | 0 < l <= id - 1 ensures RowsOf(t'.chunks, l) == RowsOf(t.chunks, l) {
        RowsOfAppend(t.chunks, rows, l);
        RowsOfNone(rows, l);
      }
    }
    hide SameRows;
    FileRowsFrame(t, t', f, id - 1);
    RowsOfAppend(t.chunks, rows, id);
    RowsOfNone(t.chunks, id);
    RowsOfAll(rows, id);
    FileRowsTop(t', f, id);
  }

  lemma FileRowsTop(t: Tables, f: nat, top: nat)
    requires top > 0 && IsLayerOf(t, f, top)
    ensures FileRows(t, f, top) == FileRows(t, f, top - 1) + RowsOf(t.chunks, top)
  {
  }
}
