/**
 The meaning of a chunk log: each piece covers a stretch of the file, and at every position
 the newest piece that covers it wins.  Nothing here mentions layers, tables or buffers.
 */
module Overlay {
  import opened FlatFile

  datatype Piece = Piece(at: nat, bytes: seq<byte>)

  function PieceEnd(x: Piece): nat {
    x.at + |x.bytes|
  }

  predicate Covers(x: Piece, p: nat) {
    x.at <= p < PieceEnd(x)
  }

  predicate Covered(log: seq<Piece>, p: nat) {
    exists i :: 0 <= i < |log| && Covers(log[i], p)
  }

  /** The byte at `p`: taken from the newest covering piece, zero where nothing covers. */
  function ByteAt(log: seq<Piece>, p: nat): byte {
    if log == [] then 0
    else
      var last := log[|log| - 1];
      if Covers(last, p) then last.bytes[p - last.at] else ByteAt(log[..|log| - 1], p)
  }

  /** The highest end over all pieces. */
  function End(log: seq<Piece>): nat {
    if log == [] then 0 else Max(End(log[..|log| - 1]), PieceEnd(log[|log| - 1]))
  }

  function Contents(log: seq<Piece>): (file: seq<byte>)
    ensures |file| == End(log)
  {
    seq(End(log), p requires 0 <= p => ByteAt(log, p))
  }

  /** Every piece starts within what the older pieces already reach; closed under prefixes. */
  predicate Contiguous(log: seq<Piece>) {
    log != [] ==>
      && Contiguous(log[..|log| - 1])
      && log[|log| - 1].at <= End(log[..|log| - 1])
  }

  // ---------- Concatenation ----------

  lemma {:induction false} EndConcat(x: seq<Piece>, y: seq<Piece>)
    ensures End(x + y) == Max(End(x), End(y))
  {
    if y == [] {
      assert x + y == x;
    } else {
      assert (x + y)[..|x + y| - 1] == x + y[..|y| - 1];
      EndConcat(x, y[..|y| - 1]);
    }
  }

  lemma {:induction false} ByteAtConcat(x: seq<Piece>, y: seq<Piece>, p: nat)
    ensures ByteAt(x + y, p) == if Covered(y, p) then ByteAt(y, p) else ByteAt(x, p)
  {
    if y == [] {
      assert x + y == x;
    } else {
      var front := y[..|y| - 1];
      assert (x + y)[..|x + y| - 1] == x + front;
      ByteAtConcat(x, front, p);
      if Covers(y[|y| - 1], p) {
      } else if Covered(y, p) {
        var i :| 0 <= i < |y| && Covers(y[i], p);
        assert Covers(front[i], p);
      }
    }
  }

  lemma {:induction false} PieceBelowEnd(log: seq<Piece>, i: nat)
    requires i < |log|
    ensures PieceEnd(log[i]) <= End(log)
  {
    if i < |log| - 1 {
      PieceBelowEnd(log[..|log| - 1], i);
    }
  }

  // ---------- No holes ----------

  /** A contiguous log covers every position below its end. */
  lemma {:induction false} NoHoles(log: seq<Piece>, p: nat)
    requires Contiguous(log) && p < End(log)
    ensures Covered(log, p)
  {
    var front, last := log[..|log| - 1], log[|log| - 1];
    if Covers(last, p) {
    } else {
      NoHoles(front, p);
      var i :| 0 <= i < |front| && Covers(front[i], p);
      assert Covers(log[i], p);
    }
  }

  lemma {:induction false} ContiguousPrefix(x: seq<Piece>, y: seq<Piece>)
    requires Contiguous(x + y)
    ensures Contiguous(x)
  {
    if y == [] {
      assert x + y == x;
    } else {
      assert (x + y)[..|x + y| - 1] == x + y[..|y| - 1];
      ContiguousPrefix(x, y[..|y| - 1]);
    }
  }

  lemma {:induction false} ContiguousExtend(x: seq<Piece>, y: seq<Piece>)
    requires Contiguous(x)
    requires forall i :: 0 <= i < |y| ==> y[i].at <= End(x)
    ensures Contiguous(x + y)
  {
    if y == [] {
      assert x + y == x;
    } else {
      var front := y[..|y| - 1];
      assert (x + y)[..|x + y| - 1] == x + front;
      ContiguousExtend(x, front);
      EndConcat(x, front);
    }
  }

  // ---------- Appending and repeating ----------

  /** Appending a piece that starts within the file is exactly a flat write. */
  lemma AppendIsWrite(log: seq<Piece>, x: Piece)
    requires x.at <= End(log) && x.bytes != []
    ensures Contents(log + [x]) == Write(Contents(log), x.at, x.bytes)
    ensures Contiguous(log) ==> Contiguous(log + [x])
  {
    assert (log + [x])[..|log|] == log;
    hide Contiguous;
    var a, b := Contents(log + [x]), Write(Contents(log), x.at, x.bytes);
    WriteSpecified(Contents(log), x.at, x.bytes);
    forall p | 0 <= p < |a| ensures a[p] == b[p] {
      if Covers(x, p) {
        assert b[x.at..x.at + |x.bytes|][p - x.at] == x.bytes[p - x.at];
      }
    }
  }

  /** Replaying a suffix of the log a second time changes nothing. */
  lemma SuffixIdempotent(x: seq<Piece>, y: seq<Piece>)
    ensures Contents(x + y + y) == Contents(x + y)
    ensures Contiguous(x + y) ==> Contiguous(x + y + y)
  {
    EndConcat(x, y);
    EndConcat(x + y, y);
    forall p | 0 <= p < End(x + y) ensures ByteAt(x + y + y, p) == ByteAt(x + y, p) {
      ByteAtConcat(x + y, y, p);
      ByteAtConcat(x, y, p);
    }
    if Contiguous(x + y) {
      forall i | 0 <= i < |y| ensures y[i].at <= End(x + y) {
        PieceBelowEnd(y, i);
      }
      ContiguousExtend(x + y, y);
    }
  }
}
