/**
 The reference a reader of the file system has in mind: a file is one flat byte sequence.
 Writing past the end leaves a gap that reads as zero (POSIX.1-2017, System Interfaces, lseek()),
 and writing nothing changes nothing.
 */
module FlatFile {
  newtype byte = x: int | 0 <= x < 256

  datatype WriteOp = WriteOp(offset: nat, data: seq<byte>)

  function Min(a: nat, b: nat): nat {
    if a <= b then a else b
  }

  function Max(a: nat, b: nat): nat {
    if a >= b then a else b
  }

  function Zeros(n: nat): seq<byte> {
    seq(n, _ => 0)
  }

  function Write(file: seq<byte>, offset: nat, data: seq<byte>): seq<byte> {
    if data == [] then file
    else
      var grown := if offset > |file| then file + Zeros(offset - |file|) else file;
      grown[..offset] + data + grown[Min(offset + |data|, |grown|)..]
  }

  /** The file after the given writes, in order, starting from the empty file. */
  function Replay(ops: seq<WriteOp>): seq<byte> {
    if ops == [] then []
    else
      var last := ops[|ops| - 1];
      Write(Replay(ops[..|ops| - 1]), last.offset, last.data)
  }

  /** What a read of `size` bytes at `offset` shows: short at the end of the file, empty past it. */
  function Window(file: seq<byte>, offset: nat, size: nat): seq<byte> {
    if offset >= |file| then [] else file[offset..Min(offset + size, |file|)]
  }

  lemma ReplayAppend(ops: seq<WriteOp>, op: WriteOp)
    ensures Replay(ops + [op]) == Write(Replay(ops), op.offset, op.data)
  {
    assert (ops + [op])[..|ops|] == ops;
  }

  /** The three facts that pin a write down: its length, the bytes it sets, the bytes it leaves. */
  lemma WriteSpecified(file: seq<byte>, offset: nat, data: seq<byte>)
    requires data != []
    ensures |Write(file, offset, data)| == Max(|file|, offset + |data|)
    ensures Write(file, offset, data)[offset..offset + |data|] == data
    ensures forall p :: 0 <= p < |Write(file, offset, data)| && !(offset <= p < offset + |data|) ==>
              Write(file, offset, data)[p] == if p < |file| then file[p] else 0
  {
  }
}
