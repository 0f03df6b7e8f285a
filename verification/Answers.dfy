/**
 What the operations answer, in full: for every state, every argument and every failure of the calls they
 make, which answer comes and when.  An operation is refused for the reasons here and for no other.
 */
module Answers {
  import opened FlatFile
  import opened Overlay
  import opened Layers
  import opened Tables
  import opened Reads
  import opened Machine
  import opened TimeTravel
  import opened Stored
  import opened Isolation
  import opened Refinement
  import opened EmptyWrites
  import opened Consequences
  import opened Versions

  // ---------- Writes ----------

  /** A write can find the size to start from. */
  predicate SizeFound(rule: Rule, s: State, f: nat, faults: set<Call>) {
    || (rule.Shipped? && Active(s, f).chunks != [])
    || (SizeQuery !in faults && !HasEmptyRange(AllRows(s, f)))
  }

  /** Which answer a write gets; a refused one leaves every active layer as it was. */
  lemma WriteAnswers(rule: Rule, s: State, name: string, offset: nat, data: seq<byte>, faults: set<Call>)
    requires Intact(s)
    ensures WriteTo(rule, s.t, s.memtable, name, offset, data, faults).0 ==
              if FileQuery in faults || name !in s.t.files then NoSuchFile
              else if HeadQuery !in faults && s.t.files[name] in s.t.heads then ReadOnly
              else if !SizeFound(rule, s, s.t.files[name], faults) then NoSize
              else Written
    ensures var (reply, memtable) := WriteTo(rule, s.t, s.memtable, name, offset, data, faults);
            !reply.Written? ==> forall f :: ActiveOf(memtable, f) == Active(s, f)
  {
    if name in s.t.files {
      HeadsExact(s, s.t.files[name]);
    }
    hide Intact, HeadVersion, LayerWrite, FileRows, HasEmptyRange, ChunkEnd, RowsEnd;
  }

  /**
   Exactly when a write is accepted: the file is known, it has no head (or the head query fails), and its
   size is known, from the layer as shipped or from committed rows none of which is empty.
   */
  lemma AcceptedExact(rule: Rule, s: State, e: Event)
    requires Intact(s) && s.stage.Idle? && e.WriteFile?
    ensures Accepted(rule, s, e) <==>
            && FileQuery !in e.faults && e.name in s.t.files
            && (HeadQuery in e.faults || s.t.files[e.name] !in s.t.heads)
            && SizeFound(rule, s, s.t.files[e.name], e.faults)
  {
    hide Intact, WriteTo, SizeFound;
    WriteAnswers(rule, s, e.name, e.offset, e.data, e.faults);
  }

  lemma HeadMove(rule: Rule, s: State, h: Event)
    requires h.SetHead? || h.DeleteHead?
    ensures var s' := Apply(rule, s, h);
            s' == s.(t := s.t.(heads := s'.t.heads))
  {
  }

  lemma SameRowsFound(t: Tables, t': Tables, f: nat)
    requires t' == t.(heads := t'.heads)
    ensures FileRows(t', f, t'.lastLayer) == FileRows(t, f, t.lastLayer)
  {
    FileRowsFrame(t, t', f, t.lastLayer);
  }

  /** Moving the head of another file never changes whether a write is accepted. */
  lemma OtherHeads(rule: Rule, s: State, h: Event, e: Event)
    requires Intact(s) && s.stage.Idle? && e.WriteFile? && (h.SetHead? || h.DeleteHead?) && h.name != e.name
    ensures Accepted(rule, Apply(rule, s, h), e) <==> Accepted(rule, s, e)
  {
    var s' := Apply(rule, s, h);
    assert FilesOk(s.t);
    hide Intact, Apply, Accepted, FileRows, HasEmptyRange;
    StepIntact(rule, s, h);
    HeadMove(rule, s, h);
    AcceptedExact(rule, s, e);
    AcceptedExact(rule, s', e);
    if e.name in s.t.files {
      var f := s.t.files[e.name];
      HeadIsolated(rule, s, h, f);
      SameRowsFound(s.t, s'.t, f);
    }
  }

  /**
   After any run from the empty system: as long as no empty write to a file was accepted, a write to it
   with nothing failing is accepted exactly when the file has no head.
   */
  lemma Writable(rule: Rule, es: seq<Event>, e: Event)
    requires var s := Run(rule, INITIAL, es);
             s.stage.Idle? && e.WriteFile? && e.faults == {} && e.name in s.t.files
             && NoEmptyWriteTo(rule, INITIAL, es, s.t.files[e.name])
    ensures var s := Run(rule, INITIAL, es);
            Accepted(rule, s, e) <==> s.t.files[e.name] !in s.t.heads
  {
    var s := Run(rule, INITIAL, es);
    assert Intact(INITIAL);
    hide Intact, Run, Accepted, NoEmptyWriteTo, HasEmptyRange, FileRows;
    RunIntact(rule, INITIAL, es);
    SizeKnown(rule, es, s.t.files[e.name]);
    AcceptedExact(rule, s, e);
  }

  // ---------- Reads ----------

  /** What a read below a bound answers, whatever fails, given the chunks it selects and the contents. */
  function Answer(sel: seq<Chunk>, flat: seq<byte>, faults: set<Call>, offset: nat, size: nat): ReadReply {
    if ChunkQuery in faults || offset + size >= 0x8000_0000_0000_0000 then Failed
    else if sel == [] && offset > 0 then Panicked
    else if HasOneByteChunk(sel) || GetFails(sel, faults) || CommitTx in faults then Failed
    else Bytes(Window(flat, offset, size))
  }

  lemma UnknownRead(s: State, name: string, pick: nat, spare: seq<byte>, faults: set<Call>, offset: nat, size: nat)
    requires BeginTx in faults || FileQuery in faults || name !in s.t.files
    ensures ReadFile(s.t, s.objects, s.memtable, name, pick, spare, faults, offset, size)
         == if BeginTx in faults then Failed else NotFound
  {
  }

  lemma HeadlessIs(s: State, name: string, pick: nat, spare: seq<byte>, faults: set<Call>, offset: nat, size: nat)
    requires Intact(s) && BeginTx !in faults && FileQuery !in faults && name in s.t.files
    requires HeadQuery in faults || s.t.files[name] !in s.t.heads
    ensures ReadFile(s.t, s.objects, s.memtable, name, pick, spare, faults, offset, size)
         == ReadBelow(s.t, s.objects, Active(s, s.t.files[name]), spare, faults, s.t.files[name], 0, offset, size)
  {
    HeadsExact(s, s.t.files[name]);
    hide Intact, ReadBelow, HeadVersion;
  }

  /**
   The answer of a read of the latest contents, for every name, window and failure, of a file that refines
   its history.  With nothing failing it fails only if the window ends at or past 2^63 or meets a one-byte
   flushed chunk.
   */
  lemma LatestAnswers(s: State, g: Books, name: string, pick: nat, spare: seq<byte>, faults: set<Call>, offset: nat,
                      size: nat)
    requires Intact(s)
    requires name in s.t.files ==> FileOk(s, g, s.t.files[name])
    requires name in s.t.files ==> HeadQuery in faults || s.t.files[name] !in s.t.heads
    ensures ReadFile(s.t, s.objects, s.memtable, name, pick, spare, faults, offset, size) ==
              if BeginTx in faults then Failed
              else if FileQuery in faults || name !in s.t.files then NotFound
              else
                var f := s.t.files[name];
                Answer(Selected(s.t, Active(s, f), f, 0, Range(offset, offset + size)), Replay(Hist(g, f)), faults,
                       offset, size)
  {
    hide FileOk, Intact, ReadSound, Selected, Replay, Contents, ReadLog, ReadBelow, HasOneByteChunk, GetFails, ReadFile,
         Window, Active;
    if BeginTx in faults || FileQuery in faults || name !in s.t.files {
      UnknownRead(s, name, pick, spare, faults, offset, size);
    } else {
      var f := s.t.files[name];
      HeadlessIs(s, name, pick, spare, faults, offset, size);
      RefinesReadSound(s, g, f);
      ReadUnderFaults(s.t, s.objects, Active(s, f), spare, faults, f, 0, offset, size);
    }
  }

  /** With a head: the layer query may fail or find nothing, and loading the layer's chunks fails on an empty range. */
  lemma PinnedIs(s: State, name: string, pick: nat, spare: seq<byte>, faults: set<Call>, offset: nat, size: nat)
    requires Intact(s) && BeginTx !in faults && FileQuery !in faults && HeadQuery !in faults && name in s.t.files
    requires s.t.files[name] in s.t.heads
    ensures ReadFile(s.t, s.objects, s.memtable, name, pick, spare, faults, offset, size) ==
              if LayerQuery in faults || !MayPick(s.t, s.t.files[name], pick) || HasEmptyRange(RowsOf(s.t.chunks, pick))
              then Failed
              else ReadBelow(s.t, s.objects, Active(s, s.t.files[name]), spare, faults, s.t.files[name], pick, offset,
                             size)
  {
    HeadsExact(s, s.t.files[name]);
    hide Intact, ReadBelow, HeadVersion, HasEmptyRange, RowsOf, LayersTagged;
  }

  /** The same of a read with a head on a sound version, in any intact state with unambiguous tags. */
  lemma PinnedAnswers(s: State, name: string, l: nat, pick: nat, spare: seq<byte>, faults: set<Call>, offset: nat,
                      size: nat)
    requires Intact(s) && TagsOk(s) && name in s.t.files && HeadLayer(s.t, s.t.files[name], l)
    requires MayPick(s.t, s.t.files[name], pick) && VersionOk(s, s.t.files[name], l) && HeadQuery !in faults
    ensures ReadFile(s.t, s.objects, s.memtable, name, pick, spare, faults, offset, size) ==
              if BeginTx in faults then Failed
              else if FileQuery in faults then NotFound
              else if LayerQuery in faults then Failed
              else
                var f := s.t.files[name];
                Answer(Selected(s.t, Active(s, f), f, l, Range(offset, offset + size)), VersionContents(s, f, l),
                       faults, offset, size)
  {
    assert s.t.files[name] in s.t.heads;
    hide Intact, TagsOk, ReadSound, Selected, Contents, ReadLog, ReadBelow, HasOneByteChunk, GetFails, ReadFile, Window,
         Active, CommittedLog, HeadLayer, MayPick, HasEmptyRange, RowsOf;
    if BeginTx in faults || FileQuery in faults {
      UnknownRead(s, name, pick, spare, faults, offset, size);
    } else {
      var f := s.t.files[name];
      PickIsHead(s, f, l, pick);
      VersionNotEmpty(s, f, l);
      PinnedIs(s, name, l, spare, faults, offset, size);
      AnyLayerSound(s.t, s.objects, Active(s, f), f, l);
      ReadUnderFaults(s.t, s.objects, Active(s, f), spare, faults, f, l, offset, size);
    }
  }

  // ---------- Waiting ----------

  /** While a checkpoint is in flight, writes, other checkpoints and removals wait for the manager's lock. */
  lemma Waits(rule: Rule, s: State, e: Event)
    requires !s.stage.Idle? && (e.WriteFile? || e.Checkpoint? || e.FlushForRemoval?)
    ensures Apply(rule, s, e) == s
  {
  }

  /** A write, accepted or not, touches the layer of its own file at most. */
  lemma WriteTouches(rule: Rule, s: State, e: Event, f: nat)
    requires e.WriteFile? && (e.name !in s.t.files || s.t.files[e.name] != f)
    ensures var s' := Apply(rule, s, e);
            s' == s.(memtable := s'.memtable) && Active(s', f) == Active(s, f)
  {
    hide CalcSizeOf, LayerWrite, HeadVersion;
  }
}
