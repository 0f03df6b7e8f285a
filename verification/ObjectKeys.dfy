/**
 Object keys, over every run: a committed layer's key is made of its own file's name and id and of its
 version's id, and fits the VARCHAR(255) column; so a file with too long a name is never flushed.
 */
module ObjectKeys {
  import opened Layers
  import opened Tables
  import opened WalNames
  import opened Ranges
  import opened Machine
  import opened TimeTravel

  ghost predicate KeyOf(t: Tables, fileId: nat, versionId: nat, key: string) {
    exists name :: name in t.files && t.files[name] == fileId && key == ObjectKey(name, fileId, versionId)
  }

  ghost predicate LayerKeys(t: Tables) {
    forall l :: l in t.layers ==>
      && KeyOf(t, t.layers[l].fileId, t.layers[l].versionId, t.layers[l].objectKey)
      && |t.layers[l].objectKey| <= 255
  }

  /** The key a checkpoint in flight will use, or uses. */
  ghost predicate StageKey(t: Tables, stage: Stage) {
    match stage
    case Versioned(fileId, name, _, _) => name in t.files && t.files[name] == fileId
    case Uploaded(fileId, versionId, _, key) => KeyOf(t, fileId, versionId, key)
    case Inserting(fileId, versionId, _, key, _, _) => KeyOf(t, fileId, versionId, key) && |key| <= 255
    case _ => true
  }

  ghost predicate KeysMade(s: State) {
    LayerKeys(s.t) && StageKey(s.t, s.stage)
  }

  predicate FilesGrow(t: Tables, t': Tables) {
    forall n :: n in t.files ==> n in t'.files && t'.files[n] == t.files[n]
  }

  lemma KeyStays(t: Tables, t': Tables, fileId: nat, versionId: nat, key: string)
    requires FilesGrow(t, t') && KeyOf(t, fileId, versionId, key)
    ensures KeyOf(t', fileId, versionId, key)
  {
    var name :| name in t.files && t.files[name] == fileId && key == ObjectKey(name, fileId, versionId);
    assert name in t'.files;
  }

  lemma LayerKeysFrame(t: Tables, t': Tables)
    requires FilesGrow(t, t') && LayerKeys(t) && t'.layers == t.layers
    ensures LayerKeys(t')
  {
    hide KeyOf, FilesGrow;
    forall l | l in t'.layers ensures KeyOf(t', t'.layers[l].fileId, t'.layers[l].versionId, t'.layers[l].objectKey) {
      KeyStays(t, t', t.layers[l].fileId, t.layers[l].versionId, t.layers[l].objectKey);
    }
  }

  lemma StageKeyFrame(t: Tables, t': Tables, stage: Stage)
    requires FilesGrow(t, t') && StageKey(t, stage)
    ensures StageKey(t', stage)
  {
    match stage
    case Uploaded(fileId, versionId, _, key) => KeyStays(t, t', fileId, versionId, key);
    case Inserting(fileId, versionId, _, key, _, _) => KeyStays(t, t', fileId, versionId, key);
    case _ =>
  }

  /** Of the step's own tables, the next stage's key is made likewise. */
  lemma StageKeyStep(rule: Rule, s: State, e: Event)
    requires StageKey(s.t, s.stage)
    ensures StageKey(s.t, Apply(rule, s, e).stage)
  {
    hide HeadVersion, WriteTo, ObjectKey, Excluded, HasEmptyRange, LayersTagged, RowsOf, GetDBFilename;
  }

  lemma CommitKeys(s: State, reply: CommitReply)
    requires KeysMade(s)
    ensures LayerKeys(StepCommit(s, reply).t)
  {
    var t' := StepCommit(s, reply).t;
    assert t'.files == s.t.files;
    forall l | l in t'.layers
      ensures KeyOf(t', t'.layers[l].fileId, t'.layers[l].versionId, t'.layers[l].objectKey)
      ensures |t'.layers[l].objectKey| <= 255
    {
      if l in s.t.layers && t'.layers[l] == s.t.layers[l] {
        KeyStays(s.t, t', t'.layers[l].fileId, t'.layers[l].versionId, t'.layers[l].objectKey);
      } else {
        KeyStays(s.t, t', s.stage.fileId, s.stage.versionId, s.stage.key);
      }
    }
  }

  lemma KeysStep(rule: Rule, s: State, e: Event)
    requires KeysMade(s)
    ensures KeysMade(Apply(rule, s, e))
  {
    var s' := Apply(rule, s, e);
    assert FilesGrow(s.t, s'.t) by {
      forall n | n in s.t.files ensures n in s'.t.files && s'.t.files[n] == s.t.files[n] {
        FileKept(rule, s, e, n);
      }
    }
    assert e.Commit? ==> s' == StepCommit(s, e.reply);
    hide Apply, StageKey, LayerKeys, FilesGrow, StepCommit;
    StageKeyStep(rule, s, e);
    StageKeyFrame(s.t, s'.t, s'.stage);
    if e.Commit? {
      CommitKeys(s, e.reply);
    } else {
      TablesUnlessCommit(rule, s, e);
      LayerKeysFrame(s.t, s'.t);
    }
  }

  lemma {:induction false} KeysRun(rule: Rule, s: State, es: seq<Event>)
    requires KeysMade(s)
    ensures KeysMade(Run(rule, s, es))
    decreases |es|
  {
    if es != [] {
      hide Apply, KeysMade;
      KeysStep(rule, s, es[0]);
      KeysRun(rule, Apply(rule, s, es[0]), es[1..]);
    }
  }

  /** What a key looks like: the name, and both ids in decimal. */
  lemma KeyExact(key: string, name: string, fileId: nat, versionId: nat)
    ensures key == ObjectKey(name, fileId, versionId) <==>
            exists x, y :: IsNumeral(x, fileId) && IsNumeral(y, versionId)
                           && key == "layers/" + name + "/" + x + "-" + y
  {
    DecimalNumeral(fileId);
    DecimalNumeral(versionId);
    if x, y :| IsNumeral(x, fileId) && IsNumeral(y, versionId) && key == "layers/" + name + "/" + x + "-" + y {
      NumeralUnique(x, fileId);
      NumeralUnique(y, versionId);
    }
    if key == ObjectKey(name, fileId, versionId) {
      assert key == "layers/" + name + "/" + Decimal(fileId) + "-" + Decimal(versionId);
    }
  }

  lemma DecimalNotEmpty(n: nat)
    ensures |Decimal(n)| >= 1
  {
  }

  /** After any run from the empty system: the key of each layer of a file, and how long its name may be. */
  lemma LayerKeyExact(rule: Rule, es: seq<Event>, name: string, l: nat)
    requires var s := Run(rule, INITIAL, es); name in s.t.files && IsLayerOf(s.t, s.t.files[name], l)
    ensures var t := Run(rule, INITIAL, es).t;
            && t.layers[l].objectKey == ObjectKey(name, t.files[name], t.layers[l].versionId)
            && |t.layers[l].objectKey| <= 255
            && |name| <= 244
  {
    var t := Run(rule, INITIAL, es).t;
    assert KeysMade(INITIAL) && Intact(INITIAL);
    RunIntact(rule, INITIAL, es);
    assert FilesOk(t);
    hide Run, Intact, Decimal;
    KeysRun(rule, INITIAL, es);
    assert KeyOf(t, t.layers[l].fileId, t.layers[l].versionId, t.layers[l].objectKey);
    var n :| n in t.files && t.files[n] == t.layers[l].fileId
             && t.layers[l].objectKey == ObjectKey(n, t.files[name], t.layers[l].versionId);
    assert n == name;
    DecimalNotEmpty(t.files[name]);
    DecimalNotEmpty(t.layers[l].versionId);
  }
}
