/** The descriptor file (leveldb/db/version_set.cc LogAndApply, WriteSnapshot, Recover): every edit becomes a record of
    bytes, and replaying the decoded records gives the version that the edits, saved one by one, have reached. */
module Descriptors {
  import opened Options
  import opened InternalKeys
  import opened Versions
  import opened VersionBuilder
  import opened Manifest
  import opened Coding
  import opened LogFormat
  import opened LogProofs
  import V = VersionEdits

  type Keys = IKey -> Bytes

  /** The table file that has a number. */
  type Tables = nat -> File

  // ----- from version edits to records and back -----

  function Described(keys: Keys, level: nat, f: File): V.Added {
    V.Added(level, f.number, f.size, keys(Smallest(f)), keys(Largest(f)))
  }

  /** The file a record speaks of: number and size are in the record, the entries in the table file. */
  function Restored(tables: Tables, a: V.Added): File {
    FileData(a.number, a.size, tables(a.number).entries)
  }

  function NewsIn(tables: Tables, e: V.Edit): seq<(nat, File)> {
    seq(|e.newFiles|, i requires 0 <= i < |e.newFiles| => (e.newFiles[i].level, Restored(tables, e.newFiles[i])))
  }

  function DeletedIn(e: V.Edit, level: nat): set<nat> {
    set d | d in e.deletedFiles && d.level == level :: d.number
  }

  /** What a decoded edit says about a level. */
  function LevelOf(tables: Tables, e: V.Edit, level: nat): LevelEdit {
    LevelEdit(DeletedIn(e, level), FilesAt(NewsIn(tables, e), level))
  }

  function EditIn(record: Bytes): V.Edit {
    V.ApplyAll(V.CLEARED, V.ParseFields(record).fields)
  }

  function LevelsOf(tables: Tables, records: seq<Bytes>, level: nat): seq<LevelEdit> {
    seq(|records|, i requires 0 <= i < |records| => LevelOf(tables, EditIn(records[i]), level))
  }

  datatype Numbers = Numbers(log: Option<nat>, prevLog: Option<nat>, next: Option<nat>, last: Option<nat>)

  function Latest(records: seq<Bytes>): Numbers {
    if records == [] then Numbers(None, None, None, None)
    else
      var n, e := Latest(records[..|records| - 1]), EditIn(records[|records| - 1]);
      Numbers(if e.logNumber.Some? then e.logNumber else n.log,
              if e.prevLogNumber.Some? then e.prevLogNumber else n.prevLog,
              if e.nextFileNumber.Some? then e.nextFileNumber else n.next,
              if e.lastSequence.Some? then e.lastSequence else n.last)
  }

  /** The fields that LogAndApply sets in the edit it is given. */
  function Filled(keys: Keys, e: VersionEdit, log: nat, prevLog: nat, next: nat, last: nat): V.Edit {
    V.Edit(None, Some(log), Some(prevLog), Some(next), Some(last), [],
           set d | d in e.deletions :: V.Removed(d.0, d.1),
           seq(|e.news|, i requires 0 <= i < |e.news| => Described(keys, e.news[i].0, e.news[i].1)))
  }

  function Snapshot(keys: Keys, name: Bytes, news: seq<(nat, File)>): V.Edit {
    V.Edit(Some(name), None, None, None, None, [], {},
           seq(|news|, i requires 0 <= i < |news| => Described(keys, news[i].0, news[i].1)))
  }

  /** Everything a record says of a file is true of the table file with that number. */
  ghost predicate Truthful(keys: Keys, tables: Tables, e: V.Edit) {
    forall a | a in e.newFiles ::
      var f := tables(a.number);
      && a.number == f.number && a.size == f.size
      && a.smallest == keys(f.entries[0].key) && a.largest == keys(f.entries[|f.entries| - 1].key)
  }

  ghost predicate FileFits(keys: Keys, f: File) {
    f.number < TWO_64 && f.size < TWO_64 && V.KeyFits(keys(Smallest(f))) && V.KeyFits(keys(Largest(f)))
  }

  ghost predicate NewsFit(keys: Keys, tables: Tables, news: seq<(nat, File)>) {
    forall n | n in news :: n.0 < NUM_LEVELS && FileFits(keys, n.1) && tables(n.1.number) == n.1
  }

  ghost predicate Fits(keys: Keys, tables: Tables, e: VersionEdit) {
    NewsFit(keys, tables, e.news) && forall d | d in e.deletions :: d.0 < NUM_LEVELS && d.1 < TWO_64
  }

  lemma NewsRestored(keys: Keys, tables: Tables, news: seq<(nat, File)>, e: V.Edit)
    requires NewsFit(keys, tables, news)
    requires e.newFiles == seq(|news|, i requires 0 <= i < |news| => Described(keys, news[i].0, news[i].1))
    ensures NewsIn(tables, e) == news && Truthful(keys, tables, e)
    ensures forall i | 0 <= i < |e.newFiles| :: V.Fits(V.NewFile(e.newFiles[i]))
  {
    forall i | 0 <= i < |news| ensures NewsIn(tables, e)[i] == news[i] && V.Fits(V.NewFile(e.newFiles[i])) {
      assert news[i] in news;
    }
  }

  /** An edit survives the way to a record and back, level by level. */
  lemma FilledSaysTheSame(keys: Keys, tables: Tables, e: VersionEdit, log: nat, prevLog: nat, next: nat, last: nat,
                          level: nat)
    requires Fits(keys, tables, e)
    ensures var x := Filled(keys, e, log, prevLog, next, last);
            LevelOf(tables, x, level) == EditAt(e.deletions, e.news, level) && Truthful(keys, tables, x)
  {
    var x := Filled(keys, e, log, prevLog, next, last);
    NewsRestored(keys, tables, e.news, x);
    forall n ensures n in DeletedIn(x, level) <==> n in NumbersAt(e.deletions, level) {
      if n in NumbersAt(e.deletions, level) {
        assert (level, n) in e.deletions;
        assert V.Removed(level, n) in x.deletedFiles;
      }
    }
  }

  method Encoded(e: V.Edit) returns (record: Bytes)
    requires V.EditFits(e)
    ensures V.ParseFields(record).complete && EditIn(record) == e
  {
    ghost var xs;
    record, xs := V.EncodeTo(e);
    V.ParseEncoded(xs);
  }

  // ----- Recover -----

  ghost predicate Good(name: Bytes, record: Bytes) {
    V.ParseFields(record).complete && (EditIn(record).comparator.Some? ==> EditIn(record).comparator.value == name)
  }

  datatype Contents = Contents(version: Version, logNumber: nat, prevLogNumber: nat, nextFile: nat, lastSequence: nat)

  datatype Outcome = Opened(c: Contents) | BadRecord | OtherComparator | NoNextFile | NoLogNumber | NoLastSequence

  /** What Recover makes of the records. */
  ghost predicate Recovers(tables: Tables, name: Bytes, records: seq<Bytes>, o: Outcome) {
    if exists i | 0 <= i < |records| :: !Good(name, records[i]) then
      exists i | 0 <= i < |records| ::
        && !Good(name, records[i]) && (forall j | 0 <= j < i :: Good(name, records[j]))
        && o == if V.ParseFields(records[i]).complete then OtherComparator else BadRecord
    else
      var n := Latest(records);
      if n.next.None? then o == NoNextFile
      else if n.log.None? then o == NoLogNumber
      else if n.last.None? then o == NoLastSequence
      else
        && o.Opened? && o.c.logNumber == n.log.value && o.c.nextFile == n.next.value + 1
        && o.c.prevLogNumber == (if n.prevLog.Some? then n.prevLog.value else 0) && o.c.lastSequence == n.last.value
        && forall l | 0 <= l < NUM_LEVELS :: o.c.version[l] == Replayed(LevelsOf(tables, records, l))
  }

  lemma KeyFits(b: Bytes)
    ensures (GetLengthPrefixed(b).Got? ==> |GetLengthPrefixed(b).value| < TWO_32)
    ensures V.GetInternalKey(b).Got? ==> V.KeyFits(V.GetInternalKey(b).value)
  {
    hide GetVarint32;
  }

  lemma FieldFits(b: Bytes)
    ensures var x := V.DecodeField(b); x.Got? ==> V.Fits(x.value)
  {
    hide GetVarint32, GetVarint64, GetLengthPrefixed, V.GetInternalKey, V.KeyFits;
    forall k ensures GetLengthPrefixed(k).Got? ==> |GetLengthPrefixed(k).value| < TWO_32 { KeyFits(k); }
    forall k ensures V.GetInternalKey(k).Got? ==> V.KeyFits(V.GetInternalKey(k).value) { KeyFits(k); }
  }

  lemma AppliedFits(e: V.Edit, x: V.Field)
    requires V.EditFits(e) && V.Fits(x)
    ensures V.EditFits(V.Apply(e, x))
  {
    hide V.Fits;
  }

  /** Whatever decodes can be encoded again: levels exist, numbers and lengths are in range, keys are not empty. */
  lemma {:induction false} ParsedFits(e: V.Edit, b: Bytes)
    requires V.EditFits(e)
    ensures V.EditFits(V.ApplyAll(e, V.ParseFields(b).fields))
    decreases |b|
  {
    hide V.DecodeField, V.EditFits, V.Apply, V.Fits;
    if b != [] {
      var x := V.DecodeField(b);
      if x.Got? {
        FieldFits(b);
        AppliedFits(e, x.value);
        ParsedFits(V.Apply(e, x.value), x.rest);
        var rest := V.ParseFields(x.rest).fields;
        assert ([x.value] + rest)[1..] == rest;
      }
    }
  }

  /** The deleted files, in some order. */
  method ListDeleted(e: V.Edit) returns (deletions: seq<(nat, nat)>)
    ensures forall l: nat :: NumbersAt(deletions, l) == DeletedIn(e, l)
    ensures V.EditFits(e) ==> forall d | d in deletions :: d.0 < NUM_LEVELS
  {
    deletions := [];
    var left := e.deletedFiles;
    while left != {}
      invariant left <= e.deletedFiles
      invariant forall d :: d in deletions <==> V.Removed(d.0, d.1) in e.deletedFiles - left
      decreases |left|
    {
      var d :| d in left;
      deletions := deletions + [(d.level, d.number)];
      left := left - {d};
    }
    forall l: nat, n ensures n in NumbersAt(deletions, l) <==> n in DeletedIn(e, l) {
      assert (l, n) in deletions <==> V.Removed(l, n) in e.deletedFiles;
    }
  }

  /** One record's edit goes to the builder. */
  method ApplyDecoded(builder: Builder, tables: Tables, e: V.Edit)
    requires |builder.levels| == NUM_LEVELS && V.EditFits(e)
    modifies builder
    ensures |builder.levels| == NUM_LEVELS
    ensures forall l | 0 <= l < NUM_LEVELS ::
            builder.levels[l] == ApplyLevel(old(builder.levels[l]), LevelOf(tables, e, l))
  {
    hide ApplyLevel, FilesAt, NumbersAt, DeletedIn;
    var deletions := ListDeleted(e);
    builder.Apply(deletions, NewsIn(tables, e));
  }

  method Recover(tables: Tables, name: Bytes, records: seq<Bytes>) returns (o: Outcome)
    ensures Recovers(tables, name, records, o)
  {
    hide SaveLevel, LevelOf, EditIn, V.ParseFields, V.ApplyAll;
    var nothing: Version := [[], [], [], [], [], [], []];
    var builder := new Builder(nothing);
    var n := Numbers(None, None, None, None);
    for i := 0 to |records|
      invariant fresh(builder) && |builder.levels| == NUM_LEVELS
      invariant forall j | 0 <= j < i :: Good(name, records[j])
      invariant n == Latest(records[..i])
      invariant forall l | 0 <= l < NUM_LEVELS :: builder.levels[l] == Gathered(LevelsOf(tables, records[..i], l))
    {
      var ok, e := V.DecodeFrom(records[i]);
      assert e == EditIn(records[i]) && ok == V.ParseFields(records[i]).complete by { EditInIs(records[i]); }
      if !ok {
        return BadRecord;
      }
      if e.comparator.Some? && e.comparator.value != name {
        return OtherComparator;
      }
      DecodedFits(records[i]);
      ApplyDecoded(builder, tables, e);
      OneMoreRecord(tables, records, i);
      n := Numbers(if e.logNumber.Some? then e.logNumber else n.log,
                   if e.prevLogNumber.Some? then e.prevLogNumber else n.prevLog,
                   if e.nextFileNumber.Some? then e.nextFileNumber else n.next,
                   if e.lastSequence.Some? then e.lastSequence else n.last);
    }
    assert records[..|records|] == records;
    if n.next.None? {
      return NoNextFile;
    } else if n.log.None? {
      return NoLogNumber;
    } else if n.last.None? {
      return NoLastSequence;
    }
    var v := SaveAll(builder);
    var prevLog := if n.prevLog.Some? then n.prevLog.value else 0;
    o := Opened(Contents(v, n.log.value, prevLog, n.next.value + 1, n.last.value));
  }

  lemma EditInIs(record: Bytes)
    ensures EditIn(record) == V.ApplyAll(V.CLEARED, V.ParseFields(record).fields)
  {
  }

  lemma DecodedFits(record: Bytes)
    ensures V.EditFits(EditIn(record))
  {
    ParsedFits(V.CLEARED, record);
  }

  lemma OneMoreRecord(tables: Tables, records: seq<Bytes>, i: nat)
    requires i < |records|
    ensures forall l :: Gathered(LevelsOf(tables, records[..i + 1], l))
                     == ApplyLevel(Gathered(LevelsOf(tables, records[..i], l)), LevelOf(tables, EditIn(records[i]), l))
    ensures records[..i + 1][..i] == records[..i] && records[..i + 1][i] == records[i]
  {
    hide LevelOf, EditIn, ApplyLevel;
    forall l: nat ensures var all := LevelsOf(tables, records[..i + 1], l);
                     all[..i] == LevelsOf(tables, records[..i], l) && all[i] == LevelOf(tables, EditIn(records[i]), l) {
      assert records[..i + 1][i] == records[i];
    }
  }

  // ----- what the records stand for -----

  ghost predicate ReachedBy(edits: seq<LevelEdit>, files: seq<File>) {
    (forall n | 0 <= n < |edits| :: !AddsPresent(edits, n)) && files == Stepwise(edits)
  }

  /** The records tell the truth about table files, and saving their edits one by one has given the version. */
  ghost predicate Lists(keys: Keys, tables: Tables, name: Bytes, records: seq<Bytes>, version: Version) {
    && (forall r | r in records :: Good(name, r) && Truthful(keys, tables, EditIn(r)))
    && forall l | 0 <= l < NUM_LEVELS :: ReachedBy(LevelsOf(tables, records, l), version[l])
  }

  ghost predicate Reflects(keys: Keys, tables: Tables, name: Bytes, records: seq<Bytes>, c: Contents) {
    && Lists(keys, tables, name, records, c.version)
    && Latest(records) == Numbers(Some(c.logNumber), Some(c.prevLogNumber), Some(c.nextFile), Some(c.lastSequence))
  }

  lemma {:induction false} FilesAtMembers(news: seq<(nat, File)>, level: nat, f: File)
    requires f in FilesAt(news, level)
    ensures (level, f) in news
  {
    var (l, g) := news[|news| - 1];
    if f !in FilesAt(news[..|news| - 1], level) {
      assert (l, g) in news;
    } else {
      FilesAtMembers(news[..|news| - 1], level, f);
    }
  }

  lemma TruthfulFiles(keys: Keys, tables: Tables, e: V.Edit, level: nat, f: File)
    requires Truthful(keys, tables, e) && f in LevelOf(tables, e, level).news
    ensures tables(f.number) == f
  {
    FilesAtMembers(NewsIn(tables, e), level, f);
    var i :| 0 <= i < |e.newFiles| && NewsIn(tables, e)[i] == (level, f);
    assert e.newFiles[i] in e.newFiles;
  }

  lemma MentionedAreTables(keys: Keys, tables: Tables, name: Bytes, records: seq<Bytes>, version: Version, level: nat)
    requires Lists(keys, tables, name, records, version)
    ensures forall f | f in Mentioned(LevelsOf(tables, records, level)) :: tables(f.number) == f
  {
    hide LevelOf, Truthful, EditIn, Good, ReachedBy;
    var edits := LevelsOf(tables, records, level);
    forall f | f in Mentioned(edits) ensures tables(f.number) == f {
      var i :| 0 <= i < |edits| && f in edits[i].news;
      assert records[i] in records;
      TruthfulFiles(keys, tables, EditIn(records[i]), level, f);
    }
  }

  /** Such records replay to the version. */
  lemma ListsReplay(keys: Keys, tables: Tables, name: Bytes, records: seq<Bytes>, version: Version, level: nat)
    requires Lists(keys, tables, name, records, version) && level < NUM_LEVELS
    ensures Replayed(LevelsOf(tables, records, level)) == version[level]
  {
    hide LevelOf, Truthful, EditIn, Good, Replayed, Stepwise, Mentioned, LevelsOf;
    MentionedAreTables(keys, tables, name, records, version, level);
    ReplayAgrees(LevelsOf(tables, records, level));
  }

  lemma TruthfulFits(keys: Keys, tables: Tables, record: Bytes, level: nat, f: File)
    requires Truthful(keys, tables, EditIn(record)) && f in LevelOf(tables, EditIn(record), level).news
    ensures FileFits(keys, f)
  {
    hide EditIn;
    var e := EditIn(record);
    DecodedFits(record);
    FilesAtMembers(NewsIn(tables, e), level, f);
    var i :| 0 <= i < |e.newFiles| && NewsIn(tables, e)[i] == (level, f);
    assert e.newFiles[i] in e.newFiles && V.Fits(V.NewFile(e.newFiles[i]));
  }

  /** A version that records stand for is in order, made of table files, and can be recorded again. */
  lemma ReflectedFits(keys: Keys, tables: Tables, name: Bytes, records: seq<Bytes>, c: Contents, level: nat)
    requires Reflects(keys, tables, name, records, c) && level < NUM_LEVELS
    ensures OrderedBySmallest(c.version[level])
    ensures forall f | f in c.version[level] :: FileFits(keys, f) && tables(f.number) == f
  {
    hide LevelOf, Truthful, EditIn, Good, Stepwise, OrderedBySmallest, FileFits, Latest;
    var edits := LevelsOf(tables, records, level);
    MentionedAreTables(keys, tables, name, records, c.version, level);
    ReplayAgrees(edits);
    forall f | f in c.version[level] ensures FileFits(keys, f) && tables(f.number) == f {
      var i :| 0 <= i < |edits| && f in edits[i].news;
      assert records[i] in records;
      TruthfulFits(keys, tables, records[i], level, f);
    }
  }

  lemma ReflectedRecovers(keys: Keys, tables: Tables, name: Bytes, records: seq<Bytes>, c: Contents, o: Outcome)
    requires Reflects(keys, tables, name, records, c) && Recovers(tables, name, records, o)
    ensures o == Opened(c.(nextFile := c.nextFile + 1))
  {
    hide Truthful, EditIn, Good, Replayed, ReachedBy, LevelsOf, Latest;
    assert forall i | 0 <= i < |records| :: records[i] in records;
    forall l | 0 <= l < NUM_LEVELS ensures o.c.version[l] == c.version[l] {
      ListsReplay(keys, tables, name, records, c.version, l);
    }
    assert o.c.version == c.version;
  }

  lemma LevelsOneMore(tables: Tables, records: seq<Bytes>, record: Bytes, level: nat)
    ensures LevelsOf(tables, records + [record], level)
         == LevelsOf(tables, records, level) + [LevelOf(tables, EditIn(record), level)]
  {
    hide LevelOf, EditIn;
  }

  lemma ReachedOneMore(edits: seq<LevelEdit>, files: seq<File>, e: LevelEdit)
    requires ReachedBy(edits, files) && forall f | f in e.news :: f !in files
    ensures ReachedBy(edits + [e], SaveLevel(files, ApplyLevel(EMPTY, e)))
  {
    hide SaveLevel, ApplyLevel;
    var all := edits + [e];
    assert all[..|edits|] == edits;
    forall n | 0 <= n < |all| ensures !AddsPresent(all, n) {
      assert n < |edits| ==> all[..n] == edits[..n] && all[n] == edits[n] && !AddsPresent(edits, n);
    }
  }

  /** One more record, for an edit that adds no file its level has, lists the version saved after the edit. */
  lemma ListsOneMore(keys: Keys, tables: Tables, name: Bytes, records: seq<Bytes>, version: Version,
                     record: Bytes, version': Version)
    requires Lists(keys, tables, name, records, version) && Good(name, record) && Truthful(keys, tables, EditIn(record))
    requires forall l | 0 <= l < NUM_LEVELS :: var e := LevelOf(tables, EditIn(record), l);
               && (forall f | f in e.news :: f !in version[l])
               && version'[l] == SaveLevel(version[l], ApplyLevel(EMPTY, e))
    ensures Lists(keys, tables, name, records + [record], version')
  {
    hide LevelOf, Truthful, EditIn, Good, SaveLevel, ApplyLevel, ReachedBy, LevelsOf;
    forall l | 0 <= l < NUM_LEVELS ensures ReachedBy(LevelsOf(tables, records + [record], l), version'[l]) {
      LevelsOneMore(tables, records, record, l);
      ReachedOneMore(LevelsOf(tables, records, l), version[l], LevelOf(tables, EditIn(record), l));
    }
  }

  /** A snapshot alone lists the version it was taken of. */
  lemma SnapshotLists(keys: Keys, tables: Tables, name: Bytes, record: Bytes, version: Version, news: seq<(nat, File)>)
    requires Good(name, record) && EditIn(record) == Snapshot(keys, name, news) && NewsFit(keys, tables, news)
    requires forall l | 0 <= l < NUM_LEVELS :: FilesAt(news, l) == version[l] && OrderedBySmallest(version[l])
    ensures Lists(keys, tables, name, [record], version)
  {
    hide EditIn, Good, OrderedBySmallest;
    var e := EditIn(record);
    NewsRestored(keys, tables, news, e);
    forall l | 0 <= l < NUM_LEVELS ensures ReachedBy(LevelsOf(tables, [record], l), version[l]) {
      assert DeletedIn(e, l) == {};
      assert LevelsOf(tables, [record], l) == [SnapshotEdit(version[l])] + [];
      SnapshotReaches(tables, e, version[l], l);
    }
  }

  lemma SnapshotReaches(tables: Tables, e: V.Edit, files: seq<File>, level: nat)
    requires OrderedBySmallest(files) && files == LevelOf(tables, e, level).news
    requires forall n | n in NewsIn(tables, e) :: tables(n.1.number) == n.1
    ensures ReachedBy([SnapshotEdit(files)] + [], files)
  {
    hide OrderedBySmallest, SaveLevel, ApplyLevel;
    forall f | f in files ensures tables(f.number) == f {
      FilesAtMembers(NewsIn(tables, e), level, f);
    }
    SnapshotThenEdits(files, []);
    var all := [SnapshotEdit(files)] + [];
    assert all[..0] == [] && !AddsPresent(all, 0);
  }

  // ----- the version set -----

  /** WriteSnapshot: every file of every level. */
  method ListFiles(version: Version) returns (news: seq<(nat, File)>)
    ensures forall l | 0 <= l < NUM_LEVELS :: FilesAt(news, l) == version[l]
    ensures forall n | n in news :: n.0 < NUM_LEVELS && n.1 in version[n.0]
  {
    news := [];
    for level := 0 to NUM_LEVELS
      invariant forall l | 0 <= l < NUM_LEVELS :: FilesAt(news, l) == if l < level then version[l] else []
      invariant forall n | n in news :: n.0 < NUM_LEVELS && n.1 in version[n.0]
    {
      hide FilesAt;
      var more := Placed(level, version[level]);
      PlacedAt(news, level, version[level]);
      news := news + more;
    }
  }

  function Placed(level: nat, files: seq<File>): seq<(nat, File)> {
    seq(|files|, i requires 0 <= i < |files| => (level, files[i]))
  }

  lemma {:induction false} PlacedAt(news: seq<(nat, File)>, level: nat, files: seq<File>)
    ensures forall l :: FilesAt(news + Placed(level, files), l) == FilesAt(news, l) + if l == level then files else []
  {
    var all := news + Placed(level, files);
    if files == [] {
      assert all == news;
    } else {
      var k := |files| - 1;
      PlacedAt(news, level, files[..k]);
      assert all[..|all| - 1] == news + Placed(level, files[..k]);
      assert files == files[..k] + [files[k]];
    }
  }

  lemma FitsIsValid(keys: Keys, tables: Tables, e: VersionEdit)
    requires Fits(keys, tables, e)
    ensures ValidEdit(e)
  {
  }

  method EncodeFilled(keys: Keys, ghost tables: Tables, e: VersionEdit, log: nat, prevLog: nat, next: nat, last: nat)
    returns (record: Bytes)
    requires Fits(keys, tables, e) && log < TWO_64 && prevLog < TWO_64 && next < TWO_64 && last < TWO_64
    ensures V.ParseFields(record).complete && EditIn(record) == Filled(keys, e, log, prevLog, next, last)
  {
    hide EditIn, V.ParseFields;
    var x := Filled(keys, e, log, prevLog, next, last);
    NewsRestored(keys, tables, e.news, x);
    assert V.EditFits(x);
    record := Encoded(x);
  }

  lemma LogOneMore(extend: Extend, records: seq<Bytes>, record: Bytes)
    ensures Log(extend, records + [record])
            == Log(extend, records) + Encode(extend, |Log(extend, records)|, record, true)
  {
    hide Encode;
    assert (records + [record])[..|records|] == records;
  }

  /** The record of an edit makes the descriptor stand for the version after it, with its numbers. */
  lemma FilledReflects(keys: Keys, tables: Tables, name: Bytes, records: seq<Bytes>, version: Version, e: VersionEdit,
                       record: Bytes, c: Contents)
    requires Lists(keys, tables, name, records, version) && Fits(keys, tables, e) && V.ParseFields(record).complete
    requires EditIn(record) == Filled(keys, e, c.logNumber, c.prevLogNumber, c.nextFile, c.lastSequence)
    requires forall l, f | 0 <= l < NUM_LEVELS && f in FilesAt(e.news, l) :: f !in version[l]
    requires forall l | 0 <= l < NUM_LEVELS ::
               c.version[l] == SaveLevel(version[l], ApplyLevel(EMPTY, EditAt(e.deletions, e.news, l)))
    ensures Reflects(keys, tables, name, records + [record], c)
  {
    hide Lists, EditIn, V.ParseFields, SaveLevel, ApplyLevel, FilesAt, LevelOf, NumbersAt, Truthful;
    FilledSaysTheSame(keys, tables, e, c.logNumber, c.prevLogNumber, c.nextFile, c.lastSequence, 0);
    forall l: nat ensures LevelOf(tables, EditIn(record), l) == EditAt(e.deletions, e.news, l) {
      FilledSaysTheSame(keys, tables, e, c.logNumber, c.prevLogNumber, c.nextFile, c.lastSequence, l);
    }
    ListsOneMore(keys, tables, name, records, version, record, c.version);
    assert (records + [record])[..|records|] == records;
  }

  class VersionSet {
    const keys: Keys
    const tables: Tables
    const name: Bytes
    const extend: Extend
    var current: Version
    var nextFile: nat
    var lastSequence: nat
    var logNumber: nat
    var prevLogNumber: nat
    var log: Writer?               // the descriptor, once there is one
    var synced: nat                // bytes of it known to be on disk
    ghost var records: seq<Bytes>  // and the records in it
    ghost var written: Contents    // what was last recorded

    ghost predicate Writing()
      reads this, log
    {
      log != null && log.Valid() && log.extend == extend && log.dest == Log(extend, records)
    }

    ghost predicate Valid()
      reads this, log
    {
      if log == null then
        forall l | 0 <= l < NUM_LEVELS ::
          OrderedBySmallest(current[l]) && forall f | f in current[l] :: FileFits(keys, f) && tables(f.number) == f
      else
        && Writing() && synced == |log.dest|
        && Reflects(keys, tables, name, records, written)
        && written.version == current && written.logNumber == logNumber && written.prevLogNumber == prevLogNumber
        && written.nextFile <= nextFile && written.lastSequence <= lastSequence
    }

    constructor (keys: Keys, tables: Tables, name: Bytes, extend: Extend, c: Contents)
      requires forall l | 0 <= l < NUM_LEVELS ::
                 && OrderedBySmallest(c.version[l])
                 && forall f | f in c.version[l] :: FileFits(keys, f) && tables(f.number) == f
      ensures Valid() && log == null && current == c.version && nextFile == c.nextFile
      ensures this.keys == keys && this.tables == tables && this.name == name && this.extend == extend
      ensures lastSequence == c.lastSequence && logNumber == c.logNumber && prevLogNumber == c.prevLogNumber
    {
      this.keys, this.tables, this.name, this.extend := keys, tables, name, extend;
      current, nextFile, lastSequence := c.version, c.nextFile, c.lastSequence;
      logNumber, prevLogNumber, log, synced := c.logNumber, c.prevLogNumber, null, 0;
      records, written := [], c;
    }

    method NewFileNumber() returns (n: nat)
      requires Valid()
      modifies this`nextFile
      ensures Valid() && n == old(nextFile) && nextFile == n + 1
    {
      n := nextFile;
      nextFile := nextFile + 1;
    }

    method SetLastSequence(s: nat)
      requires Valid() && s >= lastSequence
      modifies this`lastSequence
      ensures Valid() && lastSequence == s
    {
      lastSequence := s;
    }

    /** Opens a descriptor that starts with a snapshot of the current version. */
    method WriteSnapshot()
      requires Valid() && log == null && |name| < TWO_32
      modifies this
      ensures Writing() && fresh(log)
      ensures Lists(keys, tables, name, records, current)
      ensures unchanged(`current, `nextFile, `lastSequence, `logNumber, `prevLogNumber)
    {
      hide Lists, EditIn, Log, Encode, V.ParseFields;
      var news := ListFiles(current);
      assert NewsFit(keys, tables, news);
      NewsRestored(keys, tables, news, Snapshot(keys, name, news));
      var record := Encoded(Snapshot(keys, name, news));
      assert Good(name, record);
      SnapshotLists(keys, tables, name, record, current, news);
      log := new Writer(extend, []);
      log.AddRecord(record);
      records := [record];
      EmptyLog(extend, [record]);
      LogOneMore(extend, [record][..0], record);
      assert [record][..0] + [record] == [record];
    }

    method AddRecord(record: Bytes)
      requires Writing()
      modifies log, this`synced, this`records
      ensures Writing() && synced == |log.dest| && records == old(records) + [record]
    {
      hide Log, Encode;
      log.AddRecord(record);
      LogOneMore(extend, records, record);
      records := records + [record];
      synced := |log.dest|;
    }

    /** Records an edit, syncs it and installs the version it leads to. */
    method LogAndApply(e: VersionEdit, newLog: Option<nat>, newPrevLog: Option<nat>)
      requires Valid() && |name| < TWO_32 && Fits(keys, tables, e)
      requires nextFile < TWO_64 && lastSequence < TWO_64 && logNumber < TWO_64 && prevLogNumber < TWO_64
      requires (newLog.Some? ==> logNumber <= newLog.value < nextFile)
               && (newPrevLog.Some? ==> newPrevLog.value < TWO_64)
      requires forall l, f | 0 <= l < NUM_LEVELS && f in FilesAt(e.news, l) :: f !in current[l]
      modifies this, log
      ensures Valid() && log != null && (old(log) == null ==> fresh(log)) && (old(log) != null ==> log == old(log))
      ensures forall l | 0 <= l < NUM_LEVELS ::
                current[l] == SaveLevel(old(current)[l], ApplyLevel(EMPTY, EditAt(e.deletions, e.news, l)))
      ensures nextFile == old(nextFile) && lastSequence == old(lastSequence)
      ensures logNumber == (if newLog.Some? then newLog.value else old(logNumber))
      ensures prevLogNumber == (if newPrevLog.Some? then newPrevLog.value else old(prevLogNumber))
      ensures written == Contents(current, logNumber, prevLogNumber, nextFile, lastSequence)
      ensures old(log) != null ==> exists r :: records == old(records) + [r]
    {
      hide Lists, EditIn, Log, Encode, V.ParseFields, Fits, SaveLevel, ApplyLevel, FilesAt, EditAt, Latest, Truthful,
           Filled;
      var log' := if newLog.Some? then newLog.value else logNumber;
      var prevLog' := if newPrevLog.Some? then newPrevLog.value else prevLogNumber;
      FitsIsValid(keys, tables, e);
      var v := Manifest.LogAndApply(current, e);
      if log == null {
        WriteSnapshot();
      }
      var record := EncodeFilled(keys, tables, e, log', prevLog', nextFile, lastSequence);
      ghost var before := records;
      AddRecord(record);
      FilledReflects(keys, tables, name, before, current, e, record,
          Contents(v, log', prevLog', nextFile, lastSequence));
      current, logNumber, prevLogNumber := v, log', prevLog';
      written := Contents(current, logNumber, prevLogNumber, nextFile, lastSequence);
    }

    /** Recovering from the descriptor, at any time, gives the version in use and the numbers last recorded. */
    method ReadBack(checksum: bool) returns (o: Outcome)
      requires Valid() && log != null && ExtendLaw(extend)
      ensures o == Opened(Contents(current, logNumber, prevLogNumber, written.nextFile + 1, written.lastSequence))
    {
      hide Log, Lists, Latest, Replayed;
      assert records[..|records|] == records;
      var got, _ := ReadAll(extend, checksum, log.dest, records);
      assert got == records;
      o := Recover(tables, name, got);
      ReflectedRecovers(keys, tables, name, records, written, o);
    }

    /** So a new version set can start from it, with file numbers above all those recorded. */
    method Reopen(checksum: bool) returns (vs: VersionSet)
      requires Valid() && log != null && ExtendLaw(extend)
      ensures fresh(vs) && vs.Valid() && vs.keys == keys && vs.tables == tables && vs.name == name
              && vs.extend == extend
      ensures vs.current == current && vs.logNumber == logNumber && vs.prevLogNumber == prevLogNumber && vs.log == null
      ensures vs.nextFile == written.nextFile + 1 && vs.lastSequence == written.lastSequence
    {
      hide Reflects, FileFits, OrderedBySmallest;
      var o := ReadBack(checksum);
      forall l | 0 <= l < NUM_LEVELS
        ensures OrderedBySmallest(current[l])
        ensures forall f | f in current[l] :: FileFits(keys, f) && tables(f.number) == f
      {
        ReflectedFits(keys, tables, name, records, written, l);
      }
      vs := new VersionSet(keys, tables, name, extend, o.c);
    }
  }

  /** A crash while LogAndApply writes its record leaves some front of the record: the store reopens at the version
      after the edit when the record is whole, and at the one before it otherwise. */
  method RecoverCut(extend: Extend, checksum: bool, tables: Tables, name: Bytes, file: Bytes, ghost keys: Keys,
                    ghost records: seq<Bytes>, ghost record: Bytes, ghost before: Contents, ghost after: Contents)
    returns (o: Outcome)
    requires ExtendLaw(extend) && Log(extend, records) <= file <= Log(extend, records + [record])
    requires Reflects(keys, tables, name, records, before) && Reflects(keys, tables, name, records + [record], after)
    ensures var c := if file == Log(extend, records + [record]) then after else before;
            o == Opened(c.(nextFile := c.nextFile + 1))
  {
    hide Log, Reflects, Recovers;
    ghost var all := records + [record];
    assert all[..|records|] == records && all[..|all|] == all;
    var got, _ := ReadAll(extend, checksum, file, all);
    o := Recover(tables, name, got);
    if file == Log(extend, all) {
      assert got == all;
      ReflectedRecovers(keys, tables, name, all, after, o);
    } else {
      assert got == records;
      ReflectedRecovers(keys, tables, name, records, before, o);
    }
  }
}
