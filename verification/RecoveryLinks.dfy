/** What the recovery machine takes for granted: that a compaction keeps every read of the tables, and that a log cut
    anywhere in its bytes is read back as a front of its records. */
module RecoveryLinks {
  import opened Options
  import opened InternalKeys
  import opened Reads
  import opened Versions
  import opened Compacting
  import opened Machine
  import opened FlushProofs
  import opened InstallProofs
  import opened Runs
  import opened Coding
  import opened LogFormat
  import opened LogProofs
  import R = Recovery
  import W = WriteBatches

  // ----- compactions keep the reads of the tables -----

  /** The answer before dropping is the answer after it, and the other way round. */
  lemma DropKeepsAnswers(history: seq<Entry>, entries: set<Entry>, input: seq<Entry>, smallest: SeqNo, v: Version,
                         level: nat,
                         user: UserKey, snapshot: nat, r: Option<string>)
    requires AllWritten(history, entries) && Elements(input) <= entries
    requires StrictlySorted(input) && OlderLiesBelow(entries, input, v, level) && smallest <= snapshot
    ensures Answers(entries, user, snapshot, r)
            <==> Answers(Remaining(entries, input, smallest, v, level), user, snapshot, r)
  {
    var left := Remaining(entries, input, smallest, v, level);
    KeptMembers(input, smallest, v, level);
    assert left <= entries;
    var r0 := if exists t :: Top(entries, user, snapshot, t)
              then var t :| Top(entries, user, snapshot, t); if t.key.kind.Value? then Some(t.value) else None
              else None;
    if t :| Top(entries, user, snapshot, t) {
      TopAnswers(history, entries, user, snapshot, t);
      AnswerOf(history, entries, user, snapshot, t, r0);
    }
    assert Answers(entries, user, snapshot, r0);
    hide Answers, Remaining, AllWritten;
    DropPreservesReads(history, entries, input, smallest, v, level, user, snapshot, r0);
    SubsetWritten(history, entries, left);
    if Answers(entries, user, snapshot, r) {
      AnswerUnique(history, entries, user, snapshot, r, r0);
    }
    if Answers(left, user, snapshot, r) {
      AnswerUnique(history, left, user, snapshot, r, r0);
    }
  }

  lemma AnswerOf(history: seq<Entry>, entries: set<Entry>, user: UserKey, snapshot: nat, t: Entry, r: Option<string>)
    requires AllWritten(history, entries) && Top(entries, user, snapshot, t)
    requires exists u :: Top(entries, user, snapshot, u) && r == if u.key.kind.Value? then Some(u.value) else None
    ensures Answers(entries, user, snapshot, r)
  {
    var u :| Top(entries, user, snapshot, u) && r == if u.key.kind.Value? then Some(u.value) else None;
    TopAnswers(history, entries, user, snapshot, u);
  }

  lemma SubsetWritten(history: seq<Entry>, entries: set<Entry>, some: set<Entry>)
    requires AllWritten(history, entries) && some <= entries
    ensures AllWritten(history, some)
  {
  }

  /** From the last number on, later snapshots read the same. */
  lemma AllVisible(entries: set<Entry>, user: UserKey, n: nat, m: nat, r: Option<string>)
    requires R.UpTo(entries, n) && n <= m
    ensures Answers(entries, user, n, r) <==> Answers(entries, user, m, r)
  {
    assert forall t :: Top(entries, user, n, t) <==> Top(entries, user, m, t);
  }

  lemma FilesOlderLieBelow(s: State, c: Running, input: seq<Entry>)
    requires Inv(s) && s.running == Some(c) && Elements(input) == FileEntries(Inputs(c))
    ensures OlderLiesBelow(AllFiles(s.version), input, c.base, c.level) && Elements(input) <= AllFiles(s.version)
    ensures AllWritten(s.history, AllFiles(s.version))
  {
    InputsOlderThanRest(s, c, input);
    assert AllFiles(s.version) <= Everything(s);
    forall e | e in Elements(input) ensures e in AllFiles(s.version) {
      var g :| g in Inputs(c) && e in g.entries;
      InputIsStored(s, c, g, e);
    }
  }

  /** Installing a compaction keeps every read of the tables, from any number at or above all of theirs. */
  lemma InstallSameReads(s: State, s': State, input: seq<Entry>, outputs: seq<File>, last: nat)
    requires Inv(s) && InstallCompaction(s, s', input, outputs) && R.UpTo(AllFiles(s.version), last)
    ensures AllFiles(s'.version) <= AllFiles(s.version) && R.SameReads(AllFiles(s.version), AllFiles(s'.version), last)
  {
    var c := s.running.value;
    var before, after := AllFiles(s.version), AllFiles(s'.version);
    InstalledEntries(s, s', input, outputs);
    FilesOlderLieBelow(s, c, input);
    KeptMembers(input, c.smallest, c.base, c.level);
    assert after <= before;
    assert R.UpTo(after, last);
    forall user, n, r | last <= n ensures Answers(before, user, n, r) <==> Answers(after, user, n, r) {
      var m := if n < c.smallest then c.smallest else n;
      AllVisible(before, user, n, m, r);
      AllVisible(after, user, n, m, r);
      DropKeepsAnswers(s.history, before, input, c.smallest, c.base, c.level, user, m, r);
    }
  }

  /** So the edit of an installed compaction is a step of the recovery machine. */
  lemma CompactEditFollows(s: State, s': State, input: seq<Entry>, outputs: seq<File>, r: R.Store)
    requires Inv(s) && Next(s, s', DoInstall(input, outputs))
    requires r.manifest.tables == AllFiles(s.version) && R.Covers(r, r.manifest) && r.pending.NoEdit?
    ensures var tables := AllFiles(s'.version);
            R.Next(r, r.(pending := R.CompactEdit(r.manifest.(tables := tables, lastSequence := r.lastSequence))),
                   R.DoCompactEdit(tables))
  {
    InstallSameReads(s, s', input, outputs, r.manifest.lastSequence);
  }

  /** So is that of a moved file, which changes no table. */
  lemma MoveEditFollows(s: State, s': State, level: nat, f: File, r: R.Store)
    requires Inv(s) && Next(s, s', DoMove(level, f))
    requires r.manifest.tables == AllFiles(s.version) && r.pending.NoEdit?
    ensures R.Next(r, r.(pending := R.CompactEdit(r.manifest.(lastSequence := r.lastSequence))),
                   R.DoCompactEdit(AllFiles(s'.version)))
  {
    MoveSameEntries(s, s', level, f);
  }

  /** And that of a flush, with the memtable that was flushed. */
  lemma FlushEditFollows(s: State, s': State, level: nat, size: nat, r: R.Store)
    requires Inv(s) && Next(s, s', DoFlush(level, size))
    requires r.manifest.tables == AllFiles(s.version) && r.pending.NoEdit? && r.imm == Some(Elements(s.imm.value))
    ensures var m := r.manifest;
            R.Next(r, r.(pending := R.FlushEdit(R.Manifest(AllFiles(s'.version), r.current, r.lastSequence,
                                                           m.flushed + Elements(s.imm.value)))), R.DoFlushEdit)
  {
    if s.imm.value != [] {
      FlushSameEntries(s.version, s'.version, level, FileData(s.nextFile, size, s.imm.value));
    } else {
      assert Elements([]) == {} && AllFiles(s.version) + {} == AllFiles(s.version);
    }
  }

  // ----- crashes on bytes -----

  function EncodeRecords(encode: R.Record -> Bytes, records: seq<R.Record>): seq<Bytes> {
    seq(|records|, i requires 0 <= i < |records| => encode(records[i]))
  }

  /** What a crash may leave of a log file: a byte prefix that holds all that was synced. */
  ghost predicate CutInBytes(extend: Extend, encode: R.Record -> Bytes, l: R.LogFile, file: Bytes) {
    && l.synced <= |l.records| && file <= Log(extend, EncodeRecords(encode, l.records))
    && |Log(extend, EncodeRecords(encode, l.records[..l.synced]))| <= |file|
  }

  /** Reading it gives a front of the records, no shorter than the synced ones. */
  lemma CutLogReads(extend: Extend, checksum: bool, encode: R.Record -> Bytes, l: R.LogFile, file: Bytes)
    returns (k: nat)
    requires ExtendLaw(extend) && CutInBytes(extend, encode, l, file)
    ensures l.synced <= k <= |l.records| && ReadFrom(extend, checksum, file, 0) == EncodeRecords(encode, l.records[..k])
  {
    hide Log, ReadFrom, ExtendLaw;
    var bytes := EncodeRecords(encode, l.records);
    EmptyLog(extend, bytes);
    k := ReadFromCut(extend, checksum, file, bytes, 0);
    assert bytes[0..k] == EncodeRecords(encode, l.records[..k]);
    assert bytes[..l.synced] == EncodeRecords(encode, l.records[..l.synced]);
    if k < l.synced {
      LogGrows(extend, bytes, k + 1, l.synced);
    }
  }

  /** A crash that cuts the bytes of every log is one of the crashes of the recovery machine: there are places to cut
      the records at, and what the reader gets are exactly the records before them. */
  lemma {:induction false} BytesCutIsRecordCut(extend: Extend, checksum: bool, encode: R.Record -> Bytes,
                                               logs: map<nat, R.LogFile>, files: map<nat, Bytes>)
    returns (at: map<nat, nat>)
    requires ExtendLaw(extend)
    requires forall n | n in logs :: n in files && CutInBytes(extend, encode, logs[n], files[n])
    ensures R.Cuttable(logs, at)
    ensures forall n | n in logs ::
              ReadFrom(extend, checksum, files[n], 0) == EncodeRecords(encode, R.Cut(logs, at)[n].records)
    decreases |logs|
  {
    hide CutInBytes, ReadFrom, EncodeRecords;
    at := map[];
    if logs != map[] {
      var n :| n in logs;
      var rest := logs - {n};
      at := BytesCutIsRecordCut(extend, checksum, encode, rest, files);
      var k := CutLogReads(extend, checksum, encode, logs[n], files[n]);
      CutsBefore(logs, n, at, k);
      at := at[n := k];
    }
  }

  lemma CutsBefore(logs: map<nat, R.LogFile>, n: nat, at: map<nat, nat>, k: nat)
    requires n in logs && R.Cuttable(logs - {n}, at) && logs[n].synced <= k <= |logs[n].records|
    ensures R.Cuttable(logs, at[n := k])
    ensures R.Cut(logs, at[n := k])[n].records == logs[n].records[..k]
    ensures forall m | m in logs && m != n :: R.Cut(logs, at[n := k])[m] == R.Cut(logs - {n}, at)[m]
  {
  }

  // ----- records as batches -----

  function UpdateOf(keys: UserKey -> Bytes, values: string -> Bytes, e: Entry): W.Update {
    if e.key.kind.Value? then W.Put(keys(e.key.user), values(e.value)) else W.Delete(keys(e.key.user))
  }

  function UpdatesOf(keys: UserKey -> Bytes, values: string -> Bytes, es: seq<Entry>): seq<W.Update> {
    seq(|es|, i requires 0 <= i < |es| => UpdateOf(keys, values, es[i]))
  }

  /** A group that a batch can carry. */
  ghost predicate RecordFits(keys: UserKey -> Bytes, values: string -> Bytes, r: R.Record) {
    && r.first < TWO_64 && |r.entries| < TWO_32
    && forall u | u in UpdatesOf(keys, values, r.entries) :: W.Fits(u)
  }

  /** The contents of a group's batch: its first sequence number, its count and its updates. */
  function BatchOf(keys: UserKey -> Bytes, values: string -> Bytes): R.Record -> Bytes {
    (r: R.Record) => EncodeFixed64(r.first % TWO_64) + EncodeFixed32(|r.entries| % TWO_32) +
                     W.EncodeUpdates(UpdatesOf(keys, values, r.entries))
  }

  /** The batch that Write builds for a group has these contents. */
  method BuildBatch(keys: UserKey -> Bytes, values: string -> Bytes, r: R.Record) returns (b: W.WriteBatch)
    requires RecordFits(keys, values, r)
    ensures fresh(b) && b.Valid() && b.updates == UpdatesOf(keys, values, r.entries)
    ensures b.rep == BatchOf(keys, values)(r)
  {
    hide W.EncodeUpdates, EncodeFixed64, EncodeFixed32, W.Fits;
    ghost var us := UpdatesOf(keys, values, r.entries);
    b := new W.WriteBatch();
    for i := 0 to |r.entries|
      invariant fresh(b) && b.Valid() && b.updates == us[..i]
    {
      assert us[i] in us && us[..i + 1] == us[..i] + [us[i]];
      var e := r.entries[i];
      if e.key.kind.Value? {
        b.AddPut(keys(e.key.user), values(e.value));
      } else {
        b.AddDelete(keys(e.key.user));
      }
    }
    b.SetSequence(r.first);
    assert us[..|us|] == us;
    assert b.rep[8..] == b.rep[8..12] + b.rep[12..];
  }

  /** The bytes are those of a batch with the group's number, count and updates. */
  ghost predicate Decodes(keys: UserKey -> Bytes, values: string -> Bytes, bytes: Bytes, r: R.Record) {
    && |bytes| >= W.HEADER && DecodeFixed64(bytes[..8]) == r.first && DecodeFixed32(bytes[8..12]) == |r.entries|
    && W.ParseUpdates(bytes[12..]) == W.Parse(UpdatesOf(keys, values, r.entries), true)
  }

  lemma BatchDecodes(keys: UserKey -> Bytes, values: string -> Bytes, r: R.Record)
    requires RecordFits(keys, values, r)
    ensures Decodes(keys, values, BatchOf(keys, values)(r), r)
  {
    hide W.EncodeUpdates, EncodeFixed64, EncodeFixed32, W.ParseUpdates, W.Fits, DecodeFixed32, DecodeFixed64;
    var us := UpdatesOf(keys, values, r.entries);
    var bytes := BatchOf(keys, values)(r);
    assert bytes[..8] == EncodeFixed64(r.first) + [] && bytes[8..12] == EncodeFixed32(|r.entries|) + [];
    assert bytes[12..] == W.EncodeUpdates(us);
    Fixed64RoundTrip(r.first, []);
    Fixed32RoundTrip(|r.entries|, []);
    W.ParseEncoded(us);
  }

  /** MemTableInserter: what one update puts into the memtable under a sequence number. */
  function EntryOf(users: Bytes -> UserKey, strings: Bytes -> string, u: W.Update, seqno: SeqNo): Entry {
    match u
    case Put(key, value) => Entry(IKey(users(key), seqno, Value), strings(value))
    case Delete(key) => Entry(IKey(users(key), seqno, Deletion), "")
  }

  /** The updates of a batch, numbered from its sequence number on. */
  function EntriesFrom(users: Bytes -> UserKey, strings: Bytes -> string, first: nat, us: seq<W.Update>): seq<Entry>
    requires first + |us| <= MAX_SEQUENCE + 1
  {
    seq(|us|, i requires 0 <= i < |us| => EntryOf(users, strings, us[i], first + i))
  }

  /** InsertInto: the updates of a batch go to the memtable one by one, each under the next sequence number. */
  method InsertInto(users: Bytes -> UserKey, strings: Bytes -> string, b: W.WriteBatch) returns (entries: seq<Entry>)
    requires |b.rep| >= W.HEADER && b.Sequence() + |W.ParseUpdates(b.rep[12..]).updates| <= MAX_SEQUENCE + 1
    ensures entries == EntriesFrom(users, strings, b.Sequence(), W.ParseUpdates(b.rep[12..]).updates)
  {
    hide W.ParseUpdates;
    var seqno := b.Sequence();
    var _, us := b.Iterate();
    entries := [];
    for i := 0 to |us|
      invariant entries == EntriesFrom(users, strings, b.Sequence(), us[..i]) && seqno == b.Sequence() + i
    {
      if us[i].Put? {
        entries := entries + [Entry(IKey(users(us[i].key), seqno, Value), strings(us[i].value))];
      } else {
        entries := entries + [Entry(IKey(users(us[i].key), seqno, Deletion), "")];
      }
      seqno := seqno + 1;
    }
    assert us[..|us|] == us;
  }

  ghost predicate Inverse(keys: UserKey -> Bytes, users: Bytes -> UserKey, values: string -> Bytes,
                          strings: Bytes -> string) {
    (forall k :: users(keys(k)) == k) && (forall v :: strings(values(v)) == v)
  }

  /** The entries of a group as the store makes them: numbered in order, and a deletion has no value. */
  ghost predicate Plain(r: R.Record) {
    && R.NumberedFrom(r.entries, r.first)
    && forall i | 0 <= i < |r.entries| :: r.entries[i].key.kind.Deletion? ==> r.entries[i].value == ""
  }

  /** What recovery makes of the bytes of a record: the number, and the entries that its updates insert. */
  ghost predicate Restores(users: Bytes -> UserKey, strings: Bytes -> string, bytes: Bytes, r: R.Record) {
    && |bytes| >= W.HEADER && DecodeFixed64(bytes[..8]) == r.first && W.ParseUpdates(bytes[12..]).complete
    && DecodeFixed32(bytes[8..12]) == |W.ParseUpdates(bytes[12..]).updates|
    && r.first + |W.ParseUpdates(bytes[12..]).updates| <= MAX_SEQUENCE + 1
    && EntriesFrom(users, strings, r.first, W.ParseUpdates(bytes[12..]).updates) == r.entries
  }

  /** Inserting what the logged bytes parse to gives exactly the group that was logged. */
  lemma LoggedIsRestored(keys: UserKey -> Bytes, users: Bytes -> UserKey, values: string -> Bytes,
                         strings: Bytes -> string, r: R.Record)
    requires Inverse(keys, users, values, strings) && RecordFits(keys, values, r) && Plain(r)
    requires r.first <= MAX_SEQUENCE
    ensures Restores(users, strings, BatchOf(keys, values)(r), r)
  {
    hide W.ParseUpdates, DecodeFixed32, DecodeFixed64, BatchOf;
    BatchDecodes(keys, values, r);
    var us := UpdatesOf(keys, values, r.entries);
    assert |us| > 0 ==> r.entries[|us| - 1].key.seqno == r.first + (|us| - 1);
    forall i | 0 <= i < |us| ensures EntryOf(users, strings, us[i], r.first + i) == r.entries[i] {
    }
  }

  ghost predicate AllFit(keys: UserKey -> Bytes, values: string -> Bytes, logs: map<nat, R.LogFile>) {
    forall n, i | n in logs && 0 <= i < |logs[n].records| ::
      var r := logs[n].records[i]; RecordFits(keys, values, r) && Plain(r) && r.first <= MAX_SEQUENCE
  }

  /** A crash that cuts logs of batches anywhere in their bytes: what is read are batches, and inserting each of them
      gives the group of one of the crashes of the recovery machine. */
  lemma BatchesCut(extend: Extend, checksum: bool, keys: UserKey -> Bytes, users: Bytes -> UserKey,
                   values: string -> Bytes, strings: Bytes -> string, logs: map<nat, R.LogFile>, files: map<nat, Bytes>)
    returns (at: map<nat, nat>)
    requires ExtendLaw(extend) && Inverse(keys, users, values, strings) && AllFit(keys, values, logs)
    requires forall n | n in logs :: n in files && CutInBytes(extend, BatchOf(keys, values), logs[n], files[n])
    ensures R.Cuttable(logs, at)
    ensures forall n | n in logs ::
              |ReadFrom(extend, checksum, files[n], 0)| == |R.Cut(logs, at)[n].records|
    ensures forall n, i | n in logs && 0 <= i < |R.Cut(logs, at)[n].records| ::
              Restores(users, strings, ReadFrom(extend, checksum, files[n], 0)[i], R.Cut(logs, at)[n].records[i])
  {
    hide CutInBytes, ReadFrom, Restores, BatchOf, RecordFits, Plain, Inverse;
    at := BytesCutIsRecordCut(extend, checksum, BatchOf(keys, values), logs, files);
    forall n, i | n in logs && 0 <= i < |R.Cut(logs, at)[n].records|
      ensures Restores(users, strings, ReadFrom(extend, checksum, files[n], 0)[i], R.Cut(logs, at)[n].records[i])
    {
      assert R.Cut(logs, at)[n].records[i] == logs[n].records[i];
      LoggedIsRestored(keys, users, values, strings, logs[n].records[i]);
    }
  }
}
