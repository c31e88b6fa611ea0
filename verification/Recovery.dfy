/** Logging, flushing, crashing and recovering (leveldb/db/db_impl.cc: Write, MakeRoomForWrite, CompactMemTable,
    RemoveObsoleteFiles, Recover, RecoverLogFile, Open; leveldb/db/version_set.cc: LogAndApply).

    A log is its sequence of records, one per write group; a crash may cut it anywhere at or after its last
    sync, and by LogProofs.ReadAll what is read back is then a prefix of the records that includes the synced
    ones.  A table set is the set of its entries; compactions appear as replacements that keep every read. */
module Recovery {
  import opened Options
  import opened InternalKeys
  import opened Reads

  /** A write group as logged: its first sequence number, also when the group is empty, and its entries. */
  datatype Record = Record(first: nat, entries: seq<Entry>)

  datatype LogFile = LogFile(records: seq<Record>, synced: nat)

  /** What the descriptor says.  `flushed` is for specification: everything ever put in a table. */
  datatype Manifest = Manifest(tables: set<Entry>, logNumber: nat, lastSequence: nat, flushed: set<Entry>)

  /** A descriptor record that has been appended but not yet synced. */
  datatype Pending = NoEdit | FlushEdit(m: Manifest) | CompactEdit(m: Manifest)

  /** `written` holds the writes that exist and `acked` those acknowledged with sync set. */
  datatype Store = Store(manifest: Manifest, pending: Pending, logs: map<nat, LogFile>, current: nat,
                         mem: set<Entry>, imm: Option<set<Entry>>, lastSequence: nat,
                         writing: Option<seq<Entry>>, written: set<Entry>, acked: set<Entry>)

  // ----- what logs hold -----

  ghost function EntriesOf(records: seq<Record>): set<Entry> {
    set r, e | r in records && e in r.entries :: e
  }

  /** The last sequence number that a record accounts for. */
  function LastOf(r: Record): int { r.first + |r.entries| - 1 }

  ghost function Stored(l: LogFile): set<Entry> { EntriesOf(l.records) }

  /** What no crash takes away. */
  ghost function Durable(l: LogFile): set<Entry> {
    if l.synced <= |l.records| then EntriesOf(l.records[..l.synced]) else {}
  }

  ghost predicate LogsOk(logs: map<nat, LogFile>) {
    forall n | n in logs :: logs[n].synced <= |logs[n].records|
  }

  ghost predicate InLog(logs: map<nat, LogFile>, n: nat, e: Entry) { n in logs && e in Stored(logs[n]) }

  ghost predicate Kept(logs: map<nat, LogFile>, n: nat, e: Entry) { n in logs && e in Durable(logs[n]) }

  ghost function LogEntries(logs: map<nat, LogFile>, from: nat): set<Entry> {
    set n, e {:trigger InLog(logs, n, e)} | n in logs && e in Stored(logs[n]) && from <= n && InLog(logs, n, e) :: e
  }

  ghost function SyncedEntries(logs: map<nat, LogFile>, from: nat): set<Entry> {
    set n, e {:trigger Kept(logs, n, e)} | n in logs && e in Durable(logs[n]) && from <= n && Kept(logs, n, e) :: e
  }

  /** The entries of the logs before the current one that the descriptor still needs. */
  ghost function EarlierEntries(logs: map<nat, LogFile>, from: nat, current: nat): set<Entry> {
    set n, e {:trigger InLog(logs, n, e)} | n in logs && e in Stored(logs[n]) && from <= n < current
        && InLog(logs, n, e) :: e
  }

  ghost predicate HasRecord(logs: map<nat, LogFile>, n: nat, r: Record) { n in logs && r in logs[n].records }

  /** The records of the logs that the descriptor needs. */
  ghost function LogRecords(logs: map<nat, LogFile>, from: nat): set<Record> {
    set n, r {:trigger HasRecord(logs, n, r)} | n in logs && r in logs[n].records && from <= n
        && HasRecord(logs, n, r) :: r
  }

  /** `max` is the greater of `start` and the numbers that the records account for. */
  ghost predicate IsMax(records: set<Record>, start: nat, max: nat) {
    && start <= max && (forall r | r in records :: LastOf(r) <= max)
    && (max == start || exists r | r in records :: LastOf(r) == max)
  }

  ghost predicate Cuttable(logs: map<nat, LogFile>, at: map<nat, nat>) {
    forall n | n in logs :: n in at && logs[n].synced <= at[n] <= |logs[n].records|
  }

  /** The logs as a crash leaves them. */
  ghost function Cut(logs: map<nat, LogFile>, at: map<nat, nat>): map<nat, LogFile>
    requires Cuttable(logs, at)
  {
    map n | n in logs :: LogFile(logs[n].records[..at[n]], at[n])
  }

  // ----- steps -----

  ghost predicate NumberedFrom(batch: seq<Entry>, first: nat) {
    forall i | 0 <= i < |batch| :: batch[i].key.seqno == first + i
  }

  function Elems(batch: seq<Entry>): set<Entry> { set e | e in batch }

  ghost function InFlight(s: Store): set<Entry> {
    if s.writing.Some? then Elems(s.writing.value) else {}
  }

  /** A group is appended to the log under the next sequence numbers. */
  ghost predicate AddRecord(s: Store, s': Store, batch: seq<Entry>) {
    && s.writing.None? && s.current in s.logs && NumberedFrom(batch, s.lastSequence + 1)
    && var l := s.logs[s.current];
       s' == s.(logs := s.logs[s.current := l.(records := l.records + [Record(s.lastSequence + 1, batch)])],
                writing := Some(batch), written := s.written + Elems(batch))
  }

  ghost predicate SyncLog(s: Store, s': Store) {
    && s.writing.Some? && s.current in s.logs
    && var l := s.logs[s.current];
       s' == s.(logs := s.logs[s.current := l.(synced := |l.records|)])
  }

  /** The group goes into the memtable and LastSequence moves past it; sync writers have been synced. */
  ghost predicate FinishWrite(s: Store, s': Store, sync: bool) {
    && s.writing.Some? && s.current in s.logs
    && (sync ==> s.logs[s.current].synced == |s.logs[s.current].records|)
    && s' == s.(mem := s.mem + InFlight(s), lastSequence := s.lastSequence + |s.writing.value|,
                writing := None, acked := if sync then s.acked + InFlight(s) else s.acked)
  }

  ghost predicate SwitchLog(s: Store, s': Store, newLog: nat) {
    && s.writing.None? && s.imm.None?
    && (forall n | n in s.logs :: n < newLog) && s.current < newLog
    && s' == s.(logs := s.logs[newLog := LogFile([], 0)], current := newLog, imm := Some(s.mem), mem := {})
  }

  ghost predicate WriteFlushEdit(s: Store, s': Store) {
    && s.imm.Some? && s.pending.NoEdit?
    && var m := s.manifest;
       s' == s.(pending := FlushEdit(Manifest(m.tables + s.imm.value, s.current, s.lastSequence,
           m.flushed + s.imm.value)))
  }

  /** Replacing one table set by another changes no read of the newest state. */
  ghost predicate SameReads(a: set<Entry>, b: set<Entry>, snapshot: nat) {
    forall user, n, r {:trigger Answers(a, user, n, r)} | snapshot <= n ::
      Answers(a, user, n, r) <==> Answers(b, user, n, r)
  }

  ghost predicate WriteCompactEdit(s: Store, s': Store, tables: set<Entry>) {
    && s.pending.NoEdit? && tables <= s.manifest.tables && SameReads(s.manifest.tables, tables, s.manifest.lastSequence)
    && s' == s.(pending := CompactEdit(s.manifest.(tables := tables, lastSequence := s.lastSequence)))
  }

  ghost predicate CommitEdit(s: Store, s': Store) {
    && !s.pending.NoEdit?
    && s' == s.(manifest := s.pending.m, pending := NoEdit, imm := if s.pending.FlushEdit? then None else s.imm)
  }

  ghost predicate RemoveLog(s: Store, s': Store, n: nat) {
    n in s.logs && n < s.manifest.logNumber && s' == s.(logs := s.logs - {n})
  }

  /** The descriptor found after a crash: with or without its last record, if that was not yet synced. */
  ghost predicate OnDisk(s: Store, m: Manifest) {
    m == s.manifest || (!s.pending.NoEdit? && m == s.pending.m)
  }

  /** Opening after a crash: records of the logs from the descriptor's log number on become tables, and
      a new descriptor says so. */
  ghost predicate CrashAndRecover(s: Store, s': Store, m: Manifest, at: map<nat, nat>, newLog: nat, last: nat) {
    && OnDisk(s, m) && Cuttable(s.logs, at)
    && (forall n | n in s.logs :: n < newLog) && m.logNumber <= newLog
    && var logs := Cut(s.logs, at);
       var recovered := LogEntries(logs, m.logNumber);
       && IsMax(LogRecords(logs, m.logNumber), m.lastSequence, last)
       && s' == Store(Manifest(m.tables + recovered, newLog, last, m.flushed + recovered),
                      NoEdit, logs[newLog := LogFile([], 0)], newLog, {}, None, last,
                      None, m.flushed + recovered, s.acked)
  }

  datatype Step = DoAdd(batch: seq<Entry>) | DoSync | DoFinish(sync: bool) | DoSwitch(newLog: nat) | DoFlushEdit
    | DoCompactEdit(tables: set<Entry>) | DoCommit | DoRemoveLog(n: nat)
    | DoCrash(m: Manifest, at: map<nat, nat>, newLog: nat, last: nat)

  ghost predicate Next(s: Store, s': Store, step: Step) {
    match step
    case DoAdd(batch) => AddRecord(s, s', batch)
    case DoSync => SyncLog(s, s')
    case DoFinish(sync) => FinishWrite(s, s', sync)
    case DoSwitch(newLog) => SwitchLog(s, s', newLog)
    case DoFlushEdit => WriteFlushEdit(s, s')
    case DoCompactEdit(tables) => WriteCompactEdit(s, s', tables)
    case DoCommit => CommitEdit(s, s')
    case DoRemoveLog(n) => RemoveLog(s, s', n)
    case DoCrash(m, at, newLog, last) => CrashAndRecover(s, s', m, at, newLog, last)
  }

  /** A new database: NewDB's descriptor and one empty log. */
  ghost predicate Init(s: Store) {
    s == Store(Manifest({}, s.current, 0, {}), NoEdit, map[s.current := LogFile([], 0)], s.current, {}, None, 0, None,
        {}, {})
  }

  // ----- what every state keeps -----

  ghost predicate Older(a: set<Entry>, b: set<Entry>) {
    forall x, y | x in a && y in b :: x.key.seqno < y.key.seqno
  }

  ghost predicate UpTo(a: set<Entry>, n: nat) {
    forall x | x in a :: x.key.seqno <= n
  }

  /** A descriptor that may be found after a crash. */
  ghost predicate Covers(s: Store, m: Manifest) {
    && m.tables <= m.flushed && SameReads(m.tables, m.flushed, m.lastSequence)
    && UpTo(m.flushed, m.lastSequence) && m.lastSequence <= s.lastSequence
    && m.logNumber <= s.current
    && m.flushed <= s.written && LogEntries(s.logs, m.logNumber) <= s.written
    && Older(m.flushed, LogEntries(s.logs, m.logNumber))
    && s.acked <= m.flushed + SyncedEntries(s.logs, m.logNumber)
    && ObsoleteFlushed(s.logs, m)
  }

  ghost predicate ObsoleteFlushed(logs: map<nat, LogFile>, m: Manifest) {
    forall n | n in logs && n < m.logNumber :: Stored(logs[n]) <= m.flushed
  }

  ghost predicate RecordOk(r: Record) { r.first >= 1 && NumberedFrom(r.entries, r.first) }

  ghost predicate RecordsAscend(records: seq<Record>) {
    && (forall i, j | 0 <= i < j < |records| :: Older(Elems(records[i].entries), Elems(records[j].entries)))
    && (forall i | 0 <= i < |records| :: RecordOk(records[i]))
  }

  /** Later records, and higher-numbered logs, hold higher sequence numbers. */
  ghost predicate LogsOrdered(logs: map<nat, LogFile>) {
    && (forall n | n in logs :: RecordsAscend(logs[n].records))
    && (forall n, k | n in logs && k in logs && n < k :: Older(Stored(logs[n]), Stored(logs[k])))
  }

  ghost predicate DistinctSeqs(w: set<Entry>) {
    forall x, y | x in w && y in w && x.key.seqno == y.key.seqno :: x == y
  }

  ghost function ImmSet(s: Store): set<Entry> { if s.imm.Some? then s.imm.value else {} }

  ghost predicate LogsHoldMemory(s: Store)
    requires s.current in s.logs
  {
    && Stored(s.logs[s.current]) == s.mem + InFlight(s)
    && EarlierEntries(s.logs, s.manifest.logNumber, s.current) == ImmSet(s)
    && Older(ImmSet(s), s.mem + InFlight(s)) && UpTo(ImmSet(s) + s.mem, s.lastSequence)
  }

  ghost predicate WritesOk(s: Store) {
    && DistinctSeqs(s.written)
    && UpTo(s.written, s.lastSequence + if s.writing.Some? then |s.writing.value| else 0)
    && (s.writing.Some? ==> NumberedFrom(s.writing.value, s.lastSequence + 1))
  }

  ghost predicate PendingOk(s: Store) {
    && (s.pending.FlushEdit? ==> s.imm.Some? && s.pending.m.logNumber == s.current)
    && (s.pending.CompactEdit? ==> s.pending.m.logNumber == s.manifest.logNumber)
  }

  ghost predicate Good(s: Store) {
    && LogsOk(s.logs) && s.current in s.logs && (forall n | n in s.logs :: n <= s.current)
    && Covers(s, s.manifest) && (!s.pending.NoEdit? ==> Covers(s, s.pending.m))
    && LogsHoldMemory(s) && WritesOk(s) && PendingOk(s) && LogsOrdered(s.logs)
  }

  // ----- how the logs change -----

  lemma EntriesConcat(a: seq<Record>, b: seq<Record>)
    ensures EntriesOf(a + b) == EntriesOf(a) + EntriesOf(b)
  {
    assert forall r :: r in a + b <==> r in a || r in b;
  }

  lemma AppendedLog(l: LogFile, r: Record)
    ensures var l' := l.(records := l.records + [r]);
            Stored(l') == Stored(l) + Elems(r.entries) && (l.synced <= |l.records| ==> Durable(l') == Durable(l))
  {
    EntriesConcat(l.records, [r]);
    assert EntriesOf([r]) == Elems(r.entries) by { assert r in [r]; }
    if l.synced <= |l.records| {
      assert (l.records + [r])[..l.synced] == l.records[..l.synced];
    }
  }

  lemma SyncedLog(l: LogFile)
    ensures var l' := l.(synced := |l.records|); Stored(l') == Stored(l) == Durable(l')
    ensures Durable(l) <= Stored(l)
  {
    assert l.records[..|l.records|] == l.records;
    if l.synced <= |l.records| {
      EntriesConcat(l.records[..l.synced], l.records[l.synced..]);
      assert l.records == l.records[..l.synced] + l.records[l.synced..];
    }
  }

  lemma CutLog(l: LogFile, k: nat)
    requires l.synced <= k <= |l.records|
    ensures var l' := LogFile(l.records[..k], k); Durable(l) <= Stored(l') <= Stored(l) && Durable(l') == Stored(l')
  {
    assert l.records == l.records[..k] + l.records[k..]
           && l.records[..k] == l.records[..l.synced] + l.records[l.synced..k];
    EntriesConcat(l.records[..k], l.records[k..]);
    EntriesConcat(l.records[..l.synced], l.records[l.synced..k]);
    assert l.records[..k][..k] == l.records[..k];
  }

  /** Logs that agree except at one number. */
  lemma OtherLogs(logs: map<nat, LogFile>, logs': map<nat, LogFile>, n: nat)
    requires forall k: nat | k != n :: (k in logs <==> k in logs') && (k in logs ==> logs[k] == logs'[k])
    ensures forall k, e {:trigger InLog(logs, k, e)} {:trigger InLog(logs', k, e)} | k != n ::
              InLog(logs, k, e) <==> InLog(logs', k, e)
    ensures forall k, e {:trigger Kept(logs, k, e)} {:trigger Kept(logs', k, e)} | k != n ::
              Kept(logs, k, e) <==> Kept(logs', k, e)
  {
    hide Stored, Durable;
  }

  /** Changing the current log. */
  lemma CurrentLogChanged(logs: map<nat, LogFile>, n: nat, l: LogFile, from: nat)
    requires n in logs && from <= n && Stored(logs[n]) <= Stored(l) && Durable(logs[n]) <= Durable(l)
    ensures LogEntries(logs[n := l], from) == LogEntries(logs, from) + Stored(l)
    ensures SyncedEntries(logs[n := l], from) == SyncedEntries(logs, from) + Durable(l)
    ensures EarlierEntries(logs[n := l], from, n) == EarlierEntries(logs, from, n)
  {
    hide Stored, Durable;
    var logs' := logs[n := l];
    OtherLogs(logs, logs', n);
    assert forall e :: InLog(logs', n, e) <==> e in Stored(l);
    assert forall e :: InLog(logs, n, e) <==> e in Stored(logs[n]);
    assert forall e :: Kept(logs', n, e) <==> e in Durable(l);
    assert forall e :: Kept(logs, n, e) <==> e in Durable(logs[n]);
  }

  lemma LogsSplit(logs: map<nat, LogFile>, current: nat, from: nat)
    requires current in logs && from <= current && forall n | n in logs :: n <= current
    ensures LogEntries(logs, from) == EarlierEntries(logs, from, current) + Stored(logs[current])
    ensures LogEntries(logs, current) == Stored(logs[current]) && EarlierEntries(logs, current, current) == {}
    ensures SyncedEntries(logs, from) <= EarlierEntries(logs, from, current) + Durable(logs[current])
    ensures SyncedEntries(logs, current) == Durable(logs[current])
    ensures SyncedEntries(logs, from) <= LogEntries(logs, from)
  {
    forall n | n in logs ensures Durable(logs[n]) <= Stored(logs[n]) { SyncedLog(logs[n]); }
    hide Stored, Durable;
    assert forall e :: InLog(logs, current, e) <==> e in Stored(logs[current]);
    assert forall e :: Kept(logs, current, e) <==> e in Durable(logs[current]);
    assert forall n, e {:trigger Kept(logs, n, e)} :: Kept(logs, n, e) ==> InLog(logs, n, e);
  }

  lemma NewLogAdded(logs: map<nat, LogFile>, current: nat, newLog: nat, from: nat)
    requires current in logs && (forall n | n in logs :: n <= current) && current < newLog && from <= newLog
    ensures var logs' := logs[newLog := LogFile([], 0)];
            && LogEntries(logs', from) == LogEntries(logs, from)
            && SyncedEntries(logs', from) == SyncedEntries(logs, from)
            && EarlierEntries(logs', from, newLog) == LogEntries(logs, from)
            && Stored(logs'[newLog]) == {}
  {
    assert EntriesOf([]) == {};
    assert Stored(LogFile([], 0)) == {} && Durable(LogFile([], 0)) == {};
    hide Stored, Durable;
    OtherLogs(logs, logs[newLog := LogFile([], 0)], newLog);
  }

  lemma LogRemoved(logs: map<nat, LogFile>, n: nat, from: nat, current: nat)
    requires n < from
    ensures LogEntries(logs - {n}, from) == LogEntries(logs, from)
            && SyncedEntries(logs - {n}, from) == SyncedEntries(logs, from)
    ensures EarlierEntries(logs - {n}, from, current) == EarlierEntries(logs, from, current)
  {
    hide Stored, Durable;
    OtherLogs(logs, logs - {n}, n);
  }

  lemma LogsCut(logs: map<nat, LogFile>, at: map<nat, nat>, from: nat)
    requires Cuttable(logs, at)
    ensures SyncedEntries(logs, from) <= LogEntries(Cut(logs, at), from) <= LogEntries(logs, from)
  {
    var c := Cut(logs, at);
    forall n | n in logs ensures Durable(logs[n]) <= Stored(c[n]) <= Stored(logs[n]) { CutLog(logs[n], at[n]); }
    hide Stored, Durable;
    assert forall n, e {:trigger InLog(c, n, e)} :: InLog(c, n, e) ==> InLog(logs, n, e);
    assert forall n, e {:trigger Kept(logs, n, e)} :: Kept(logs, n, e) ==> InLog(c, n, e);
  }
}
