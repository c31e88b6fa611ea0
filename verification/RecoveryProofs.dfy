/** No acknowledged write is lost in any run of writes, flushes, compactions, crashes and recoveries. */
module RecoveryProofs {
  import opened Options
  import opened InternalKeys
  import opened Reads
  import opened Recovery

  // ----- reads of a union -----

  /** When the newer entries say something of a key, they alone decide. */
  lemma NewerDecide(below: set<Entry>, above: set<Entry>, user: UserKey, n: nat)
    requires Older(below, above) && !Hidden(above, user, n)
    ensures forall e :: Top(below + above, user, n, e) <==> Top(above, user, n, e)
  {
  }

  lemma SameReadsUnder(a: set<Entry>, b: set<Entry>, above: set<Entry>, k: nat, k': nat)
    requires SameReads(a, b, k) && k <= k' && a <= b && Older(b, above)
    ensures SameReads(a + above, b + above, k')
  {
    forall user, n, r | k' <= n ensures Answers(a + above, user, n, r) <==> Answers(b + above, user, n, r) {
      if Hidden(above, user, n) {
        MissAbove(above, a, user, n);
        MissAbove(above, b, user, n);
        assert above + a == a + above && above + b == b + above;
        assert Answers(a, user, n, r) <==> Answers(b, user, n, r);
      } else {
        NewerDecide(a, above, user, n);
        NewerDecide(b, above, user, n);
      }
    }
  }

  // ----- the order of the logs -----

  lemma StoredWritten(s: Store, n: nat)
    requires Covers(s, s.manifest) && n in s.logs
    ensures Stored(s.logs[n]) <= s.written
  {
    hide Stored;
    assert forall e | e in Stored(s.logs[n]) :: InLog(s.logs, n, e);
  }

  lemma OrderedAfterAppend(logs: map<nat, LogFile>, current: nat, r: Record)
    requires LogsOrdered(logs) && current in logs && forall n | n in logs :: n <= current
    requires forall n | n in logs :: Older(Stored(logs[n]), Elems(r.entries))
    requires RecordOk(r)
    ensures LogsOrdered(logs[current := logs[current].(records := logs[current].records + [r])])
  {
    hide Stored, RecordsAscend;
    var l := logs[current];
    AppendedLog(l, r);
    StoredIs(l);
    AscendAppend(l.records, r);
  }

  lemma StoredIs(l: LogFile)
    ensures Stored(l) == EntriesOf(l.records)
  {
  }

  lemma AscendAppend(records: seq<Record>, r: Record)
    requires RecordsAscend(records) && Older(EntriesOf(records), Elems(r.entries)) && RecordOk(r)
    ensures RecordsAscend(records + [r])
  {
  }

  lemma OrderedAfterChange(logs: map<nat, LogFile>, n: nat, l: LogFile)
    requires LogsOrdered(logs) && (l.records == [] || (n in logs && l.records == logs[n].records))
    ensures LogsOrdered(logs[n := l]) && LogsOrdered(logs - {n})
  {
  }

  lemma OrderedAfterCut(logs: map<nat, LogFile>, at: map<nat, nat>)
    requires LogsOrdered(logs) && Cuttable(logs, at)
    ensures LogsOrdered(Cut(logs, at))
  {
    var c := Cut(logs, at);
    forall n | n in logs ensures Stored(c[n]) <= Stored(logs[n]) && RecordsAscend(c[n].records) {
      CutLog(logs[n], at[n]);
      assert RecordsAscend(logs[n].records);
    }
    hide Stored;
  }

  // ----- each step -----

  lemma CoversAfterAdd(s: Store, s': Store, batch: seq<Entry>, m: Manifest)
    requires Good(s) && AddRecord(s, s', batch) && Covers(s, m)
    ensures Covers(s', m)
  {
    hide SameReads, Stored, Durable, LogsOrdered, LogEntries, SyncedEntries, EarlierEntries, LogsHoldMemory;
    var l := s.logs[s.current];
    var r := Record(s.lastSequence + 1, batch);
    AppendedLog(l, r);
    CurrentLogChanged(s.logs, s.current, l.(records := l.records + [r]), m.logNumber);
    LogsSplit(s.logs, s.current, m.logNumber);
  }

  lemma MemoryAfterAdd(s: Store, s': Store, batch: seq<Entry>)
    requires Good(s) && AddRecord(s, s', batch)
    ensures LogsHoldMemory(s') && WritesOk(s') && LogsOk(s'.logs)
  {
    hide Covers, Stored, Durable, LogsOrdered;
    var l := s.logs[s.current];
    var r := Record(s.lastSequence + 1, batch);
    AppendedLog(l, r);
    assert s.manifest.logNumber <= s.current by { assert Covers(s, s.manifest); LogNumberBound(s, s.manifest); }
    CurrentLogChanged(s.logs, s.current, l.(records := l.records + [r]), s.manifest.logNumber);
  }

  lemma OrderedAfterAdd(s: Store, s': Store, batch: seq<Entry>)
    requires Good(s) && AddRecord(s, s', batch)
    ensures LogsOrdered(s'.logs)
  {
    hide Covers, Stored, Durable, LogsHoldMemory, LogsOrdered;
    forall n | n in s.logs ensures Older(Stored(s.logs[n]), Elems(batch)) {
      StoredWritten(s, n);
    }
    OrderedAfterAppend(s.logs, s.current, Record(s.lastSequence + 1, batch));
  }

  lemma LogNumberBound(s: Store, m: Manifest)
    requires Covers(s, m)
    ensures m.logNumber <= s.current && m.flushed <= s.written && m.lastSequence <= s.lastSequence
    ensures UpTo(m.flushed, m.lastSequence)
  {
  }

  lemma AddKeepsGood(s: Store, s': Store, batch: seq<Entry>)
    requires Good(s) && AddRecord(s, s', batch)
    ensures Good(s')
  {
    hide Covers, Stored, Durable, LogsHoldMemory, WritesOk, LogsOrdered;
    OrderedAfterAdd(s, s', batch);
    CoversAfterAdd(s, s', batch, s.manifest);
    if !s.pending.NoEdit? {
      CoversAfterAdd(s, s', batch, s.pending.m);
    }
    MemoryAfterAdd(s, s', batch);
  }

  lemma CoversAfterSync(s: Store, s': Store, m: Manifest)
    requires Good(s) && SyncLog(s, s') && Covers(s, m)
    ensures Covers(s', m)
  {
    hide SameReads, Stored, Durable;
    var l := s.logs[s.current];
    SyncedLog(l);
    CurrentLogChanged(s.logs, s.current, l.(synced := |l.records|), m.logNumber);
    LogsSplit(s.logs, s.current, m.logNumber);
  }

  lemma SyncKeepsGood(s: Store, s': Store)
    requires Good(s) && SyncLog(s, s')
    ensures Good(s')
  {
    hide Covers, Stored, Durable, EarlierEntries, LogsOrdered;
    OrderedAfterChange(s.logs, s.current, s'.logs[s.current]);
    CoversAfterSync(s, s', s.manifest);
    if !s.pending.NoEdit? {
      CoversAfterSync(s, s', s.pending.m);
    }
    var l := s.logs[s.current];
    SyncedLog(l);
    LogNumberBound(s, s.manifest);
    CurrentLogChanged(s.logs, s.current, l.(synced := |l.records|), s.manifest.logNumber);
  }

  lemma CoversAfterFinish(s: Store, s': Store, sync: bool, m: Manifest)
    requires Good(s) && FinishWrite(s, s', sync) && Covers(s, m)
    ensures Covers(s', m)
  {
    hide SameReads, Stored, Durable;
    LogsSplit(s.logs, s.current, m.logNumber);
    if sync {
      var l := s.logs[s.current];
      SyncedLog(l);
      assert l.(synced := |l.records|) == l;
      assert forall e | e in Durable(l) :: Kept(s.logs, s.current, e);
    }
  }

  lemma FinishKeepsGood(s: Store, s': Store, sync: bool)
    requires Good(s) && FinishWrite(s, s', sync)
    ensures Good(s')
  {
    hide Covers, Stored, Durable, EarlierEntries, LogsOrdered;
    CoversAfterFinish(s, s', sync, s.manifest);
    if !s.pending.NoEdit? {
      CoversAfterFinish(s, s', sync, s.pending.m);
    }
    assert s'.mem + InFlight(s') == s.mem + InFlight(s);
  }

  lemma CoversAfterSwitch(s: Store, s': Store, newLog: nat, m: Manifest)
    requires Good(s) && SwitchLog(s, s', newLog) && Covers(s, m)
    ensures Covers(s', m)
  {
    hide SameReads, Stored, Durable, LogEntries, SyncedEntries;
    NewLogAdded(s.logs, s.current, newLog, m.logNumber);
  }

  lemma SwitchKeepsGood(s: Store, s': Store, newLog: nat)
    requires Good(s) && SwitchLog(s, s', newLog)
    ensures Good(s')
  {
    hide Covers, Stored, Durable, LogEntries, SyncedEntries, EarlierEntries, LogsOrdered;
    OrderedAfterChange(s.logs, newLog, LogFile([], 0));
    CoversAfterSwitch(s, s', newLog, s.manifest);
    if !s.pending.NoEdit? {
      CoversAfterSwitch(s, s', newLog, s.pending.m);
    }
    LogNumberBound(s, s.manifest);
    NewLogAdded(s.logs, s.current, newLog, s.manifest.logNumber);
    LogsSplit(s.logs, s.current, s.manifest.logNumber);
    assert InFlight(s) == {} && InFlight(s') == {} && ImmSet(s) == {};
  }

  lemma ObsoleteAfterFlush(logs: map<nat, LogFile>, m: Manifest, current: nat, imm: set<Entry>, last: nat)
    requires ObsoleteFlushed(logs, m) && EarlierEntries(logs, m.logNumber, current) <= imm
    ensures ObsoleteFlushed(logs, Manifest(m.tables + imm, current, last, m.flushed + imm))
  {
    hide Stored;
    forall n, e | n in logs && n < current && e in Stored(logs[n]) ensures e in m.flushed + imm {
      assert InLog(logs, n, e);
    }
  }

  lemma FlushEditKeepsGood(s: Store, s': Store)
    requires Good(s) && WriteFlushEdit(s, s')
    ensures Good(s')
  {
    hide Stored, Durable, LogEntries, SyncedEntries, EarlierEntries, SameReads, LogsOrdered, ObsoleteFlushed;
    var m, m' := s.manifest, s'.pending.m;
    ObsoleteAfterFlush(s.logs, m, s.current, s.imm.value, s.lastSequence);
    LogsSplit(s.logs, s.current, m.logNumber);
    LogsSplit(s.logs, s.current, s.current);
    SameReadsUnder(m.tables, m.flushed, s.imm.value, m.lastSequence, s.lastSequence);
    assert Covers(s', m');
    assert Covers(s', m);
  }

  lemma CompactEditKeepsGood(s: Store, s': Store, tables: set<Entry>)
    requires Good(s) && WriteCompactEdit(s, s', tables)
    ensures Good(s')
  {
    hide Stored, Durable, LogEntries, SyncedEntries, EarlierEntries, LogsOrdered;
    var m, m' := s.manifest, s'.pending.m;
    assert SameReads(tables, m.flushed, s.lastSequence) by {
      assert forall user, n, r | m.lastSequence <= n ::
               Answers(m.tables, user, n, r) <==> Answers(m.flushed, user, n, r);
    }
    hide SameReads;
    assert Covers(s', m) && Covers(s', m');
  }

  lemma CommitKeepsGood(s: Store, s': Store)
    requires Good(s) && CommitEdit(s, s')
    ensures Good(s')
  {
    hide Stored, Durable, LogEntries, SyncedEntries, EarlierEntries, SameReads, LogsOrdered, ObsoleteFlushed;
    LogsSplit(s.logs, s.current, s.current);
    assert Covers(s', s'.manifest);
  }

  lemma CoversAfterRemove(s: Store, s': Store, n: nat, m: Manifest)
    requires RemoveLog(s, s', n) && Covers(s, m) && n < m.logNumber
    ensures Covers(s', m)
  {
    hide Stored, Durable, LogEntries, SyncedEntries, EarlierEntries, SameReads;
    LogRemoved(s.logs, n, m.logNumber, s.current);
  }

  lemma RemoveKeepsGood(s: Store, s': Store, n: nat)
    requires Good(s) && RemoveLog(s, s', n)
    ensures Good(s')
  {
    hide Covers, Stored, Durable, LogEntries, SyncedEntries, EarlierEntries, LogsOrdered;
    LogNumberBound(s, s.manifest);
    OrderedAfterChange(s.logs, n, s.logs[n]);
    CoversAfterRemove(s, s', n, s.manifest);
    if !s.pending.NoEdit? {
      CoversAfterRemove(s, s', n, s.pending.m);
    }
    LogRemoved(s.logs, n, s.manifest.logNumber, s.current);
  }

  lemma ObsoleteAfterCrash(logs: map<nat, LogFile>, at: map<nat, nat>, m: Manifest, newLog: nat, last: nat)
    requires ObsoleteFlushed(logs, m) && Cuttable(logs, at)
    ensures var c := Cut(logs, at);
            var recovered := LogEntries(c, m.logNumber);
            ObsoleteFlushed(c[newLog := LogFile([], 0)],
                Manifest(m.tables + recovered, newLog, last, m.flushed + recovered))
  {
    var c := Cut(logs, at);
    forall n | n in logs ensures Stored(c[n]) <= Stored(logs[n]) { CutLog(logs[n], at[n]); }
    hide Stored;
    forall n, e | n in logs && e in Stored(c[n]) ensures e in m.flushed + LogEntries(c, m.logNumber) {
      assert InLog(c, n, e);
    }
  }

  lemma CoversAfterCrash(s: Store, s': Store, m: Manifest, at: map<nat, nat>, newLog: nat, last: nat)
    requires Good(s) && CrashAndRecover(s, s', m, at, newLog, last)
    ensures Covers(s', s'.manifest) && s'.written <= s.written && s'.written == s'.manifest.flushed
  {
    hide Stored, Durable, LogEntries, SyncedEntries, SameReads, EarlierEntries, LogsOrdered, ObsoleteFlushed;
    assert Covers(s, m);
    ObsoleteAfterCrash(s.logs, at, m, newLog, last);
    var logs := Cut(s.logs, at);
    OrderedAfterCut(s.logs, at);
    RecoveredUpTo(logs, m.logNumber, m.lastSequence, last);
    var recovered := LogEntries(logs, m.logNumber);
    LogsCut(s.logs, at, m.logNumber);
    NewLogAdded(logs, s.current, newLog, newLog);
    NothingBeyond(logs, newLog);
    SameReadsUnder(m.tables, m.flushed, recovered, m.lastSequence, last);
  }

  /** What a record holds is at or below the number it accounts for. */
  lemma RecoveredUpTo(logs: map<nat, LogFile>, from: nat, start: nat, last: nat)
    requires LogsOrdered(logs) && IsMax(LogRecords(logs, from), start, last)
    ensures start <= last && UpTo(LogEntries(logs, from), last)
  {
    forall e | e in LogEntries(logs, from) ensures e.key.seqno <= last {
      var n :| n in logs && e in Stored(logs[n]) && from <= n && InLog(logs, n, e);
      var r :| r in logs[n].records && e in r.entries;
      assert HasRecord(logs, n, r);
      assert r in LogRecords(logs, from) && RecordsAscend(logs[n].records) && RecordOk(r);
      var i :| 0 <= i < |r.entries| && r.entries[i] == e;
    }
  }

  lemma NothingBeyond(logs: map<nat, LogFile>, newLog: nat)
    requires forall n | n in logs :: n < newLog
    ensures LogEntries(logs, newLog) == {} && SyncedEntries(logs, newLog) == {}
  {
  }

  lemma CrashKeepsGood(s: Store, s': Store, m: Manifest, at: map<nat, nat>, newLog: nat, last: nat)
    requires Good(s) && CrashAndRecover(s, s', m, at, newLog, last)
    ensures Good(s')
  {
    hide Covers, Stored, Durable, LogEntries, SyncedEntries, SameReads, EarlierEntries, LogsOrdered;
    CoversAfterCrash(s, s', m, at, newLog, last);
    LogNumberBound(s', s'.manifest);
    NewLogAdded(Cut(s.logs, at), s.current, newLog, newLog);
    NothingBeyond(Cut(s.logs, at), newLog);
    OrderedAfterCut(s.logs, at);
    OrderedAfterChange(Cut(s.logs, at), newLog, LogFile([], 0));
  }

  lemma InitGood(s: Store)
    requires Init(s)
    ensures Good(s)
  {
  }

  lemma StepKeepsGood(s: Store, s': Store, step: Step)
    requires Good(s) && Next(s, s', step)
    ensures Good(s')
  {
    hide Good, AddRecord, SyncLog, FinishWrite, SwitchLog, WriteFlushEdit, WriteCompactEdit, CommitEdit, RemoveLog,
         CrashAndRecover;
    match step
    case DoAdd(batch) => AddKeepsGood(s, s', batch);
    case DoSync => SyncKeepsGood(s, s');
    case DoFinish(sync) => FinishKeepsGood(s, s', sync);
    case DoSwitch(newLog) => SwitchKeepsGood(s, s', newLog);
    case DoFlushEdit => FlushEditKeepsGood(s, s');
    case DoCompactEdit(tables) => CompactEditKeepsGood(s, s', tables);
    case DoCommit => CommitKeepsGood(s, s');
    case DoRemoveLog(n) => RemoveKeepsGood(s, s', n);
    case DoCrash(m, at, newLog, last) => CrashKeepsGood(s, s', m, at, newLog, last);
  }

  ghost predicate IsRun(run: seq<Store>, steps: seq<Step>) {
    && |run| == |steps| + 1 && Init(run[0])
    && forall i | 0 <= i < |steps| :: Next(run[i], run[i + 1], steps[i])
  }

  lemma {:induction false} RunKeepsGood(run: seq<Store>, steps: seq<Step>, n: nat)
    requires IsRun(run, steps) && n < |run|
    ensures Good(run[n])
  {
    hide Good, Next, Init;
    if n == 0 {
      InitGood(run[0]);
    } else {
      RunKeepsGood(run, steps, n - 1);
      StepKeepsGood(run[n - 1], run[n], steps[n - 1]);
    }
  }

  function Outcome(w: Entry): Option<string> { if w.key.kind.Value? then Some(w.value) else None }

  /** After a crash anywhere in any run, and recovery, every key that had a sync-acknowledged write reads as the last
      such write or as a newer one, and LastSequence is at or above everything recovered. */
  lemma AcknowledgedSurvive(run: seq<Store>, steps: seq<Step>, n: nat, user: UserKey, e: Entry) returns (w: Entry)
    requires IsRun(run, steps) && n < |steps| && steps[n].DoCrash?
    requires e in run[n].acked && e.key.user == user
    ensures w in run[n].written && w.key.user == user
    ensures forall a | a in run[n].acked && a.key.user == user :: a.key.seqno <= w.key.seqno
    ensures Answers(run[n + 1].manifest.tables, user, run[n + 1].lastSequence, Outcome(w))
    ensures UpTo(run[n + 1].manifest.tables, run[n + 1].lastSequence)
  {
    hide LogsOrdered, LogsHoldMemory, LogEntries, SyncedEntries, SameReads;
    var s, s', st := run[n], run[n + 1], steps[n];
    RunKeepsGood(run, steps, n);
    assert Next(s, s', st);
    CoversAfterCrash(s, s', st.m, st.at, st.newLog, st.last);
    NewLogAdded(Cut(s.logs, st.at), s.current, st.newLog, st.newLog);
    NothingBeyond(Cut(s.logs, st.at), st.newLog);
    w := NewestSurvivor(s', user, e);
  }

  lemma NewestSurvivor(s: Store, user: UserKey, e: Entry) returns (w: Entry)
    requires Covers(s, s.manifest) && s.written == s.manifest.flushed
             && SyncedEntries(s.logs, s.manifest.logNumber) == {}
    requires DistinctSeqs(s.written) && s.manifest.lastSequence == s.lastSequence
    requires e in s.acked && e.key.user == user
    ensures w in s.written && w.key.user == user
    ensures forall a | a in s.acked && a.key.user == user :: a.key.seqno <= w.key.seqno
    ensures Answers(s.manifest.tables, user, s.lastSequence, Outcome(w))
  {
    var all := s.manifest.flushed;
    TopExists(all, user, s.lastSequence, e);
    w :| Top(all, user, s.lastSequence, w);
    assert forall x :: Top(all, user, s.lastSequence, x) ==> x == w;
    assert Answers(all, user, s.lastSequence, Outcome(w));
  }

  /** A sync write goes through from every state in which none is under way: its group gets the next numbers, is in the
      memtable and in the log, and is acknowledged. */
  lemma WriteGoesThrough(s: Store, batch: seq<Entry>) returns (s1: Store, s2: Store, s3: Store)
    requires s.writing.None? && s.current in s.logs && NumberedFrom(batch, s.lastSequence + 1)
    ensures Next(s, s1, DoAdd(batch)) && Next(s1, s2, DoSync) && Next(s2, s3, DoFinish(true))
    ensures s3.lastSequence == s.lastSequence + |batch| && s3.writing.None?
    ensures forall e | e in batch ::
              e in s3.mem && e in s3.acked && e in s3.written && e in Durable(s3.logs[s3.current])
  {
    var l := s.logs[s.current];
    var l1 := l.(records := l.records + [Record(s.lastSequence + 1, batch)]);
    s1 := s.(logs := s.logs[s.current := l1], writing := Some(batch), written := s.written + Elems(batch));
    s2 := s1.(logs := s1.logs[s.current := l1.(synced := |l1.records|)]);
    s3 := s2.(mem := s2.mem + InFlight(s2), lastSequence := s2.lastSequence + |batch|,
              writing := None, acked := s2.acked + InFlight(s2));
    assert l1.records[..|l1.records|] == l1.records && l1.records[|l.records|] in l1.records;
  }

  /** A full memtable: a new log is opened, the old memtable becomes a table, the descriptor says so, and the old
      log goes. */
  lemma FlushGoesThrough(s: Store) returns (s1: Store, s2: Store, s3: Store, s4: Store)
    requires s.current in s.logs && (forall n | n in s.logs :: n <= s.current)
    requires s.writing.None? && s.imm.None? && s.pending.NoEdit?
    ensures Next(s, s1, DoSwitch(s.current + 1)) && Next(s1, s2, DoFlushEdit) && Next(s2, s3, DoCommit)
    ensures Next(s3, s4, DoRemoveLog(s.current))
    ensures s4.manifest.tables == s.manifest.tables + s.mem && s4.manifest.lastSequence == s.lastSequence
    ensures s4.mem == {} && s4.imm.None? && s.current !in s4.logs && s4.manifest.logNumber == s4.current > s.current
  {
    s1 := s.(logs := s.logs[s.current + 1 := LogFile([], 0)], current := s.current + 1, imm := Some(s.mem), mem := {});
    s2 := s1.(pending := FlushEdit(Manifest(s.manifest.tables + s.mem, s1.current, s.lastSequence,
                                            s.manifest.flushed + s.mem)));
    s3 := s2.(manifest := s2.pending.m, pending := NoEdit, imm := None);
    s4 := s3.(logs := s3.logs - {s.current});
  }

  lemma {:induction false} SomeMax(records: set<Record>, start: nat) returns (max: nat)
    ensures IsMax(records, start, max)
  {
    if records == {} {
      max := start;
    } else {
      var r :| r in records;
      var rest := SomeMax(records - {r}, start);
      assert records == records - {r} + {r};
      max := if LastOf(r) <= rest then rest else LastOf(r);
    }
  }

  /** Whatever a crash leaves can be opened: for each descriptor that may be found and each way the logs may be cut. */
  lemma EveryCrashOpens(s: Store, m: Manifest, at: map<nat, nat>) returns (newLog: nat, last: nat, s': Store)
    requires Good(s) && (m == s.manifest || (!s.pending.NoEdit? && m == s.pending.m))
    requires forall n | n in s.logs :: n in at && s.logs[n].synced <= at[n] <= |s.logs[n].records|
    ensures Next(s, s', DoCrash(m, at, newLog, last)) && newLog == s.current + 1
    ensures s.acked <= s'.written && s'.lastSequence == last
  {
    hide LogsHoldMemory, WritesOk, PendingOk, LogsOrdered, SameReads, LogEntries, SyncedEntries, Older, UpTo;
    newLog := s.current + 1;
    var logs := Cut(s.logs, at);
    var recovered := LogEntries(logs, m.logNumber);
    last := SomeMax(LogRecords(logs, m.logNumber), m.lastSequence);
    s' := Store(Manifest(m.tables + recovered, newLog, last, m.flushed + recovered), NoEdit,
                logs[newLog := LogFile([], 0)], newLog, {}, None, last, None, m.flushed + recovered, s.acked);
    assert Covers(s, m);
    LogsCut(s.logs, at, m.logNumber);
  }

  lemma AckedGrows(s: Store, s': Store, step: Step)
    requires Next(s, s', step)
    ensures s.acked <= s'.acked
    ensures step == DoFinish(true) ==> s.writing.Some? && forall e | e in s.writing.value :: e in s'.acked
  {
  }

  lemma {:induction false} AckedStays(run: seq<Store>, steps: seq<Step>, i: nat, n: nat)
    requires IsRun(run, steps) && i <= n < |run|
    ensures run[i].acked <= run[n].acked
  {
    hide Init;
    if i < n {
      AckedStays(run, steps, i, n - 1);
      AckedGrows(run[n - 1], run[n], steps[n - 1]);
    }
  }

  /** A group that a sync write has finished with: after any later crash each of its keys reads as the entry that was
      written or as a newer one. */
  lemma SyncedWriteSurvives(run: seq<Store>, steps: seq<Step>, i: nat, n: nat, e: Entry) returns (w: Entry)
    requires IsRun(run, steps) && i < n < |steps| && steps[i] == DoFinish(true) && steps[n].DoCrash?
    requires run[i].writing.Some? && e in run[i].writing.value
    ensures w.key.user == e.key.user && e.key.seqno <= w.key.seqno && w in run[n].written
    ensures Answers(run[n + 1].manifest.tables, e.key.user, run[n + 1].lastSequence, Outcome(w))
  {
    hide Init;
    AckedGrows(run[i], run[i + 1], steps[i]);
    AckedStays(run, steps, i + 1, n);
    w := AcknowledgedSurvive(run, steps, n, e.key.user, e);
  }

  // ----- DBImpl::Recover -----

  ghost function Union(tables: seq<set<Entry>>): set<Entry> {
    set i, e | 0 <= i < |tables| && e in tables[i] :: e
  }

  /** Later tables, which get higher file numbers, hold newer entries. */
  ghost predicate Aged(tables: seq<set<Entry>>) {
    && (forall i | 0 <= i < |tables| :: tables[i] != {})
    && (forall i, j | 0 <= i < j < |tables| :: Older(tables[i], tables[j]))
  }

  lemma TableAdded(tables: seq<set<Entry>>, t: set<Entry>)
    requires Aged(tables) && Older(Union(tables), t) && t != {}
    ensures Aged(tables + [t]) && Union(tables + [t]) == Union(tables) + t
  {
    var all := tables + [t];
    assert forall i | 0 <= i < |tables| :: all[i] == tables[i] && tables[i] <= Union(tables);
    assert all[|tables|] == t;
  }

  ghost function RecordSet(records: seq<Record>): set<Record> { set r | r in records }

  lemma NextRecord(records: seq<Record>, i: nat)
    requires i < |records| && RecordsAscend(records)
    ensures EntriesOf(records[..i + 1]) == EntriesOf(records[..i]) + Elems(records[i].entries)
    ensures RecordSet(records[..i + 1]) == RecordSet(records[..i]) + {records[i]}
    ensures Older(EntriesOf(records[..i]), Elems(records[i].entries)) && Elems(records[i].entries) <= EntriesOf(records)
    ensures RecordOk(records[i])
  {
  }

  lemma MaxOfRecord(done: set<Record>, r: Record, start: nat, max: nat)
    requires IsMax(done, start, max) && r.first >= 1
    ensures IsMax(done + {r}, start, if LastOf(r) > max then LastOf(r) else max)
  {
    assert r in done + {r};
  }

  /** Replays one log, writing out the memtable whenever it is full and at the end. */
  method RecoverLogFile(records: seq<Record>, full: set<Entry> -> bool, edit: seq<set<Entry>>, maxSequence: nat)
    returns (edit': seq<set<Entry>>, max: nat)
    requires RecordsAscend(records) && Aged(edit) && Older(Union(edit), EntriesOf(records))
    ensures Aged(edit') && Union(edit') == Union(edit) + EntriesOf(records)
    ensures IsMax(RecordSet(records), maxSequence, max)
  {
    hide EntriesOf, RecordSet, Union, Aged, IsMax, Older, RecordsAscend;
    edit', max := edit, maxSequence;
    var mem: set<Entry> := {};
    NoRecords(records, Union(edit), maxSequence);
    for i := 0 to |records|
      invariant Aged(edit') && Union(edit') + mem == Union(edit) + EntriesOf(records[..i])
      invariant Older(Union(edit'), mem)
      invariant IsMax(RecordSet(records[..i]), maxSequence, max)
    {
      NextRecord(records, i);
      OlderUnion(Union(edit), EntriesOf(records[..i]), EntriesOf(records), Elems(records[i].entries));
      edit', mem, max := ReplayRecord(records[i], full, edit', mem, max, RecordSet(records[..i]), maxSequence);
    }
    assert records[..|records|] == records;
    if mem != {} {
      TableAdded(edit', mem);
      edit' := edit' + [mem];
    }
  }

  method ReplayRecord(r: Record, full: set<Entry> -> bool, edit: seq<set<Entry>>, mem: set<Entry>, max: nat,
                      ghost done: set<Record>, ghost start: nat)
    returns (edit': seq<set<Entry>>, mem': set<Entry>, max': nat)
    requires Aged(edit) && Older(Union(edit), mem) && Older(Union(edit) + mem, Elems(r.entries))
    requires IsMax(done, start, max) && RecordOk(r)
    ensures Aged(edit') && Older(Union(edit'), mem') && Union(edit') + mem' == Union(edit) + mem + Elems(r.entries)
    ensures IsMax(done + {r}, start, max')
  {
    MaxOfRecord(done, r, start, max);
    hide Union, Aged, IsMax;
    edit', mem', max' := edit, mem + Elems(r.entries), max;
    var lastSeq := r.first + |r.entries| - 1;
    if lastSeq > max {
      max' := lastSeq;
    }
    if full(mem') {
      if mem' != {} {
        TableAdded(edit, mem');
        edit' := edit + [mem'];
      }
      mem' := {};
    }
  }

  lemma NoRecords(records: seq<Record>, a: set<Entry>, n: nat)
    ensures EntriesOf(records[..0]) == {} && RecordSet(records[..0]) == {} && Older(a, {}) && IsMax({}, n, n)
  {
  }

  lemma OlderUnion(a: set<Entry>, b: set<Entry>, c: set<Entry>, d: set<Entry>)
    requires Older(a, c) && d <= c && Older(b, d)
    ensures Older(a + b, d)
  {
  }

  ghost predicate Ascending(s: seq<nat>) {
    forall i, j | 0 <= i < j < |s| :: s[i] < s[j]
  }

  method InsertNumber(sorted: seq<nat>, n: nat) returns (r: seq<nat>)
    requires Ascending(sorted) && n !in sorted
    ensures Ascending(r) && forall x :: x in r <==> x in sorted || x == n
  {
    var k := 0;
    while k < |sorted| && sorted[k] < n
      invariant k <= |sorted| && forall j | 0 <= j < k :: sorted[j] < n
    {
      k := k + 1;
    }
    r := sorted[..k] + [n] + sorted[k..];
    Inserted(sorted, n, k);
  }

  lemma Inserted(s: seq<nat>, n: nat, k: nat)
    requires Ascending(s) && n !in s && k <= |s|
    requires (forall j | 0 <= j < k :: s[j] < n) && (k < |s| ==> n <= s[k])
    ensures Ascending(s[..k] + [n] + s[k..]) && forall x :: x in s[..k] + [n] + s[k..] <==> x in s || x == n
  {
  }

  /** The logs to replay: those the descriptor needs, in the order in which they were made. */
  method LogsToReplay(listing: seq<nat>, minLog: nat) returns (logs: seq<nat>)
    requires forall i, j | 0 <= i < j < |listing| :: listing[i] != listing[j]
    ensures Ascending(logs) && forall n :: n in logs <==> n in listing && n >= minLog
  {
    logs := [];
    for i := 0 to |listing|
      invariant Ascending(logs) && forall n :: n in logs <==> n in listing[..i] && n >= minLog
    {
      var n := listing[i];
      assert listing[..i + 1] == listing[..i] + [n];
      if n >= minLog {
        logs := InsertNumber(logs, n);
      }
    }
    assert listing[..|listing|] == listing;
  }

  ghost function ReplayedEntries(logs: map<nat, LogFile>, numbers: seq<nat>): set<Entry> {
    set n, e {:trigger InLog(logs, n, e)} | n in logs && e in Stored(logs[n]) && n in numbers && InLog(logs, n, e) :: e
  }

  ghost function ReplayedRecords(logs: map<nat, LogFile>, numbers: seq<nat>): set<Record> {
    set n, r {:trigger HasRecord(logs, n, r)} | n in logs && r in logs[n].records && n in numbers
        && HasRecord(logs, n, r) :: r
  }

  lemma NextLog(logs: map<nat, LogFile>, numbers: seq<nat>, i: nat)
    requires LogsOrdered(logs) && Ascending(numbers) && i < |numbers| && numbers[i] in logs
    ensures ReplayedEntries(logs, numbers[..i + 1]) == ReplayedEntries(logs, numbers[..i])
            + EntriesOf(logs[numbers[i]].records)
    ensures ReplayedRecords(logs, numbers[..i + 1]) == ReplayedRecords(logs, numbers[..i])
            + RecordSet(logs[numbers[i]].records)
    ensures Older(ReplayedEntries(logs, numbers[..i]), EntriesOf(logs[numbers[i]].records))
  {
    StoredIs(logs[numbers[i]]);
    hide Stored;
    assert numbers[..i + 1] == numbers[..i] + [numbers[i]];
    assert forall e :: InLog(logs, numbers[i], e) <==> e in Stored(logs[numbers[i]]);
    assert forall r :: HasRecord(logs, numbers[i], r) <==> r in logs[numbers[i]].records;
    assert forall n | n in numbers[..i] :: n < numbers[i];
  }

  lemma MaxOfUnion(a: set<Record>, b: set<Record>, start: nat, mid: nat, max: nat)
    requires IsMax(a, start, mid) && IsMax(b, mid, max)
    ensures IsMax(a + b, start, max)
  {
  }

  lemma MaxFromHigher(a: set<Record>, start: nat, max: nat)
    requires IsMax(a, 0, max)
    ensures IsMax(a, start, if start < max then max else start)
  {
  }

  lemma AllReplayed(logs: map<nat, LogFile>, numbers: seq<nat>, from: nat)
    requires forall n :: n in numbers <==> n in logs && n >= from
    ensures ReplayedEntries(logs, numbers) == LogEntries(logs, from) && ReplayedEntries(logs, []) == {}
    ensures ReplayedRecords(logs, numbers) == LogRecords(logs, from) && ReplayedRecords(logs, []) == {}
  {
  }

  /** DBImpl::Recover after the descriptor is read: the tables to add at level 0, oldest first, and LastSequence. */
  method Recover(m: Manifest, logs: map<nat, LogFile>, listing: seq<nat>, full: set<Entry> -> bool)
    returns (edit: seq<set<Entry>>, last: nat)
    requires LogsOrdered(logs) && (forall n :: n in listing <==> n in logs)
    requires forall i, j | 0 <= i < j < |listing| :: listing[i] != listing[j]
    ensures Aged(edit) && Union(edit) == LogEntries(logs, m.logNumber)
    ensures IsMax(LogRecords(logs, m.logNumber), m.lastSequence, last)
  {
    hide Union, IsMax, ReplayedEntries, ReplayedRecords, LogEntries, LogRecords, RecordSet, Older, EntriesOf, Stored;
    var numbers := LogsToReplay(listing, m.logNumber);
    edit := [];
    var max: nat := 0;
    AllReplayed(logs, numbers, m.logNumber);
    NoRecords([], {}, 0);
    NoTables();
    for i := 0 to |numbers|
      invariant Aged(edit) && Union(edit) == ReplayedEntries(logs, numbers[..i])
      invariant IsMax(ReplayedRecords(logs, numbers[..i]), 0, max)
    {
      assert numbers[i] in numbers;
      NextLog(logs, numbers, i);
      var before := max;
      edit, max := RecoverLogFile(logs[numbers[i]].records, full, edit, max);
      MaxOfUnion(ReplayedRecords(logs, numbers[..i]), RecordSet(logs[numbers[i]].records), 0, before, max);
    }
    assert numbers[..|numbers|] == numbers;
    MaxFromHigher(LogRecords(logs, m.logNumber), m.lastSequence, max);
    last := if m.lastSequence < max then max else m.lastSequence;
  }

  lemma NoTables()
    ensures Union([]) == {} && Aged([])
  {
  }

  /** Entry 1, unsynced in log 3, is lost, and log 5 holds an empty group with first number 2: nothing is recovered,
      and LastSequence is 1 all the same. */
  method EmptyGroupCounts() returns (edit: seq<set<Entry>>, last: nat)
    ensures edit == [] && last == 1
  {
    var r := Record(2, []);
    var logs := map[3 := LogFile([], 0), 5 := LogFile([r], 1)];
    edit, last := Recover(Manifest({}, 3, 0, {}), logs, [3, 5], _ => false);
    assert HasRecord(logs, 5, r) && LastOf(r) == 1;
    assert LogRecords(logs, 3) == {r};
    assert LogEntries(logs, 3) == {};
    hide Union, Aged, LogEntries, LogRecords;
    NothingWritten(edit);
  }

  lemma NothingWritten(tables: seq<set<Entry>>)
    requires Aged(tables)
    ensures Union(tables) == {} <==> tables == []
  {
    if tables != [] {
      assert tables[0] != {};
      var e :| e in tables[0];
      assert e in Union(tables);
    }
  }
}
