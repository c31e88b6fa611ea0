/** Opening a store after a crash (leveldb/db/db_impl.cc Recover, RecoverLogFile, Open): the tables made from the logs
    are added at level 0, and what results is a store from which runs start. */
module Restart {
  import opened Options
  import opened InternalKeys
  import opened Reads
  import opened Versions
  import opened VersionBuilder
  import opened Machine
  import opened FlushProofs
  import opened Runs
  import opened Manifest
  import opened Background
  import R = Recovery
  import P = RecoveryProofs

  // ----- a history for a set of tables -----

  lemma {:induction false} UnusedKey(entries: set<Entry>) returns (key: UserKey)
    ensures forall e :: e in entries ==> e.key.user < key
    decreases |entries|
  {
    key := 0;
    if entries != {} {
      var e :| e in entries;
      key := UnusedKey(entries - {e});
      if key <= e.key.user { key := e.key.user + 1; }
    }
  }

  /** Entries with different sequence numbers are the writes of some history, with a deletion of the given key under
      every number that none of them has. */
  lemma {:induction false} FillHistory(entries: set<Entry>, last: nat, key: UserKey) returns (history: seq<Entry>)
    requires R.DistinctSeqs(entries) && last <= MAX_SEQUENCE
    requires forall e :: e in entries ==> 0 < e.key.seqno <= last
    ensures |history| == last && Numbered(history) && AllWritten(history, entries)
    ensures forall e :: e in history ==> e in entries || (e.key.kind.Deletion? && e.key.user == key)
    decreases last
  {
    if last == 0 {
      history := [];
    } else {
      var older := set e | e in entries && e.key.seqno < last;
      var front := FillHistory(older, last - 1, key);
      var e := if exists x :: x in entries && x.key.seqno == last then var x :| x in entries && x.key.seqno == last; x
               else Entry(IKey(key, last, Deletion), "");
      history := front + [e];
      forall x | x in entries ensures Written(history, x) {
        if x.key.seqno < last { assert Written(front, x); }
      }
    }
  }

  /** Tables in order, with different sequence numbers, are those of a store that has just been opened. */
  lemma TablesStart(v: Version, nextFile: nat, last: nat) returns (s: State)
    requires WellFormed(v) && OrderedBySmallest(v[0]) && UniqueNumbers(v, nextFile) && last < MAX_SEQUENCE
    requires R.DistinctSeqs(AllFiles(v)) && forall e :: e in AllFiles(v) ==> 0 < e.key.seqno <= last
    ensures Reopened(s) && s.version == v && s.nextFile == nextFile && |s.history| == last
  {
    hide WellFormed, OrderedBySmallest, UniqueNumbers, R.DistinctSeqs, AllFiles;
    var key := UnusedKey(AllFiles(v));
    var history := FillHistory(AllFiles(v), last, key);
    s := State(history, [], None, v, nextFile, multiset{}, None, 0);
    assert forall e :: e in history ==> e in AllFiles(v) || Unseen(v, e);
  }

  // ----- the tables made from the logs -----

  /** New tables, numbered from nextFile on: each newer than those before it and than everything in the version. */
  ghost predicate NewTables(v: Version, nextFile: nat, files: seq<File>) {
    && (forall i :: 0 <= i < |files| ==> files[i].number == nextFile + i)
    && (forall i :: 0 <= i < |files| ==> R.Older(AllFiles(v), Elements(files[i].entries)))
    && forall i, j :: 0 <= i < j < |files| ==> R.Older(Elements(files[i].entries), Elements(files[j].entries))
  }

  ghost predicate Ordered(v: Version, nextFile: nat) {
    WellFormed(v) && OrderedBySmallest(v[0]) && UniqueNumbers(v, nextFile)
  }

  ghost predicate Added(v: Version, files: seq<File>, v': Version) {
    Saved(v[0], {}, FileSet(files), v'[0]) && v' == v[0 := v'[0]]
  }

  lemma NewTablesIdentified(v: Version, nextFile: nat, files: seq<File>)
    requires UniqueNumbers(v, nextFile) && NewTables(v, nextFile, files)
    ensures Identified(FileSet(v[0]) + FileSet(files)) && FileSet(v[0]) !! FileSet(files)
  {
    forall f, g | f in FileSet(v[0]) && g in FileSet(v[0]) && f.number == g.number ensures f == g {
      assert NoClash(0, f, 0, g);
    }
  }

  /** Adding them at level 0, all at once, keeps the version in order. */
  lemma {:induction false} AddedInOrder(v: Version, nextFile: nat, files: seq<File>, v': Version)
    requires Ordered(v, nextFile) && NewTables(v, nextFile, files) && Added(v, files, v')
    ensures Ordered(v', nextFile + |files|) && AllFiles(v') == AllFiles(v) + FileEntries(FileSet(files))
    decreases |files|
  {
    hide WellFormed, OrderedBySmallest, UniqueNumbers, SaveLevel, ApplyLevel, NewTables, AllFiles, Newer, Identified;
    if files == [] {
      assert FileSet(files) == {} && FileSet(v'[0]) == FileSet(v[0]);
      assert FileEntries({}) == {};
      OrderedUnique(v'[0], v[0]);
      assert v' == v;
    } else {
      var n := |files| - 1;
      var init, f := files[..n], files[n];
      LastIsNewer(v, nextFile, files);
      NewTablesIdentified(v, nextFile, init);
      LevelApplied(v[0], {}, init);
      assert WithNumbers(v[0], {}) == {};
      var v1 := v[0 := SaveLevel(v[0], ApplyLevel(EMPTY, LevelEdit({}, init)))];
      AddedInOrder(v, nextFile, init, v1);
      LastFile(files);
      FlushWellFormed(v1, v', nextFile + n, 0, f);
      FlushUniqueNumbers(v1, v', nextFile + n, 0, f);
      FlushSameEntries(v1, v', 0, f);
    }
  }

  lemma LastFile(files: seq<File>)
    requires files != []
    ensures var init, f := files[..|files| - 1], files[|files| - 1];
            && FileSet(files) == FileSet(init) + {f}
            && FileEntries(FileSet(files)) == FileEntries(FileSet(init)) + Elements(f.entries)
  {
    var init, f := files[..|files| - 1], files[|files| - 1];
    assert files == init + [f];
    assert FileSet(files) == FileSet(init) + {f};
  }

  lemma LastIsNewer(v: Version, nextFile: nat, files: seq<File>)
    requires files != [] && NewTables(v, nextFile, files)
    ensures var init, f := files[..|files| - 1], files[|files| - 1];
            && NewTables(v, nextFile, init) && f.number == nextFile + |init|
            && Newer(Elements(f.entries), AllFiles(v) + FileEntries(FileSet(init)))
  {
    hide R.Older, AllFiles;
    var n := |files| - 1;
    var init, f := files[..n], files[n];
    forall y | y in AllFiles(v) + FileEntries(FileSet(init)) ensures OlderThanAll(y, f) {
      if y in AllFiles(v) {
        OlderAt(AllFiles(v), y, f);
      } else {
        var g :| g in FileSet(init) && y in g.entries;
        var i :| 0 <= i < n && init[i] == g;
        assert R.Older(Elements(files[i].entries), Elements(files[n].entries));
        OlderAt(Elements(files[i].entries), y, f);
      }
    }
  }

  ghost predicate OlderThanAll(y: Entry, f: File) {
    forall x :: x in Elements(f.entries) ==> y.key.seqno < x.key.seqno
  }

  lemma OlderAt(a: set<Entry>, y: Entry, f: File)
    requires R.Older(a, Elements(f.entries)) && y in a
    ensures OlderThanAll(y, f)
  {
  }

  /** Open: the edit with the tables made from the logs, applied to the version of the descriptor. */
  method AddRecovered(v: Version, nextFile: nat, files: seq<File>) returns (v': Version)
    requires Ordered(v, nextFile) && NewTables(v, nextFile, files)
    ensures Added(v, files, v')
    ensures Ordered(v', nextFile + |files|) && AllFiles(v') == AllFiles(v) + FileEntries(FileSet(files))
  {
    hide WellFormed, UniqueNumbers, OrderedBySmallest, NewTables, SaveLevel, ApplyLevel, FilesAt, NewsOf, NumbersAt;
    NewsAtZero(files);
    v' := LogAndApply(v, VersionEdit([], NewsOf(files, 0)));
    NewTablesIdentified(v, nextFile, files);
    NoDeletions();
    forall l | 1 <= l < NUM_LEVELS ensures v'[l] == v[l] {
      NewsAt(files, 0, l);
      LevelUntouched(v[l]);
    }
    NewsAt(files, 0, 0);
    LevelApplied(v[0], {}, files);
    assert WithNumbers(v[0], {}) == {};
    AddedInOrder(v, nextFile, files, v');
  }

  lemma NewsAtZero(files: seq<File>)
    ensures forall n :: n in NewsOf(files, 0) ==> n.0 == 0
  {
  }

  lemma NoDeletions()
    ensures forall l: nat :: NumbersAt([], l) == {}
  {
  }

  // ----- after a crash -----

  /** The tables of a recovery, written to files with the numbers from nextFile on. */
  ghost predicate Files(tables: seq<set<Entry>>, nextFile: nat, files: seq<File>) {
    |files| == |tables| && forall i :: 0 <= i < |files| ==>
      files[i].number == nextFile + i && Elements(files[i].entries) == tables[i]
  }

  /** What Recover returns for the logs that a crash has left. */
  ghost predicate Replays(tables: seq<set<Entry>>, r: R.Store, step: R.Step)
    requires step.DoCrash? && R.Cuttable(r.logs, step.at)
  {
    P.Aged(tables) && P.Union(tables) == R.LogEntries(R.Cut(r.logs, step.at), step.m.logNumber)
  }

  /** These are newer than every table of the descriptor that was found. */
  lemma ReplayedAreNew(v: Version, r: R.Store, r': R.Store, step: R.Step, tables: seq<set<Entry>>, nextFile: nat,
                       files: seq<File>)
    requires R.Good(r) && step.DoCrash? && R.Next(r, r', step) && step.m.tables == AllFiles(v)
    requires Replays(tables, r, step) && Files(tables, nextFile, files)
    ensures NewTables(v, nextFile, files) && FileEntries(FileSet(files)) == P.Union(tables)
  {
    hide R.LogsOrdered, R.LogEntries, R.SyncedEntries, R.SameReads, R.LogsHoldMemory, R.ObsoleteFlushed, R.WritesOk,
         AllFiles;
    R.LogsCut(r.logs, step.at, step.m.logNumber);
    assert R.Covers(r, step.m);
    FilesHold(tables, nextFile, files);
    forall i | 0 <= i < |files| ensures R.Older(AllFiles(v), Elements(files[i].entries)) {
      assert tables[i] <= P.Union(tables);
    }
  }

  lemma FilesHold(tables: seq<set<Entry>>, nextFile: nat, files: seq<File>)
    requires Files(tables, nextFile, files)
    ensures FileEntries(FileSet(files)) == P.Union(tables)
  {
    forall e ensures e in FileEntries(FileSet(files)) <==> e in P.Union(tables) {
      if e in FileEntries(FileSet(files)) {
        var f :| f in FileSet(files) && e in f.entries;
        var i :| 0 <= i < |files| && files[i] == f;
        assert e in tables[i];
      }
      if e in P.Union(tables) {
        var i :| 0 <= i < |tables| && e in tables[i];
        assert files[i] in FileSet(files) && e in files[i].entries;
      }
    }
  }

  /** After any crash, with whichever descriptor was found, adding the tables that Recover returns gives a store from
      which runs start: it holds what the recovery machine says, and its next write gets the next sequence number. */
  lemma RecoveredStarts(s: State, r: R.Store, r': R.Store, step: R.Step, tables: seq<set<Entry>>, nextFile: nat,
                        files: seq<File>, v': Version)
    returns (s': State)
    requires Inv(s) && R.Good(r) && step.DoCrash? && R.Next(r, r', step) && r'.lastSequence < MAX_SEQUENCE
    requires step.m.tables == AllFiles(s.version) && s.nextFile <= nextFile
    requires Replays(tables, r, step) && Files(tables, nextFile, files) && Added(s.version, files, v')
    ensures Reopened(s') && s'.version == v' && s'.nextFile == nextFile + |files|
    ensures AllFiles(s'.version) == r'.manifest.tables && |s'.history| == r'.lastSequence
  {
    hide R.LogsOrdered, R.LogEntries, R.Good, WellFormed, OrderedBySmallest, UniqueNumbers, NewTables, Added, Reopened,
         P.Aged, P.Union;
    assert Ordered(s.version, nextFile) by { MoreNumbers(s, nextFile); }
    ReplayedAreNew(s.version, r, r', step, tables, nextFile, files);
    AddedInOrder(s.version, nextFile, files, v');
    RecoveredNumbers(s, r, r', step);
    s' := TablesStart(v', nextFile + |files|, r'.lastSequence);
  }

  lemma MoreNumbers(s: State, nextFile: nat)
    requires Inv(s) && s.nextFile <= nextFile
    ensures Ordered(s.version, nextFile)
  {
    hide WellFormed, OrderedBySmallest, NoClash;
  }

  /** Every recovered entry has its own number, above 0 and not above LastSequence. */
  lemma RecoveredNumbers(s: State, r: R.Store, r': R.Store, step: R.Step)
    requires Inv(s) && R.Good(r) && step.DoCrash? && R.Next(r, r', step) && step.m.tables == AllFiles(s.version)
    ensures R.DistinctSeqs(r'.manifest.tables)
    ensures forall e :: e in r'.manifest.tables ==> 0 < e.key.seqno <= r'.lastSequence
  {
    hide R.LogEntries, R.SyncedEntries, R.SameReads, R.LogsHoldMemory, R.ObsoleteFlushed, R.LogRecords, R.IsMax,
         R.Stored,
         R.LogsOrdered, Inv, AllFiles;
    P.CoversAfterCrash(r, r', step.m, step.at, step.newLog, step.last);
    FilesNumbered(s);
    LogsNumbered(R.Cut(r.logs, step.at), step.m.logNumber) by { P.OrderedAfterCut(r.logs, step.at); }
  }

  lemma FilesNumbered(s: State)
    requires Inv(s)
    ensures forall e :: e in AllFiles(s.version) ==> 0 < e.key.seqno
  {
    hide WellFormed, OrderedBySmallest, UniqueNumbers, RunningOk, ReadsRight, MemoryOk;
    assert forall e :: e in AllFiles(s.version) ==> e in Everything(s);
    assert forall e :: e in Everything(s) ==> Written(s.history, e);
  }

  lemma StoredIn(l: R.LogFile, e: Entry)
    ensures e in R.Stored(l) <==> exists r :: r in l.records && e in r.entries
  {
  }

  lemma LogsNumbered(logs: map<nat, R.LogFile>, from: nat)
    requires R.LogsOrdered(logs)
    ensures forall e :: e in R.LogEntries(logs, from) ==> 0 < e.key.seqno
  {
    forall e | e in R.LogEntries(logs, from) ensures 0 < e.key.seqno {
      var n :| n in logs && R.InLog(logs, n, e);
      assert R.InLog(logs, n, e);
      assert e in R.Stored(logs[n]);
      StoredIn(logs[n], e);
      var r :| r in logs[n].records && e in r.entries;
      assert R.RecordsAscend(logs[n].records) && R.RecordOk(r);
    }
  }
}
