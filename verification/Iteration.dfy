/** A whole-store iterator: DBIter over a merge of the memtables, the level-0 files
    and one concatenation per deeper level (leveldb/db/db_impl.cc NewInternalIterator,
    leveldb/db/version_set.cc AddIterators). */
module Iteration {
  import opened Sequences
  import opened Options
  import opened InternalKeys
  import opened Reads
  import opened Versions
  import opened Machine
  import opened Runs
  import opened MergingIterators
  import opened TwoLevelIterators
  import opened DbIterator

  function LargestKeys(files: seq<File>): seq<IKey> {
    seq(|files|, i requires 0 <= i < |files| => Largest(files[i]))
  }

  /** A level above 0, with each file's largest key as its index key, suits the two-level iterator. */
  lemma LevelIsSeparated(files: seq<File>)
    requires SortedDisjoint(files)
    ensures Separated(LargestKeys(files), EntryRuns(files))
  {
    var seps: seq<IKey>, blocks: seq<seq<Entry>> := LargestKeys(files), EntryRuns(files);
    forall b, j | 0 <= b < |blocks| && 0 <= j < |blocks[b]| ensures AtMost(blocks[b][j].key, seps[b]) {
      FileBounds(files[b], files[b].entries[j]);
    }
    forall b, c, j | 0 <= b < c < |blocks| && 0 <= j < |blocks[c]| ensures Less(seps[b], blocks[c][j].key) {
      FileBounds(files[c], files[c].entries[j]);
      assert Less(Largest(files[b]), Smallest(files[c]));
    }
    forall b, c | 0 <= b < c < |seps| ensures Less(seps[b], seps[c]) { LargestAscends(files, b, c); }
  }

  /** NewInternalIterator and AddIterators: the children of the merging iterator. */
  ghost function Children(s: State): seq<seq<Entry>> {
    [s.mem] + (if s.imm.Some? then [s.imm.value] else []) + EntryRuns(s.version[0]) + LevelRuns(s.version, 1)
  }

  ghost function LevelRuns(v: Version, level: nat): seq<seq<Entry>>
    requires 1 <= level <= NUM_LEVELS
    decreases NUM_LEVELS - level
  {
    if level == NUM_LEVELS then [] else [Concat(EntryRuns(v[level]))] + LevelRuns(v, level + 1)
  }

  lemma LevelRunMembers(files: seq<File>)
    ensures forall e :: e in Concat(EntryRuns(files)) <==> e in Contents(files)
  {
    ConcatMembers(EntryRuns(files));
    forall e | e in Contents(files) ensures e in Concat(EntryRuns(files)) {
      var f :| f in files && e in f.entries;
      var i :| 0 <= i < |files| && files[i] == f;
      assert e in EntryRuns(files)[i];
    }
  }

  // ----- the children share no key and hold everything -----

  ghost function Gathered(runs: seq<seq<Entry>>): set<Entry> {
    set i, e | 0 <= i < |runs| && e in runs[i] :: e
  }

  ghost predicate KeysApart(a: set<Entry>, b: set<Entry>) {
    forall x, y :: x in a && y in b ==> x.key != y.key
  }

  ghost predicate GoodRuns(runs: seq<seq<Entry>>) {
    && (forall i :: 0 <= i < |runs| ==> StrictlySorted(runs[i]))
    && (forall i, k, x, y :: 0 <= i < k < |runs| && x in runs[i] && y in runs[k] ==> x.key != y.key)
  }

  lemma JoinRuns(a: seq<seq<Entry>>, b: seq<seq<Entry>>)
    requires GoodRuns(a) && GoodRuns(b) && KeysApart(Gathered(a), Gathered(b))
    ensures GoodRuns(a + b) && Gathered(a + b) == Gathered(a) + Gathered(b)
  {
    var all := a + b;
    assert forall i :: 0 <= i < |all| ==> all[i] == if i < |a| then a[i] else b[i - |a|];
    forall e | e in Gathered(a) + Gathered(b) ensures e in Gathered(all) {
      if e in Gathered(a) {
        var i :| 0 <= i < |a| && e in a[i];
        assert e in all[i];
      } else {
        var i :| 0 <= i < |b| && e in b[i];
        assert e in all[|a| + i];
      }
    }
    forall i, k, x: Entry, y: Entry | 0 <= i < k < |all| && x in all[i] && y in all[k] ensures x.key != y.key {
      if i < |a| && k >= |a| {
        assert x in Gathered(a) && y in Gathered(b);
      }
    }
  }

  lemma OneRun(es: seq<Entry>)
    requires StrictlySorted(es)
    ensures GoodRuns([es]) && Gathered([es]) == Elements(es)
  {
    assert [es][0] == es;
    forall e | e in es ensures e in Gathered([es]) { assert e in [es][0]; }
  }

  lemma NewerApart(above: set<Entry>, below: set<Entry>)
    requires Newer(above, below)
    ensures KeysApart(above, below)
  {
  }

  lemma LevelZeroRuns(files: seq<File>)
    requires AgedByNumber(files)
    ensures GoodRuns(EntryRuns(files)) && Gathered(EntryRuns(files)) == Contents(files)
  {
    var runs := EntryRuns(files);
    forall e | e in Contents(files) ensures e in Gathered(runs) {
      var f :| f in files && e in f.entries;
      var i :| 0 <= i < |files| && files[i] == f;
      assert e in runs[i];
    }
    forall i, k, x: Entry, y: Entry | 0 <= i < k < |runs| && x in runs[i] && y in runs[k] ensures x.key != y.key {
      assert files[i].number != files[k].number;
      assert files[i].number > files[k].number ==> NewerFile(files[i], files[k]);
      assert files[k].number > files[i].number ==> NewerFile(files[k], files[i]);
      assert x in Elements(files[i].entries) && y in Elements(files[k].entries);
    }
  }

  ghost function Deeper(v: Version, level: nat): set<Entry> {
    set l, e | level <= l < NUM_LEVELS && e in Contents(v[l]) :: e
  }

  lemma {:induction false} DeeperRuns(v: Version, level: nat)
    requires WellFormed(v) && 1 <= level <= NUM_LEVELS
    ensures GoodRuns(LevelRuns(v, level)) && Gathered(LevelRuns(v, level)) == Deeper(v, level)
    decreases NUM_LEVELS - level
  {
    if level < NUM_LEVELS {
      var flat := Concat(EntryRuns(v[level]));
      DeeperRuns(v, level + 1);
      LevelIsSeparated(v[level]);
      FlattenSorted(LargestKeys(v[level]), EntryRuns(v[level]));
      LevelRunMembers(v[level]);
      OneRun(flat);
      assert Elements(flat) == Contents(v[level]);
      LevelAboveDeeper(v, level);
      NewerApart(Contents(v[level]), Deeper(v, level + 1));
      JoinRuns([flat], LevelRuns(v, level + 1));
    }
  }

  lemma LevelAboveDeeper(v: Version, level: nat)
    requires LevelsLayered(v) && level < NUM_LEVELS
    ensures Newer(Contents(v[level]), Deeper(v, level + 1))
    ensures Deeper(v, level) == Contents(v[level]) + Deeper(v, level + 1)
  {
    forall x, y | x in Contents(v[level]) && y in Deeper(v, level + 1) && x.key.user == y.key.user
      ensures x.key.seqno > y.key.seqno {
      var l :| level + 1 <= l < NUM_LEVELS && y in Contents(v[l]);
      assert Newer(Contents(v[level]), Contents(v[l]));
    }
  }

  lemma FilesByDepth(v: Version)
    requires LevelsLayered(v)
    ensures AllFiles(v) == Contents(v[0]) + Deeper(v, 1)
  {
    LevelAboveDeeper(v, 0);
    assert AllFiles(v) == Deeper(v, 0);
  }

  lemma FileRuns(v: Version)
    requires WellFormed(v)
    ensures GoodRuns(EntryRuns(v[0]) + LevelRuns(v, 1)) && Gathered(EntryRuns(v[0]) + LevelRuns(v, 1)) == AllFiles(v)
  {
    var zero, deeper := EntryRuns(v[0]), LevelRuns(v, 1);
    LevelZeroRuns(v[0]);
    DeeperRuns(v, 1);
    assert KeysApart(Gathered(zero), Gathered(deeper)) by {
      LevelAboveDeeper(v, 0);
      NewerApart(Contents(v[0]), Deeper(v, 1));
    }
    JoinRuns(zero, deeper);
    FilesByDepth(v);
  }

  /** The children of the internal iterator share no key, and together hold every entry of the store. */
  lemma ChildrenHoldEverything(s: State)
    requires Inv(s)
    ensures GoodRuns(Children(s)) && Gathered(Children(s)) == Everything(s)
  {
    hide GoodRuns, ReadsRight, UniqueNumbers, AllWritten, LevelRuns, EntryRuns, RunningOk, AllFiles, Less, WellFormed,
         Elements;
    var files := EntryRuns(s.version[0]) + LevelRuns(s.version, 1);
    FileRuns(s.version);
    OneRun(s.mem);
    var imm := if s.imm.Some? then [s.imm.value] else [];
    if s.imm.Some? { OneRun(s.imm.value); }
    assert Gathered(imm) == ImmEntries(s.imm);
    NewerApart(ImmEntries(s.imm), AllFiles(s.version));
    JoinRuns(imm, files);
    NewerApart(Elements(s.mem), ImmEntries(s.imm) + AllFiles(s.version));
    JoinRuns([s.mem], imm + files);
    assert Children(s) == [s.mem] + (imm + files);
  }

  /** What the store's iterator walks over: in every state of every run, at every live snapshot,
      DBIter's entries are exactly the keys and values that the history gives. */
  lemma IteratorShowsHistory(run: seq<State>, steps: seq<Step>, n: nat, merged: seq<Entry>, snapshot: SeqNo,
                             user: UserKey, v: string)
    requires IsRun(run, steps) && n < |run| && SortedUnion(Children(run[n]), merged)
    requires snapshot in run[n].snapshots || snapshot == |run[n].history|
    ensures (exists i :: Live(merged, snapshot, i) && merged[i].key.user == user && merged[i].value == v)
       <==> Replay(run[n].history, user, snapshot) == Some(v)
  {
    var s := run[n];
    RunKeepsInv(run, steps, n);
    ChildrenHoldEverything(s);
    UnionElements(Children(s), merged);
    LiveIsRead(merged, snapshot, user, v);
    assert Answers(Everything(s), user, snapshot, Replay(s.history, user, snapshot));
    if Answers(Everything(s), user, snapshot, Some(v)) {
      AnswerUnique(s.history, Everything(s), user, snapshot, Some(v), Replay(s.history, user, snapshot));
    }
  }

  /** So it shows a key with a value exactly when the writes of the run, up to the snapshot, left that value in it. */
  lemma IteratorShowsWrites(run: seq<State>, steps: seq<Step>, m: nat, n: nat, merged: seq<Entry>, snapshot: SeqNo,
                            user: UserKey, v: string)
    requires IsRun(run, steps) && m <= n < |run| && SortedUnion(Children(run[n]), merged)
    requires snapshot == |run[m].history| && (snapshot in run[n].snapshots || m == n)
    ensures (exists i :: Live(merged, snapshot, i) && merged[i].key.user == user && merged[i].value == v)
       <==> Wrote(steps[..m], user, Replay(run[0].history, user, |run[0].history|)) == Some(v)
  {
    hide Replay, Wrote, Live, Children, Reopened;
    IteratorShowsHistory(run, steps, n, merged, snapshot, user, v);
    SnapshotReadsWrites(run, steps, m, n, user);
  }

  lemma UnionElements(children: seq<seq<Entry>>, merged: seq<Entry>)
    requires SortedUnion(children, merged)
    ensures Elements(merged) == Gathered(children)
  {
  }
}
