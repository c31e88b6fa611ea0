/** Trivial moves, whole runs, and what a reader sees in them. */
module Runs {
  import opened Options
  import opened InternalKeys
  import opened Reads
  import opened Versions
  import opened VersionBuilder
  import opened Picking
  import opened Machine
  import opened MachineProofs
  import opened FlushProofs
  import opened InstallProofs

  // ----- trivial moves -----

  lemma MovedFiles(s: State, s': State, level: nat, f: File, l: nat, g: File)
    requires UniqueNumbers(s.version, s.nextFile) && TrivialMove(s, s', level, f) && l < NUM_LEVELS
    ensures g in s'.version[l] <==> (g != f && g in s.version[l]) || (g == f && l == level + 1)
  {
    SavedContents(s.version[level], {f}, {}, s'.version[level]);
    SavedContents(s.version[level + 1], {}, {f}, s'.version[level + 1]);
    assert f in FileSet(s.version[level]);
    if g == f && g in s.version[l] { assert NoClash(l, f, level, f); }
  }

  lemma MoveSameEntries(s: State, s': State, level: nat, f: File)
    requires UniqueNumbers(s.version, s.nextFile) && TrivialMove(s, s', level, f)
    ensures AllFiles(s'.version) == AllFiles(s.version)
  {
    assert f in FileSet(s.version[level]);
    forall e | e in AllFiles(s.version) ensures e in AllFiles(s'.version) {
      var l :| 0 <= l < NUM_LEVELS && e in Contents(s.version[l]);
      var g :| g in s.version[l] && e in g.entries;
      var m := if g == f then level + 1 else l;
      MovedFiles(s, s', level, f, m, g);
      assert e in Contents(s'.version[m]);
    }
    forall e | e in AllFiles(s'.version) ensures e in AllFiles(s.version) {
      var l :| 0 <= l < NUM_LEVELS && e in Contents(s'.version[l]);
      var g :| g in s'.version[l] && e in g.entries;
      MovedFiles(s, s', level, f, l, g);
      var m := if g == f then level else l;
      assert e in Contents(s.version[m]);
    }
  }

  lemma MoveLayers(s: State, s': State, level: nat, f: File)
    requires Inv(s) && TrivialMove(s, s', level, f)
    ensures LevelsLayered(s'.version)
  {
    ChosenInputsOldest(s, level, {f}, {});
    assert {f} + {} == {f} && f in FileSet(s.version[level]);
    forall a, b | 0 <= a < b < NUM_LEVELS ensures Newer(Contents(s'.version[a]), Contents(s'.version[b])) {
      forall x, y | x in Contents(s'.version[a]) && y in Contents(s'.version[b]) && x.key.user == y.key.user
        ensures x.key.seqno > y.key.seqno
      {
        var g :| g in s'.version[a] && x in g.entries;
        var h :| h in s'.version[b] && y in h.entries;
        MovedFiles(s, s', level, f, a, g);
        MovedFiles(s, s', level, f, b, h);
        MovedPair(s, level, f, a, g, b, h);
        assert x in Elements(g.entries) && y in Elements(h.entries);
      }
    }
  }

  lemma MovedPair(s: State, level: nat, f: File, a: nat, g: File, b: nat, h: File)
    requires LevelsLayered(s.version) && InputsOldest(s.version, level, {f}) && a < b < NUM_LEVELS
    requires level + 1 < NUM_LEVELS && f in s.version[level]
    requires if g == f then a == level + 1 else g in s.version[a]
    requires if h == f then b == level + 1 else h in s.version[b]
    ensures NewerFile(g, h)
  {
  }

  lemma MovedOutputLevel(s: State, s': State, level: nat, f: File)
    requires UniqueNumbers(s.version, s.nextFile) && TrivialMove(s, s', level, f)
             && SortedDisjoint(s.version[level + 1])
    ensures SortedDisjoint(s'.version[level + 1])
  {
    var files := s'.version[level + 1];
    forall g, h | g in files && h in files && g != h
      ensures Less(Largest(g), Smallest(h)) || Less(Largest(h), Smallest(g)) {
      MovedFiles(s, s', level, f, level + 1, g);
      MovedFiles(s, s', level, f, level + 1, h);
      if g != f && h != f {
        SortedPair(s.version[level + 1], g, h);
      } else if g == f {
        assert ClearOf(h, {f}, {});
      } else {
        assert ClearOf(g, {f}, {});
      }
    }
    SeparatedIsSorted(files);
  }

  lemma MoveUniqueNumbers(s: State, s': State, level: nat, f: File)
    requires UniqueNumbers(s.version, s.nextFile) && TrivialMove(s, s', level, f)
    ensures UniqueNumbers(s'.version, s.nextFile)
  {
    assert f in FileSet(s.version[level]);
    forall l, g | 0 <= l < NUM_LEVELS && g in s'.version[l]
      ensures g.number < s.nextFile { MovedFiles(s, s', level, f, l, g); }
    forall l, m, g, h | 0 <= l < NUM_LEVELS && 0 <= m < NUM_LEVELS && g in s'.version[l] && h in s'.version[m]
      ensures NoClash(l, g, m, h) {
      MovedFiles(s, s', level, f, l, g);
      MovedFiles(s, s', level, f, m, h);
      assert NoClash(if g == f then level else l, g, if h == f then level else m, h);
    }
  }

  lemma MoveKeepsInv(s: State, s': State, level: nat, f: File)
    requires Inv(s) && TrivialMove(s, s', level, f)
    ensures Inv(s')
  {
    MoveSameEntries(s, s', level, f);
    assert Everything(s') == Everything(s);
    MoveLayers(s, s', level, f);
    MovedOutputLevel(s, s', level, f);
    InstalledLevels(s.version, s'.version, s.nextFile, level, {f});
    MoveUniqueNumbers(s, s', level, f);
  }

  // ----- runs -----

  datatype Step =
    | DoWrite(op: Op)
    | DoSwitch
    | DoFlush(level: nat, size: nat)
    | DoBegin(c: Running)
    | DoOpenOutput
    | DoInstall(input: seq<Entry>, outputs: seq<File>)
    | DoMove(level: nat, f: File)
    | DoAbandon
    | DoGetSnapshot
    | DoReleaseSnapshot(x: nat)

  ghost predicate Next(s: State, s': State, step: Step) {
    match step
    case DoWrite(op) => Write(s, s', op)
    case DoSwitch => SwitchMemTable(s, s')
    case DoFlush(level, size) => Flush(s, s', level, size)
    case DoBegin(c) => BeginCompaction(s, s', c)
    case DoOpenOutput => OpenOutput(s, s')
    case DoInstall(input, outputs) => InstallCompaction(s, s', input, outputs)
    case DoMove(level, f) => TrivialMove(s, s', level, f)
    case DoAbandon => AbandonCompaction(s, s')
    case DoGetSnapshot => GetSnapshot(s, s')
    case DoReleaseSnapshot(x) => ReleaseSnapshot(s, s', x)
  }

  ghost predicate Init(s: State) {
    s == State([], [], None, [[], [], [], [], [], [], []], s.nextFile, multiset{}, None, 0)
  }

  /** A write that no read can tell from none: a deletion of a key that no table holds. */
  ghost predicate Unseen(v: Version, e: Entry) {
    e.key.kind.Deletion? && forall x :: x in AllFiles(v) ==> x.key.user != e.key.user
  }

  /** A store that has just been opened: everything is in tables.  The history is what they hold; a number that they
      do not hold, because a crash has lost it or a compaction has dropped it, stands for an unseen write. */
  ghost predicate Reopened(s: State) {
    && s.mem == [] && s.imm.None? && s.snapshots == multiset{} && s.running.None? && s.horizon == 0
    && Numbered(s.history) && |s.history| < MAX_SEQUENCE
    && WellFormed(s.version) && OrderedBySmallest(s.version[0]) && UniqueNumbers(s.version, s.nextFile)
    && AllWritten(s.history, AllFiles(s.version))
    && forall e :: e in s.history ==> e in AllFiles(s.version) || Unseen(s.version, e)
  }

  /** A run starts with a store that has been opened, a new one or one that was recovered. */
  ghost predicate IsRun(run: seq<State>, steps: seq<Step>) {
    && |run| == |steps| + 1 && Reopened(run[0])
    && forall i :: 0 <= i < |steps| ==> Next(run[i], run[i + 1], steps[i])
  }

  lemma EmptyVersion(v: Version)
    requires forall l :: 0 <= l < NUM_LEVELS ==> v[l] == []
    ensures WellFormed(v) && AllFiles(v) == {}
  {
  }

  lemma InitIsReopened(s: State)
    requires Init(s)
    ensures Reopened(s)
  {
    EmptyVersion(s.version);
  }

  /** The tables of such a store answer as the history does. */
  lemma ReopenedReads(s: State, user: UserKey, snapshot: nat)
    requires Reopened(s)
    ensures Answers(AllFiles(s.version), user, snapshot, Replay(s.history, user, snapshot))
  {
    hide WellFormed, OrderedBySmallest, UniqueNumbers;
    var all, files := (set e | e in s.history), AllFiles(s.version);
    ReplayAnswers(s.history, user, snapshot);
    forall x | x in files ensures x in all {
      assert Written(s.history, x);
    }
    if exists x :: x in files && x.key.user == user {
      SameAnswer(all, files, user, snapshot, Replay(s.history, user, snapshot));
    } else {
      assert forall e :: Top(all, user, snapshot, e) ==> Unseen(s.version, e);
    }
  }

  lemma ReopenedInv(s: State)
    requires Reopened(s)
    ensures Inv(s)
  {
    hide WellFormed, OrderedBySmallest, UniqueNumbers;
    assert Elements([]) == {} && Everything(s) == AllFiles(s.version);
    forall user, snapshot ensures Answers(Everything(s), user, snapshot, Replay(s.history, user, snapshot)) {
      ReopenedReads(s, user, snapshot);
    }
  }

  lemma InitInv(s: State)
    requires Init(s)
    ensures Inv(s)
  {
    InitIsReopened(s);
    ReopenedInv(s);
  }

  lemma StepKeepsInv(s: State, s': State, step: Step)
    requires Inv(s) && Next(s, s', step)
    ensures Inv(s')
  {
    match step
    case DoWrite(op) => WriteKeepsInv(s, s', op);
    case DoSwitch => SwitchKeepsInv(s, s');
    case DoFlush(level, size) => FlushKeepsInv(s, s', level, size);
    case DoBegin(c) => BeginKeepsInv(s, s', c);
    case DoOpenOutput => OpenOutputKeepsInv(s, s');
    case DoInstall(input, outputs) => InstallKeepsInv(s, s', input, outputs);
    case DoMove(level, f) => MoveKeepsInv(s, s', level, f);
    case DoAbandon => AbandonKeepsInv(s, s');
    case DoGetSnapshot => SnapshotKeepsInv(s, s', 0);
    case DoReleaseSnapshot(x) => SnapshotKeepsInv(s, s', x);
  }

  /** Every state of every run: levels above 0 sorted and disjoint, newer entries of a key
      above older ones, and every read as the history says. */
  lemma {:induction false} RunKeepsInv(run: seq<State>, steps: seq<Step>, n: nat)
    requires IsRun(run, steps) && n < |run|
    ensures Inv(run[n])
  {
    if n == 0 {
      ReopenedInv(run[0]);
    } else {
      RunKeepsInv(run, steps, n - 1);
      StepKeepsInv(run[n - 1], run[n], steps[n - 1]);
    }
  }

  lemma StepExtendsHistory(s: State, s': State, step: Step)
    requires Next(s, s', step)
    ensures s.history <= s'.history
  {
  }

  lemma {:induction false} HistoryGrows(run: seq<State>, steps: seq<Step>, m: nat, n: nat)
    requires IsRun(run, steps) && m <= n < |run|
    ensures run[m].history <= run[n].history
  {
    if m < n {
      HistoryGrows(run, steps, m, n - 1);
      StepExtendsHistory(run[n - 1], run[n], steps[n - 1]);
    }
  }

  /** DBImpl::Get in a state of a run returns what replaying the writes would:
      at any live snapshot, and at the last sequence number. */
  method ReadAt(s: State, user: UserKey, snapshot: SeqNo, ghost run: seq<State>, ghost steps: seq<Step>, ghost n: nat)
    returns (r: Option<string>)
    requires IsRun(run, steps) && n < |run| && run[n] == s
    requires snapshot in s.snapshots || snapshot == |s.history|
    ensures r == Replay(s.history, user, snapshot)
  {
    RunKeepsInv(run, steps, n);
    r := Get(s.mem, s.imm, s.version, user, snapshot, s.history);
    AnswerUnique(s.history, Everything(s), user, snapshot, r, Replay(s.history, user, snapshot));
  }

  /** A snapshot reads the same in every later state: what had been written when it was taken. */
  lemma SnapshotIsolation(run: seq<State>, steps: seq<Step>, m: nat, n: nat, user: UserKey, snapshot: nat)
    requires IsRun(run, steps) && m <= n < |run| && snapshot == |run[m].history| && snapshot in run[n].snapshots
    ensures Answers(Everything(run[n]), user, snapshot, Replay(run[m].history, user, snapshot))
  {
    RunKeepsInv(run, steps, n);
    HistoryGrows(run, steps, m, n);
    var more := run[n].history[|run[m].history|..];
    assert run[n].history == run[m].history + more;
    ReplayStable(run[m].history, more, user, snapshot);
  }

  // ----- what the writes of a run mean to its readers -----

  /** After a Put the key reads as the value, after a Delete it reads as absent, and nothing else changes: no other
      key, and no read from before the write. */
  lemma WriteMeans(s: State, s': State, op: Op, user: UserKey, snapshot: nat)
    requires Numbered(s.history) && Write(s, s', op)
    ensures |s'.history| == |s.history| + 1
    ensures op.Put? ==> Replay(s'.history, op.user, |s'.history|) == Some(op.value)
    ensures op.Delete? ==> Replay(s'.history, op.user, |s'.history|) == None
    ensures user != op.user || snapshot <= |s.history| ==>
              Replay(s'.history, user, snapshot) == Replay(s.history, user, snapshot)
  {
    assert s'.history[..|s'.history| - 1] == s.history;
  }

  /** What a key holds after these steps, told by the writes among them: the value of the last Put, nothing after a
      Delete, and what it held before when there is no write to it. */
  function Wrote(steps: seq<Step>, user: UserKey, before: Option<string>): Option<string> {
    if steps == [] then before
    else
      match steps[|steps| - 1]
      case DoWrite(Put(key, value)) =>
        if key == user then Some(value) else Wrote(steps[..|steps| - 1], user, before)
      case DoWrite(Delete(key)) =>
        if key == user then None else Wrote(steps[..|steps| - 1], user, before)
      case _ => Wrote(steps[..|steps| - 1], user, before)
  }

  lemma OtherStepsWriteNothing(s: State, s': State, step: Step)
    requires Next(s, s', step) && !step.DoWrite?
    ensures s'.history == s.history
  {
  }

  /** The history of a state reads as the writes of the run up to it. */
  lemma {:induction false} HistoryIsWrites(run: seq<State>, steps: seq<Step>, n: nat, user: UserKey)
    requires IsRun(run, steps) && n < |run|
    ensures Replay(run[n].history, user, |run[n].history|) ==
            Wrote(steps[..n], user, Replay(run[0].history, user, |run[0].history|))
  {
    hide Reopened, Inv, Replay;
    if n > 0 {
      HistoryIsWrites(run, steps, n - 1, user);
      assert steps[..n][..n - 1] == steps[..n - 1];
      var s, s', step := run[n - 1], run[n], steps[n - 1];
      assert Next(s, s', step);
      if step.DoWrite? {
        RunNumbered(run, steps, n - 1);
        WriteMeans(s, s', step.op, user, |s'.history|);
        LongerReadsSame(s.history, user, |s'.history|);
      } else {
        OtherStepsWriteNothing(s, s', step);
      }
    }
  }

  lemma RunNumbered(run: seq<State>, steps: seq<Step>, n: nat)
    requires IsRun(run, steps) && n < |run|
    ensures Numbered(run[n].history)
  {
    RunKeepsInv(run, steps, n);
  }

  /** A snapshot past the end of the history reads as one at its end. */
  lemma {:induction false} LongerReadsSame(history: seq<Entry>, user: UserKey, snapshot: nat)
    requires Numbered(history) && |history| <= snapshot
    ensures Replay(history, user, snapshot) == Replay(history, user, |history|)
  {
    if history != [] {
      var front := history[..|history| - 1];
      LongerReadsSame(front, user, snapshot);
      LongerReadsSame(front, user, |history|);
    }
  }

  lemma NewStoreReadsNothing(s: State, user: UserKey)
    requires Init(s)
    ensures Replay(s.history, user, |s.history|) == None
  {
  }

  lemma SnapshotStays(s: State, s': State, step: Step, x: nat)
    requires Next(s, s', step) && step != DoReleaseSnapshot(x)
    requires x in s.snapshots || (step == DoGetSnapshot && x == |s.history|)
    ensures x in s'.snapshots
  {
  }

  /** A snapshot that was taken stays live until it is released. */
  lemma {:induction false} SnapshotLives(run: seq<State>, steps: seq<Step>, m: nat, n: nat)
    requires IsRun(run, steps) && m < n < |run| && steps[m] == DoGetSnapshot
    requires forall i | m < i < n :: steps[i] != DoReleaseSnapshot(|run[m].history|)
    ensures |run[m].history| in run[n].snapshots
  {
    hide Reopened, Next;
    if m + 1 < n {
      SnapshotLives(run, steps, m, n - 1);
    }
    SnapshotStays(run[n - 1], run[n], steps[n - 1], |run[m].history|);
  }

  /** A later history, read at an earlier state's last number, gives what the writes up to that state left. */
  lemma SnapshotReadsWrites(run: seq<State>, steps: seq<Step>, m: nat, n: nat, user: UserKey)
    requires IsRun(run, steps) && m <= n < |run|
    ensures Replay(run[n].history, user, |run[m].history|) ==
            Wrote(steps[..m], user, Replay(run[0].history, user, |run[0].history|))
  {
    hide Reopened, Inv, Replay, Wrote;
    HistoryGrows(run, steps, m, n);
    RunNumbered(run, steps, n);
    var more := run[n].history[|run[m].history|..];
    assert run[n].history == run[m].history + more;
    ReplayStable(run[m].history, more, user, |run[m].history|);
    HistoryIsWrites(run, steps, m, user);
  }

  /** Get through a snapshot that was taken after m steps: whatever has happened since, it returns what the writes
      among those m steps left in the key. */
  method ReadWrites(s: State, user: UserKey, snapshot: SeqNo, ghost run: seq<State>, ghost steps: seq<Step>,
                    ghost m: nat, ghost n: nat)
    returns (r: Option<string>)
    requires IsRun(run, steps) && m <= n < |run| && run[n] == s && snapshot == |run[m].history|
    requires snapshot in s.snapshots || m == n
    ensures r == Wrote(steps[..m], user, Replay(run[0].history, user, |run[0].history|))
    ensures Init(run[0]) ==> r == Wrote(steps[..m], user, None)
  {
    hide Reopened, Inv, Replay, Wrote;
    r := ReadAt(s, user, snapshot, run, steps, n);
    SnapshotReadsWrites(run, steps, m, n, user);
    if Init(run[0]) {
      NewStoreReadsNothing(run[0], user);
    }
  }
}
