/** The background thread (leveldb/db/db_impl.cc CompactMemTable, BackgroundCompaction, DoCompactionWork,
    InstallCompactionResults): the code that chooses and rewrites files takes exactly the steps of the store. */
module Background {
  import opened Sequences
  import opened Options
  import opened InternalKeys
  import opened Reads
  import opened Versions
  import opened Picking
  import opened VersionBuilder
  import opened Compacting
  import opened Machine
  import opened MachineProofs
  import opened InstallProofs
  import opened Runs
  import opened Manifest
  import opened MergingIterators

  // ----- version edits -----

  lemma SortedIsOrdered(files: seq<File>)
    requires SortedDisjoint(files)
    ensures OrderedBySmallest(files)
  {
    forall i, j | 0 <= i < j < |files| ensures BySmallest(files[i], files[j]) { LargestAscends(files, i, j); }
  }

  lemma LevelOrdered(s: State, l: nat)
    requires Inv(s) && l < NUM_LEVELS
    ensures OrderedBySmallest(s.version[l])
  {
    if l > 0 {
      SortedIsOrdered(s.version[l]);
    }
  }

  ghost function WithNumbers(files: seq<File>, numbers: set<nat>): set<File> {
    set f | f in files && f.number in numbers
  }

  /** Applying an edit to a level and saving it removes and adds what the edit says. */
  lemma LevelApplied(base: seq<File>, deleted: set<nat>, news: seq<File>)
    requires OrderedBySmallest(base) && Identified(FileSet(base) + FileSet(news)) && FileSet(base) !! FileSet(news)
    requires forall f :: f in news ==> f.number !in deleted
    ensures Saved(base, WithNumbers(base, deleted), FileSet(news),
                  SaveLevel(base, ApplyLevel(EMPTY, LevelEdit(deleted, news))))
  {
    var st := ApplyLevel(EMPTY, LevelEdit(deleted, news));
    assert EMPTY.deleted + deleted == deleted && FileSet([]) == {} && {} + FileSet(news) == FileSet(news);
    AddFilesEffect(LevelState(deleted, []), news);
    assert deleted - (set f | f in news :: f.number) == deleted;
    SaveLevelSaves(base, deleted, FileSet(news), st);
    assert WithNumbers(base, deleted) == set f | f in base && f.number in deleted;
  }

  /** A level that the edit does not mention stays as it is. */
  lemma LevelUntouched(base: seq<File>)
    ensures SaveLevel(base, ApplyLevel(EMPTY, LevelEdit({}, []))) == base
  {
    assert EMPTY.deleted + {} == {};
    KeepAll(base);
  }

  lemma NumberIdentifies(s: State, l: nat)
    requires Inv(s) && l < NUM_LEVELS
    ensures Identified(FileSet(s.version[l])) && forall f :: f in s.version[l] ==> f.number < s.nextFile
  {
    forall f, g | f in FileSet(s.version[l]) && g in FileSet(s.version[l]) && f.number == g.number ensures f == g {
      assert NoClash(l, f, l, g);
    }
  }

  // ----- CompactMemTable -----

  /** A flush as the code makes it, whatever else is running. */
  ghost predicate CodeFlush(s: State, s': State, level: nat, size: nat, maxGrandparentBytes: nat) {
    && s.imm.Some? && level < NUM_LEVELS
    && (s.imm.value == [] ==> s' == s.(imm := None))
    && (s.imm.value != [] ==>
          var f := FileData(s.nextFile, size, s.imm.value);
          PlaceTable(s, s', f, level) && Picked(s.version, Lo(f), Hi(f), maxGrandparentBytes, level))
  }

  method CompactMemTable(s: State, size: nat, maxGrandparentBytes: nat) returns (s': State, level: nat)
    requires Inv(s) && s.imm.Some?
    ensures CodeFlush(s, s', level, size, maxGrandparentBytes)
  {
    hide Less, Linked, RunningOk, ReadsRight, AllWritten, Picked, SaveLevel, ApplyLevel, OrderedBySmallest,
         SortedDisjoint, FilesAt;
    if s.imm.value == [] {
      s', level := s.(imm := None), 0;
      return;
    }
    var f: File := FileData(s.nextFile, size, s.imm.value);
    level := PickLevelForMemTableOutput(s.version, Lo(f), Hi(f), maxGrandparentBytes);
    PickedPlaces(s.version, Lo(f), Hi(f), maxGrandparentBytes, level);
    var v := LogAndApply(s.version, VersionEdit([], [(level, f)]));
    s' := s.(imm := None, nextFile := s.nextFile + 1, version := v);
    AddedAt(s, level, f, v);
  }

  lemma PickedPlaces(v: Version, lo: UserKey, hi: UserKey, maxGrandparentBytes: nat, level: nat)
    requires Picked(v, lo, hi, maxGrandparentBytes, level)
    ensures MayPlace(v, lo, hi, level)
  {
  }

  lemma OneNew(level: nat, f: File, l: nat)
    ensures EditAt([], [(level, f)], l) == LevelEdit({}, if l == level then [f] else [])
  {
    assert FilesAt([(level, f)][..0], l) == [];
  }

  lemma AddedAt(s: State, level: nat, f: File, v: Version)
    requires Inv(s) && level < NUM_LEVELS && f.number == s.nextFile
    requires forall l :: 0 <= l < NUM_LEVELS ==>
               v[l] == SaveLevel(s.version[l], ApplyLevel(EMPTY, EditAt([], [(level, f)], l)))
    ensures Saved(s.version[level], {}, {f}, v[level]) && v == s.version[level := v[level]]
  {
    hide SaveLevel, ApplyLevel, EditAt, Less;
    forall l | 0 <= l < NUM_LEVELS && l != level ensures v[l] == s.version[l] {
      OneNew(level, f, l);
      LevelUntouched(s.version[l]);
    }
    OneNew(level, f, level);
    LevelOrdered(s, level);
    NumberIdentifies(s, level);
    assert FileSet([f]) == {f};
    LevelApplied(s.version[level], {}, [f]);
    assert WithNumbers(s.version[level], {}) == {};
  }

  // ----- BackgroundCompaction -----

  /** The oldest live snapshot, or the last sequence number when there is none. */
  method OldestSnapshot(s: State) returns (x: nat)
    ensures SmallestSnapshot(s, x)
  {
    x := |s.history|;
    if s.snapshots == multiset{} {
      return;
    }
    var rest := s.snapshots;
    x :| x in rest;
    while rest != multiset{}
      invariant rest <= s.snapshots && x in s.snapshots
      invariant forall y :: y in s.snapshots && y !in rest ==> x <= y
      decreases |rest|
    {
      var y :| y in rest;
      if y < x {
        x := y;
      }
      rest := rest[y := 0];
    }
  }

  /** What a background compaction is asked to do: a range of one level, or a level that is due for one. */
  datatype Request = Manual(level: nat, begin: Option<UserKey>, end: Option<UserKey>)
    | Automatic(level: nat, pointer: Option<IKey>, seekFile: Option<File>)

  datatype Limits = Limits(maxFileSize: nat, expanded: nat, maxGrandparentBytes: nat)

  /** The choice is made, and either there is nothing to do, or a single file moves down, or the work begins. */
  method BackgroundCompaction(s: State, req: Request, limits: Limits)
    returns (started: bool, s': State, in0: seq<File>, in1: seq<File>, ghost step: Step)
    requires Inv(s) && s.running.None? && req.level + 1 < NUM_LEVELS
    requires req.Automatic? ==>
               s.version[req.level] != [] && (req.seekFile.Some? ==> req.seekFile.value in s.version[req.level])
    ensures !started ==> s' == s && req.Manual?
    ensures !started ==>
              forall i :: 0 <= i < |s.version[req.level]| ==> !Overlaps(s.version[req.level][i], req.begin, req.end)
    ensures started ==> Next(s, s', step) && (step.DoBegin? || step.DoMove?)
    ensures started && step.DoMove? ==> req.Automatic? && in0 == [step.f] && in1 == [] && step.level == req.level
    ensures started && step.DoBegin? ==>
              var c := step.c;
              c.level == req.level && c.in0 == FileSet(in0) && c.in1 == FileSet(in1) && c.manual == req.Manual?
    ensures started && req.Manual? && req.level > 0 ==>
              exists front :: FileSet(front) <= FileSet(in0) &&
                CutAt(Select(s.version[req.level], req.begin, req.end), limits.maxFileSize, front)
  {
    hide Less, Linked, ReadsRight, AllWritten, RunningOk, SortedDisjoint, Chosen, UniqueNumbers, MemoryOk, Select,
         CutAt;
    var smallest := OldestSnapshot(s);
    started, s', step := true, s, DoSwitch;
    match req
    case Manual(level, begin, end) =>
      ghost var front;
      started, in0, in1, front := CompactRange(s.version, level, begin, end, limits.maxFileSize, limits.expanded);
      if started {
        var c := NewRunning(s, level, in0, in1, smallest, true);
        s', step := s.(running := Some(c)), DoBegin(c);
      }
    case Automatic(level, pointer, seekFile) =>
      ghost var start;
      in0, in1, start := PickCompaction(s.version, level, pointer, seekFile, limits.expanded);
      var trivial := IsTrivialMove(s.version, level, in0, in1, limits.maxGrandparentBytes);
      if trivial {
        var f := in0[0];
        assert in0 == [f] && FileSet([f]) == {f} && FileSet([]) == {};
        s' := MoveDown(s, level, f);
        step := DoMove(level, f);
      } else {
        var c := NewRunning(s, level, in0, in1, smallest, false);
        s', step := s.(running := Some(c)), DoBegin(c);
      }
  }

  method SetOf(files: seq<File>) returns (fs: set<File>)
    ensures fs == FileSet(files)
  {
    fs := {};
    for i := 0 to |files|
      invariant fs == FileSet(files[..i])
    {
      fs := fs + {files[i]};
      assert files[..i + 1] == files[..i] + [files[i]];
    }
    assert files[..|files|] == files;
  }

  method NewRunning(s: State, level: nat, in0: seq<File>, in1: seq<File>, smallest: SeqNo, manual: bool)
    returns (c: Running)
    ensures c == Running(level, FileSet(in0), FileSet(in1), s.version, smallest, [], manual)
  {
    var fs0 := SetOf(in0);
    var fs1 := SetOf(in1);
    c := Running(level, fs0, fs1, s.version, smallest, [], manual);
  }

  /** One input file, none in the next level, and not too much in the one after that. */
  method IsTrivialMove(v: Version, level: nat, in0: seq<File>, in1: seq<File>, maxGrandparentBytes: nat)
    returns (b: bool)
    requires level + 1 < NUM_LEVELS && in0 != []
    ensures b <==> |in0| == 1 && in1 == [] && !TooMuchBelow(v, Lo(in0[0]), Hi(in0[0]), level, maxGrandparentBytes)
  {
    b := |in0| == 1 && |in1| == 0;
    if b && level + 2 < NUM_LEVELS {
      var lo, hi := Lo(in0[0]), Hi(in0[0]);
      var grandparents, grown := GetOverlappingInputs(v[level + 2], false, Some(lo), Some(hi));
      NoGrowth(Some(lo), Some(hi));
      b := TotalFileSize(grandparents) <= maxGrandparentBytes;
    }
  }

  method MoveDown(s: State, level: nat, f: File) returns (s': State)
    requires Inv(s) && s.running.None? && Chosen(s.version, level, {f}, {})
    ensures TrivialMove(s, s', level, f)
  {
    hide Less, Linked, ReadsRight, AllWritten, RunningOk, SortedDisjoint, UniqueNumbers, MemoryOk, SaveLevel,
         ApplyLevel, EditAt;
    var v := LogAndApply(s.version, VersionEdit([(level, f.number)], [(level + 1, f)]));
    s' := s.(version := v);
    MovedAt(s, level, f, v);
  }

  lemma OneMoved(level: nat, f: File, l: nat)
    ensures EditAt([(level, f.number)], [(level + 1, f)], l) ==
            LevelEdit(if l == level then {f.number} else {}, if l == level + 1 then [f] else [])
  {
    assert FilesAt([(level + 1, f)][..0], l) == [];
    assert (level, f.number) in [(level, f.number)];
  }

  lemma MovedAt(s: State, level: nat, f: File, v: Version)
    requires Inv(s) && level + 1 < NUM_LEVELS && f in s.version[level]
    requires forall l :: 0 <= l < NUM_LEVELS ==>
               v[l] == SaveLevel(s.version[l], ApplyLevel(EMPTY, EditAt([(level, f.number)], [(level + 1, f)], l)))
    ensures Saved(s.version[level], {f}, {}, v[level]) && Saved(s.version[level + 1], {}, {f}, v[level + 1])
    ensures v == s.version[level := v[level]][level + 1 := v[level + 1]]
  {
    hide SaveLevel, ApplyLevel, EditAt, Less, OrderedBySmallest;
    forall l | 0 <= l < NUM_LEVELS && l != level && l != level + 1 ensures v[l] == s.version[l] {
      OneMoved(level, f, l);
      LevelUntouched(s.version[l]);
    }
    OneMoved(level, f, level);
    OneMoved(level, f, level + 1);
    LevelOrdered(s, level);
    LevelOrdered(s, level + 1);
    NumberIdentifies(s, level);
    NumberIdentifies(s, level + 1);
    assert FileSet([f]) == {f} && FileSet([]) == {};
    assert FileSet(s.version[level]) + {} == FileSet(s.version[level]);
    forall g | g in s.version[level + 1] ensures g.number != f.number { assert NoClash(level, f, level + 1, g); }
    LevelApplied(s.version[level], {f.number}, []);
    LevelApplied(s.version[level + 1], {}, [f]);
    assert WithNumbers(s.version[level], {f.number}) == {f};
    assert WithNumbers(s.version[level + 1], {}) == {};
  }

  // ----- DoCompactionWork and InstallCompactionResults -----

  /** k outputs are opened, one after another. */
  ghost function Opened(s: State, k: nat): (r: State)
    requires s.running.Some?
    ensures r.running.Some?
  {
    if k == 0 then s
    else
      var t := Opened(s, k - 1);
      t.(nextFile := t.nextFile + 1,
          running := Some(t.running.value.(numbers := t.running.value.numbers + [t.nextFile])))
  }

  lemma OpenedStep(s: State, k: nat)
    requires s.running.Some?
    ensures Next(Opened(s, k), Opened(s, k + 1), DoOpenOutput)
  {
  }

  /** Only file numbers change while outputs are opened. */
  lemma {:induction false} OpenedIs(s: State, k: nat)
    requires s.running.Some?
    ensures var t, c := Opened(s, k), s.running.value;
            && t == s.(nextFile := s.nextFile + k, running := Some(c.(numbers := t.running.value.numbers)))
            && c.numbers <= t.running.value.numbers && |t.running.value.numbers| == |c.numbers| + k
  {
    if k > 0 {
      OpenedIs(s, k - 1);
    }
  }

  /** The numbers of the outputs are new ones. */
  lemma {:induction false} OpenedNumbers(s: State, k: nat)
    requires s.running.Some?
    ensures var was, all := s.running.value.numbers, Opened(s, k).running.value.numbers;
            && |all| == |was| + k && Opened(s, k).nextFile == s.nextFile + k
            && (forall i :: 0 <= i < |was| ==> all[i] == was[i])
            && forall i :: |was| <= i < |all| ==> all[i] == s.nextFile + (i - |was|)
  {
    if k > 0 { OpenedNumbers(s, k - 1); }
  }

  lemma {:induction false} OpenedKeepsInv(s: State, k: nat)
    requires Inv(s) && s.running.Some?
    ensures Inv(Opened(s, k))
  {
    hide Inv;
    if k > 0 {
      OpenedKeepsInv(s, k - 1);
      OpenOutputKeepsInv(Opened(s, k - 1), Opened(s, k));
    }
  }

  /** Different files of a version share no entry. */
  lemma FilesShareNothing(v: Version, l: nat, f: File, m: nat, g: File, e: Entry)
    requires WellFormed(v) && l < NUM_LEVELS && m < NUM_LEVELS && f in v[l] && g in v[m] && (l != m || f != g)
    requires e in f.entries
    ensures e !in g.entries
  {
    if l < m {
      LowerLevelNewer(v, l, f, m, g);
    } else if m < l {
      LowerLevelNewer(v, m, g, l, f);
    } else if l > 0 {
      SortedPair(v[l], f, g);
      FileBounds(f, e);
      if e in g.entries {
        FileBounds(g, e);
      }
    } else {
      var i :| 0 <= i < |v[0]| && v[0][i] == f;
      var j :| 0 <= j < |v[0]| && v[0][j] == g;
      assert f.number != g.number;
      assert NewerFile(f, g) || NewerFile(g, f);
    }
  }

  lemma InputsShareNothing(s: State, c: Running, f: File, g: File, e: Entry)
    requires Inv(s) && s.running == Some(c) && f in Inputs(c) && g in Inputs(c) && f != g && e in f.entries
    ensures e !in g.entries
  {
    var l := if f in c.in0 then c.level else c.level + 1;
    var m := if g in c.in0 then c.level else c.level + 1;
    assert f in FileSet(s.version[l]) && g in FileSet(s.version[m]);
    FilesShareNothing(s.version, l, f, m, g, e);
  }

  method ListFiles(fs: set<File>) returns (files: seq<File>)
    ensures FileSet(files) == fs && forall i, j :: 0 <= i < j < |files| ==> files[i] != files[j]
  {
    files := [];
    var rest := fs;
    while rest != {}
      invariant FileSet(files) == fs - rest && rest <= fs
      invariant forall i, j :: 0 <= i < j < |files| ==> files[i] != files[j]
      decreases |rest|
    {
      var f: FileData :| f in rest;
      assert f !in FileSet(files);
      assert FileSet(files + [f]) == FileSet(files) + {f};
      assert fs - (rest - {f}) == (fs - rest) + {f};
      files := files + [f];
      rest := rest - {f};
    }
  }

  lemma UnionOfFiles(files: seq<File>, history: seq<Entry>) returns (merged: seq<Entry>)
    requires forall i, j, e :: 0 <= i < j < |files| && e in files[i].entries ==> e !in files[j].entries
    requires AllWritten(history, FileEntries(FileSet(files)))
    ensures SortedUnion(EntryRuns(files), merged) && Elements(merged) == FileEntries(FileSet(files))
  {
    var runs := EntryRuns(files);
    forall i, e | 0 <= i < |files| && e in files[i].entries ensures Written(history, e) {
      assert files[i] in FileSet(files);
      assert e in FileEntries(FileSet(files));
    }
    hide AllWritten;
    forall i, k, x: Entry, y: Entry | 0 <= i < k < |runs| && x in runs[i] && y in runs[k] ensures x.key != y.key {
      assert Written(history, x) && Written(history, y) && x != y;
    }
    merged := UnionExists(runs);
    assert forall e :: e in FileEntries(FileSet(files)) <==> exists i :: 0 <= i < |runs| && e in runs[i];
  }

  /** The inputs merged into one sorted run, as the input iterator shows them. */
  method MergeInputs(files: seq<File>, ghost history: seq<Entry>) returns (input: seq<Entry>)
    requires forall i, j, e :: 0 <= i < j < |files| && e in files[i].entries ==> e !in files[j].entries
    requires AllWritten(history, FileEntries(FileSet(files)))
    ensures StrictlySorted(input) && Elements(input) == FileEntries(FileSet(files))
  {
    ghost var merged := UnionOfFiles(files, history);
    hide Less, AllWritten, SortedUnion;
    var it := new MergingIterator(EntryRuns(files), merged);
    it.SeekToFirst();
    input := [];
    while it.current.Some?
      invariant fresh(it) && it.Ok() && it.merged == merged && it.at <= |merged| && input == merged[..it.at]
      decreases |merged| - it.at
    {
      input := input + [it.Current()];
      it.Next();
    }
    assert merged[..|merged|] == merged;
    UnionIsSorted(EntryRuns(files), merged);
  }

  lemma UnionIsSorted(children: seq<seq<Entry>>, merged: seq<Entry>)
    requires SortedUnion(children, merged)
    ensures StrictlySorted(merged)
  {
  }

  function DeletionsOf(files: seq<File>, level: nat): seq<(nat, nat)> {
    seq(|files|, i requires 0 <= i < |files| => (level, files[i].number))
  }

  function NewsOf(files: seq<File>, level: nat): seq<(nat, File)> {
    seq(|files|, i requires 0 <= i < |files| => (level, files[i]))
  }

  ghost function NumbersOf(fs: set<File>): set<nat> { set f | f in fs :: f.number }

  lemma {:induction false} NewsAt(files: seq<File>, level: nat, l: nat)
    ensures FilesAt(NewsOf(files, level), l) == if l == level then files else []
  {
    if files == [] {
      assert NewsOf(files, level) == [];
    } else {
      var n := |files| - 1;
      NewsAt(files[..n], level, l);
      assert NewsOf(files, level)[..n] == NewsOf(files[..n], level);
      assert NewsOf(files, level)[n] == (level, files[n]);
      assert files == files[..n] + [files[n]];
    }
  }

  lemma DeletionsAt(in0: seq<File>, in1: seq<File>, level: nat, l: nat)
    ensures NumbersAt(DeletionsOf(in0, level) + DeletionsOf(in1, level + 1), l) ==
            if l == level then NumbersOf(FileSet(in0)) else if l == level + 1 then NumbersOf(FileSet(in1)) else {}
  {
    var d := DeletionsOf(in0, level) + DeletionsOf(in1, level + 1);
    assert forall i | 0 <= i < |in0| :: d[i] == (level, in0[i].number);
    assert forall i | 0 <= i < |in1| :: d[|in0| + i] == (level + 1, in1[i].number);
    forall n ensures n in NumbersAt(d, level) <==> n in NumbersOf(FileSet(in0)) {
      if n in NumbersOf(FileSet(in0)) {
        var f :| f in FileSet(in0) && f.number == n;
        var i :| 0 <= i < |in0| && in0[i] == f;
        assert d[i] in d;
      }
    }
    forall n ensures n in NumbersAt(d, level + 1) <==> n in NumbersOf(FileSet(in1)) {
      if n in NumbersOf(FileSet(in1)) {
        var f :| f in FileSet(in1) && f.number == n;
        var i :| 0 <= i < |in1| && in1[i] == f;
        assert d[|in0| + i] in d;
      }
    }
  }

  /** Deleting by number removes exactly these files. */
  lemma NumbersRemove(files: seq<File>, some: set<File>)
    requires Identified(FileSet(files)) && some <= FileSet(files)
    ensures WithNumbers(files, NumbersOf(some)) == some
  {
  }

  /** What installing needs of the store: the inputs are there, and every number names one file. */
  ghost predicate Installable(s: State, c: Running) {
    && c.level + 1 < NUM_LEVELS && c.in0 <= FileSet(s.version[c.level]) && c.in1 <= FileSet(s.version[c.level + 1])
    && OrderedBySmallest(s.version[c.level]) && OrderedBySmallest(s.version[c.level + 1])
    && Identified(FileSet(s.version[c.level])) && Identified(FileSet(s.version[c.level + 1]))
    && (forall f :: f in s.version[c.level + 1] ==> f.number < s.nextFile && f.number !in c.numbers)
    && (forall i :: 0 <= i < |c.numbers| ==> c.numbers[i] < s.nextFile)
    && (forall i, j :: 0 <= i < j < |c.numbers| ==> c.numbers[i] != c.numbers[j])
  }

  lemma InvInstallable(s: State, c: Running)
    requires Inv(s) && s.running == Some(c)
    ensures Installable(s, c)
  {
    hide OrderedBySmallest, Less, ReadsRight, AllWritten, Linked, InputsOldest, OutputRoom, NewcomersApart;
    LevelOrdered(s, c.level);
    LevelOrdered(s, c.level + 1);
    NumberIdentifies(s, c.level);
    NumberIdentifies(s, c.level + 1);
  }

  lemma OpenedInstallable(s: State, k: nat)
    requires s.running.Some? && Installable(s, s.running.value)
    ensures Installable(Opened(s, k), Opened(s, k).running.value)
  {
    hide OrderedBySmallest, Identified, Opened;
    OpenedIs(s, k);
    OpenedNumbers(s, k);
    var was, all := s.running.value.numbers, Opened(s, k).running.value.numbers;
    forall f | f in s.version[s.running.value.level + 1] ensures f.number !in all {
      assert forall i :: 0 <= i < |was| ==> was[i] in was;
    }
  }

  /** The two levels that an install changes, saved after the edit. */
  lemma LevelsInstalled(s: State, c: Running, outputs: seq<File>)
    requires Installable(s, c)
    requires |outputs| == |c.numbers| && forall i :: 0 <= i < |outputs| ==> outputs[i].number == c.numbers[i]
    ensures Saved(s.version[c.level], c.in0, {},
                  SaveLevel(s.version[c.level], ApplyLevel(EMPTY, LevelEdit(NumbersOf(c.in0), []))))
    ensures Saved(s.version[c.level + 1], c.in1, FileSet(outputs),
                  SaveLevel(s.version[c.level + 1], ApplyLevel(EMPTY, LevelEdit(NumbersOf(c.in1), outputs))))
  {
    hide SaveLevel, ApplyLevel, OrderedBySmallest, Identified, Saved, WithNumbers, NumbersOf;
    OutputsAreNew(s, c, outputs);
    assert FileSet([]) == {} && FileSet(s.version[c.level]) + FileSet([]) == FileSet(s.version[c.level]);
    LevelApplied(s.version[c.level], NumbersOf(c.in0), []);
    LevelApplied(s.version[c.level + 1], NumbersOf(c.in1), outputs);
    NumbersRemove(s.version[c.level], c.in0);
    NumbersRemove(s.version[c.level + 1], c.in1);
  }

  lemma InstalledAt(s: State, c: Running, in0: seq<File>, in1: seq<File>, outputs: seq<File>, v: Version)
    requires Installable(s, c) && FileSet(in0) == c.in0 && FileSet(in1) == c.in1
    requires |outputs| == |c.numbers| && forall i :: 0 <= i < |outputs| ==> outputs[i].number == c.numbers[i]
    requires forall l :: 0 <= l < NUM_LEVELS ==>
               v[l] == SaveLevel(s.version[l], ApplyLevel(EMPTY,
                 EditAt(DeletionsOf(in0, c.level) + DeletionsOf(in1, c.level + 1), NewsOf(outputs, c.level + 1), l)))
    ensures Saved(s.version[c.level], c.in0, {}, v[c.level])
    ensures Saved(s.version[c.level + 1], c.in1, FileSet(outputs), v[c.level + 1])
    ensures v == s.version[c.level := v[c.level]][c.level + 1 := v[c.level + 1]]
  {
    hide SaveLevel, ApplyLevel, NumbersAt, FilesAt, DeletionsOf, NewsOf, NumbersOf, OrderedBySmallest, Identified,
         Saved;
    forall l | 0 <= l < NUM_LEVELS && l != c.level && l != c.level + 1 ensures v[l] == s.version[l] {
      DeletionsAt(in0, in1, c.level, l);
      NewsAt(outputs, c.level + 1, l);
      LevelUntouched(s.version[l]);
    }
    DeletionsAt(in0, in1, c.level, c.level);
    DeletionsAt(in0, in1, c.level, c.level + 1);
    NewsAt(outputs, c.level + 1, c.level);
    NewsAt(outputs, c.level + 1, c.level + 1);
    LevelsInstalled(s, c, outputs);
  }

  lemma InputsInVersion(s: State, c: Running)
    requires Inv(s) && s.running == Some(c)
    ensures c.level + 1 < NUM_LEVELS && c.in0 <= FileSet(s.version[c.level]) && c.in1 <= FileSet(s.version[c.level + 1])
  {
  }

  lemma OutputsIdentified(numbers: seq<nat>, outputs: seq<File>)
    requires |outputs| == |numbers| && forall i :: 0 <= i < |outputs| ==> outputs[i].number == numbers[i]
    requires forall i, j :: 0 <= i < j < |numbers| ==> numbers[i] != numbers[j]
    ensures forall f :: f in outputs ==> f.number in numbers
    ensures forall f, g :: f in outputs && g in outputs && f.number == g.number ==> f == g
  {
  }

  lemma OutputsAreNew(s: State, c: Running, outputs: seq<File>)
    requires Installable(s, c)
    requires |outputs| == |c.numbers| && forall i :: 0 <= i < |outputs| ==> outputs[i].number == c.numbers[i]
    ensures Identified(FileSet(s.version[c.level + 1]) + FileSet(outputs))
    ensures FileSet(s.version[c.level + 1]) !! FileSet(outputs)
    ensures forall f :: f in outputs ==> f.number !in NumbersOf(c.in1)
  {
    hide OrderedBySmallest;
    OutputsIdentified(c.numbers, outputs);
  }

  /** The inputs go, the outputs come, in one edit. */
  method InstallCompactionResults(s: State, outputs: seq<File>, ghost input: seq<Entry>) returns (s': State)
    requires s.running.Some? && Installable(s, s.running.value)
    requires var c := s.running.value;
             && |outputs| == |c.numbers| && (forall i :: 0 <= i < |outputs| ==> outputs[i].number == c.numbers[i])
             && StrictlySorted(input) && Elements(input) == FileEntries(Inputs(c))
             && Concat(EntryRuns(outputs)) == Kept(input, c.smallest, c.base, c.level)
    ensures Next(s, s', DoInstall(input, outputs))
  {
    hide Less, Linked, ReadsRight, AllWritten, SortedDisjoint, UniqueNumbers, MemoryOk, SaveLevel, ApplyLevel, EditAt,
         Saved, Kept, Concat;
    var c := s.running.value;
    var in0 := ListFiles(c.in0);
    var in1 := ListFiles(c.in1);
    var v := LogAndApply(s.version,
        VersionEdit(DeletionsOf(in0, c.level) + DeletionsOf(in1, c.level + 1), NewsOf(outputs, c.level + 1)));
    InstalledAt(s, c, in0, in1, outputs, v);
    s' := s.(running := None, horizon := if s.horizon < c.smallest then c.smallest else s.horizon, version := v);
  }

  lemma {:induction false} PieceSorted(runs: seq<seq<Entry>>, i: nat)
    requires StrictlySorted(Concat(runs)) && i < |runs|
    ensures StrictlySorted(runs[i])
  {
    var n := |runs| - 1;
    var init := Concat(runs[..n]);
    assert Concat(runs) == init + runs[n];
    if i == n {
      SortedSlice(Concat(runs), |init|, |Concat(runs)|);
      assert Concat(runs)[|init|..] == runs[n];
    } else {
      SortedSlice(Concat(runs), 0, |init|);
      assert Concat(runs)[..|init|] == init;
      PieceSorted(runs[..n], i);
    }
  }

  /** The outputs, with their numbers and sizes. */
  function MakeFiles(runs: seq<seq<Entry>>, numbers: seq<nat>, size: nat -> nat): (files: seq<File>)
    requires |numbers| == |runs| && forall i :: 0 <= i < |runs| ==> runs[i] != [] && StrictlySorted(runs[i])
    ensures EntryRuns(files) == runs && |files| == |runs|
    ensures forall i :: 0 <= i < |files| ==> files[i].number == numbers[i] && files[i].size == size(i)
  {
    if runs == [] then []
    else
      var n := |runs| - 1;
      MakeFiles(runs[..n], numbers[..n], size) + [FileData(numbers[n], size(n), runs[n])]
  }

  lemma RunsAreFiles(runs: seq<seq<Entry>>)
    requires StrictlySorted(Concat(runs)) && forall o :: o in runs ==> o != []
    ensures forall i :: 0 <= i < |runs| ==> runs[i] != [] && StrictlySorted(runs[i])
  {
    hide Concat, StrictlySorted;
    forall i | 0 <= i < |runs| ensures runs[i] != [] && StrictlySorted(runs[i]) {
      PieceSorted(runs, i);
      assert runs[i] in runs;
    }
  }

  method OpenOutputs(s: State, k: nat) returns (t: State)
    requires s.running.Some?
    ensures t == Opened(s, k)
  {
    t := s;
    for i := 0 to k
      invariant t == Opened(s, i)
    {
      t := t.(nextFile := t.nextFile + 1,
              running := Some(t.running.value.(numbers := t.running.value.numbers + [t.nextFile])));
    }
  }

  /** The inputs are merged, and what is kept of them is cut into runs. */
  method Rewrite(s: State, stopBefore: nat -> bool, full: nat -> bool)
    returns (input: seq<Entry>, runs: seq<seq<Entry>>)
    requires Inv(s) && s.running.Some?
    ensures var c := s.running.value;
            && StrictlySorted(input) && Elements(input) == FileEntries(Inputs(c))
            && runs == Outputs(input, c.smallest, c.base, c.level, stopBefore, full)
            && Concat(runs) == Kept(input, c.smallest, c.base, c.level) && forall r :: r in runs ==> r != []
  {
    var c := s.running.value;
    WorkFacts(s, c);
    hide Inv, Concat, Outputs, Kept, StrictlySorted;
    var files := ListFiles(c.in0 + c.in1);
    InputsDistinct(s, c, files);
    input := MergeInputs(files, s.history);
    var work := new Compaction(c.level, c.base);
    runs := work.DoCompactionWork(input, c.smallest, stopBefore, full);
  }

  /** One output is opened for each run, and all are installed. */
  method Finish(s: State, runs: seq<seq<Entry>>, size: nat -> nat, ghost input: seq<Entry>)
    returns (s': State, ghost mid: State, outputs: seq<File>)
    requires s.running.Some? && s.running.value.numbers == [] && Installable(s, s.running.value)
    requires var c := s.running.value;
             && StrictlySorted(input) && Elements(input) == FileEntries(Inputs(c))
             && Concat(runs) == Kept(input, c.smallest, c.base, c.level) && forall r :: r in runs ==> r != []
    ensures mid == Opened(s, |outputs|) && Next(mid, s', DoInstall(input, outputs))
    ensures EntryRuns(outputs) == runs && forall i :: 0 <= i < |outputs| ==> outputs[i].size == size(i)
  {
    hide Concat, Kept, StrictlySorted, EntryRuns, Opened, Next, Inputs, Installable;
    var c := s.running.value;
    KeptSorted(input, c.smallest, c.base, c.level);
    RunsAreFiles(runs);
    var t := OpenOutputs(s, |runs|);
    OpenedIs(s, |runs|);
    OpenedInstallable(s, |runs|);
    outputs := MakeFiles(runs, t.running.value.numbers, size);
    mid := t;
    SameInputFiles(c, t.running.value);
    s' := InstallCompactionResults(t, outputs, input);
  }

  /** A compaction that nothing interrupts. */
  method DoWork(s: State, stopBefore: nat -> bool, full: nat -> bool, size: nat -> nat)
    returns (s': State, ghost mid: State, ghost input: seq<Entry>, outputs: seq<File>)
    requires Inv(s) && s.running.Some? && s.running.value.numbers == []
    ensures mid == Opened(s, |outputs|) && Next(mid, s', DoInstall(input, outputs))
    ensures var c := s.running.value;
            EntryRuns(outputs) == Outputs(input, c.smallest, c.base, c.level, stopBefore, full)
  {
    hide Inv, Concat, Outputs, Kept, StrictlySorted, EntryRuns, Opened, Next, Inputs, Installable;
    var merged, runs := Rewrite(s, stopBefore, full);
    InvInstallable(s, s.running.value);
    s', mid, outputs := Finish(s, runs, size, merged);
    input := merged;
  }

  lemma WorkFacts(s: State, c: Running)
    requires Inv(s) && s.running == Some(c)
    ensures c.level + 1 < NUM_LEVELS && c.smallest < MAX_SEQUENCE
    ensures forall l :: 1 <= l < NUM_LEVELS ==> SortedDisjoint(c.base[l])
  {
  }

  lemma SameInputFiles(c: Running, c': Running)
    requires c' == c.(numbers := c'.numbers)
    ensures Inputs(c') == Inputs(c) == c.in0 + c.in1
  {
  }

  lemma InputsDistinct(s: State, c: Running, files: seq<File>)
    requires Inv(s) && s.running == Some(c) && FileSet(files) == c.in0 + c.in1
    requires forall i, j :: 0 <= i < j < |files| ==> files[i] != files[j]
    ensures forall i, j, e :: 0 <= i < j < |files| && e in files[i].entries ==> e !in files[j].entries
    ensures AllWritten(s.history, FileEntries(FileSet(files)))
  {
    forall i, j, e | 0 <= i < j < |files| && e in files[i].entries ensures e !in files[j].entries {
      assert files[i] in FileSet(files) && files[j] in FileSet(files);
      InputsShareNothing(s, c, files[i], files[j], e);
    }
    forall e | e in FileEntries(FileSet(files)) ensures Written(s.history, e) {
      var f :| f in FileSet(files) && e in f.entries;
      InputIsStored(s, c, f, e);
    }
  }
}
