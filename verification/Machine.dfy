/** The store as a state machine: writes, memtable switches, flushes, trivial
    moves and compactions with flushes in between
    (leveldb/db/db_impl.cc, leveldb/db/version_set.cc). */
module Machine {
  import opened Sequences
  import opened Options
  import opened InternalKeys
  import opened Reads
  import opened Versions
  import opened Picking
  import opened VersionBuilder
  import opened Compacting

  // ----- where a memtable may be placed -----

  const MAX_MEM_COMPACT_LEVEL := 2

  ghost predicate NoneOverlaps(files: seq<File>, lo: UserKey, hi: UserKey) {
    forall f :: f in files ==> Hi(f) < lo || Lo(f) > hi
  }

  /** A flushed table goes below level 0 only past levels it does not meet. */
  ghost predicate MayPlace(v: Version, lo: UserKey, hi: UserKey, level: nat) {
    && level <= MAX_MEM_COMPACT_LEVEL
    && (level > 0 ==> forall l :: 0 <= l <= level ==> NoneOverlaps(v[l], lo, hi))
  }

  method OverlapInLevel(v: Version, level: nat, lo: UserKey, hi: UserKey) returns (b: bool)
    requires LevelsSorted(v) && level < NUM_LEVELS
    ensures !b <==> NoneOverlaps(v[level], lo, hi)
  {
    b := SomeFileOverlapsRange(level > 0, v[level], Some(lo), Some(hi));
    assert !b ==> forall f :: f in v[level] ==> !Overlaps(f, Some(lo), Some(hi));
    assert b ==> exists i ::
                   0 <= i < |v[level]| && v[level][i] in v[level] && Overlaps(v[level][i], Some(lo), Some(hi));
  }

  /** Whether the level two below holds too much in the range. */
  ghost predicate TooMuchBelow(v: Version, lo: UserKey, hi: UserKey, level: nat, maxGrandparentBytes: nat) {
    level + 2 < NUM_LEVELS && TotalFileSize(Select(v[level + 2], Some(lo), Some(hi))) > maxGrandparentBytes
  }

  /** The level is as deep as the rules allow, and no deeper. */
  ghost predicate Picked(v: Version, lo: UserKey, hi: UserKey, maxGrandparentBytes: nat, level: nat) {
    && MayPlace(v, lo, hi, level)
    && (forall l :: 0 <= l < level ==> !TooMuchBelow(v, lo, hi, l, maxGrandparentBytes))
    && (level == MAX_MEM_COMPACT_LEVEL || !NoneOverlaps(v[0], lo, hi) || !NoneOverlaps(v[level + 1], lo, hi)
        || TooMuchBelow(v, lo, hi, level, maxGrandparentBytes))
  }

  method PickLevelForMemTableOutput(v: Version, lo: UserKey, hi: UserKey, maxGrandparentBytes: nat) returns (level: nat)
    requires LevelsSorted(v)
    ensures Picked(v, lo, hi, maxGrandparentBytes, level)
  {
    level := 0;
    var overlap := OverlapInLevel(v, 0, lo, hi);
    if !overlap {
      while level < MAX_MEM_COMPACT_LEVEL
        invariant 0 <= level <= MAX_MEM_COMPACT_LEVEL
        invariant forall l :: 0 <= l <= level ==> NoneOverlaps(v[l], lo, hi)
        invariant forall l :: 0 <= l < level ==> !TooMuchBelow(v, lo, hi, l, maxGrandparentBytes)
      {
        overlap := OverlapInLevel(v, level + 1, lo, hi);
        if overlap { break; }
        if level + 2 < NUM_LEVELS {
          var overlaps, grown := GetOverlappingInputs(v[level + 2], false, Some(lo), Some(hi));
          if TotalFileSize(overlaps) > maxGrandparentBytes { break; }
        }
        level := level + 1;
      }
    }
  }

  // ----- states -----

  datatype Running = Running(level: nat, in0: set<File>, in1: set<File>, base: Version, smallest: SeqNo,
                             numbers: seq<nat>, manual: bool)

  datatype State = State(history: seq<Entry>, mem: seq<Entry>, imm: Option<seq<Entry>>, version: Version, nextFile: nat,
                         snapshots: multiset<nat>, running: Option<Running>, horizon: nat)

  ghost function Everything(s: State): set<Entry> {
    AllEntries(s.mem, s.imm, s.version)
  }

  ghost predicate NoClash(l: nat, f: File, m: nat, g: File) {
    f.number == g.number ==> l == m && f == g
  }

  /** File numbers are handed out once. */
  ghost predicate UniqueNumbers(v: Version, nextFile: nat) {
    && (forall l, f :: 0 <= l < NUM_LEVELS && f in v[l] ==> f.number < nextFile)
    && (forall l, m, f, g {:trigger NoClash(l, f, m, g)} ::
          0 <= l < NUM_LEVELS && 0 <= m < NUM_LEVELS && f in v[l] && g in v[m] ==> NoClash(l, f, m, g))
  }

  /** Files outside the compaction, down to its output level, are newer than what it rewrites. */
  ghost predicate InputsOldest(v: Version, level: nat, inputs: set<File>) {
    forall l, f, g {:trigger NewerFile(f, g), v[l]} ::
      0 <= l <= level + 1 && l < NUM_LEVELS && f in v[l] && f !in inputs && g in inputs ==> NewerFile(f, g)
  }

  /** The file lies wholly before or wholly after the entries. */
  ghost predicate Beside(f: File, es: set<Entry>) {
    (forall e :: e in es ==> Less(Largest(f), e.key)) || (forall e :: e in es ==> Less(e.key, Smallest(f)))
  }

  /** Files of the output level left alone lie beside what the compaction will write. */
  ghost predicate OutputRoom(files: seq<File>, inputs: set<File>, kept: set<Entry>) {
    forall f :: f in files && f !in inputs ==> Beside(f, kept)
  }

  ghost predicate Apart(f: File, g: File) {
    Hi(f) < Lo(g) || Lo(f) > Hi(g)
  }

  /** Below the output level, whatever the input version did not know about shares no key with the inputs. */
  ghost predicate NewcomersApart(v: Version, base: Version, level: nat, inputs: set<File>) {
    forall l, f :: level + 2 <= l < NUM_LEVELS && f in v[l] && f !in base[l] ==> forall g :: g in inputs ==> Apart(f, g)
  }

  ghost function Inputs(c: Running): set<File> { c.in0 + c.in1 }

  ghost function FileEntries(fs: set<File>): set<Entry> {
    set f, e | f in fs && e in f.entries :: e
  }

  /** What the compaction will write; that is fixed when it begins. */
  ghost function KeptBy(c: Running): set<Entry> {
    KeptSet(FileEntries(Inputs(c)), c.smallest, c.base, c.level)
  }

  ghost predicate RunningOk(s: State, c: Running) {
    && c.level + 1 < NUM_LEVELS && LevelsSorted(c.base)
    && c.in0 <= FileSet(s.version[c.level]) && c.in1 <= FileSet(s.version[c.level + 1])
    && InputsOldest(s.version, c.level, Inputs(c))
    && OutputRoom(s.version[c.level + 1], Inputs(c), KeptBy(c))
    && NewcomersApart(s.version, c.base, c.level, Inputs(c))
    && (!c.manual ==> Linked(Inputs(c)))
    && c.smallest <= |s.history| && (forall x :: x in s.snapshots ==> c.smallest <= x)
    && (forall i :: 0 <= i < |c.numbers| ==> c.numbers[i] < s.nextFile)
    && (forall i, j :: 0 <= i < j < |c.numbers| ==> c.numbers[i] != c.numbers[j])
    && (forall l, f :: 0 <= l < NUM_LEVELS && f in s.version[l] ==> f.number !in c.numbers)
  }

  ghost predicate ReadsRight(history: seq<Entry>, entries: set<Entry>, horizon: nat) {
    forall user, snapshot {:trigger Replay(history, user, snapshot)} :: horizon <= snapshot ==>
      Answers(entries, user, snapshot, Replay(history, user, snapshot))
  }

  ghost predicate MemoryOk(s: State) {
    && StrictlySorted(s.mem) && (s.imm.Some? ==> StrictlySorted(s.imm.value))
    && Newer(Elements(s.mem), ImmEntries(s.imm) + AllFiles(s.version))
    && Newer(ImmEntries(s.imm), AllFiles(s.version))
  }

  ghost predicate Inv(s: State) {
    && Numbered(s.history) && |s.history| < MAX_SEQUENCE
    && MemoryOk(s)
    && WellFormed(s.version) && OrderedBySmallest(s.version[0]) && UniqueNumbers(s.version, s.nextFile)
    && AllWritten(s.history, Everything(s))
    && ReadsRight(s.history, Everything(s), s.horizon)
    && s.horizon <= |s.history| && (forall x :: x in s.snapshots ==> s.horizon <= x <= |s.history|)
    && (s.running.Some? ==> RunningOk(s, s.running.value))
  }

  // ----- steps -----

  datatype Op = Put(user: UserKey, value: string) | Delete(user: UserKey)

  function Stamp(op: Op, seqno: SeqNo): Entry {
    match op
    case Put(user, value) => Entry(IKey(user, seqno, Value), value)
    case Delete(user) => Entry(IKey(user, seqno, Deletion), "")
  }

  ghost predicate Write(s: State, s': State, op: Op) {
    && |s.history| + 1 < MAX_SEQUENCE
    && var e := Stamp(op, |s.history| + 1);
       && StrictlySorted(s'.mem) && Elements(s'.mem) == Elements(s.mem) + {e}
       && s' == s.(history := s.history + [e], mem := s'.mem)
  }

  ghost predicate SwitchMemTable(s: State, s': State) {
    s.imm.None? && s' == s.(imm := Some(s.mem), mem := [])
  }

  /** Some entry is of a smaller user key than the table, and some of a larger one. */
  ghost predicate Among(f: File, es: set<Entry>) {
    (exists x :: x in es && x.key.user < Lo(f)) && (exists y :: y in es && y.key.user > Hi(f))
  }

  ghost predicate SafeBeside(f: File, level: nat, c: Running) {
    level == c.level + 1 ==> !Among(f, KeptBy(c))
  }

  /** CompactMemTable, possibly in the middle of a compaction.  Beside a manual compaction the
      table must not land among what that will write to the same level. */
  ghost predicate Flush(s: State, s': State, level: nat, size: nat) {
    && s.imm.Some?
    && level < NUM_LEVELS
    && (s.imm.value == [] ==> s' == s.(imm := None))
    && (s.imm.value != [] ==> FlushTable(s, s', FileData(s.nextFile, size, s.imm.value), level))
  }

  ghost predicate FlushTable(s: State, s': State, f: FileData, level: nat)
    requires level < NUM_LEVELS
  {
    && PlaceTable(s, s', f, level)
    && (s.running.Some? && s.running.value.manual ==> SafeBeside(f, level, s.running.value))
  }

  /** The table goes to a level that it may go to. */
  ghost predicate PlaceTable(s: State, s': State, f: FileData, level: nat)
    requires level < NUM_LEVELS
    ensures PlaceTable(s, s', f, level) ==> ValidFile(f)
  {
    && ValidFile(f)
    && MayPlace(s.version, Lo(f), Hi(f), level)
    && Saved(s.version[level], {}, {f}, s'.version[level])
    && s' == s.(imm := None, nextFile := s.nextFile + 1, version := s.version[level := s'.version[level]])
  }

  ghost predicate SmallestSnapshot(s: State, x: nat) {
    && (forall y :: y in s.snapshots ==> x <= y)
    && (if s.snapshots == multiset{} then x == |s.history| else x in s.snapshots)
  }

  ghost predicate BeginCompaction(s: State, s': State, c: Running) {
    && s.running.None?
    && Chosen(s.version, c.level, c.in0, c.in1)
    && (!c.manual ==> Linked(Inputs(c)))
    && c.base == s.version && SmallestSnapshot(s, c.smallest) && c.numbers == []
    && s' == s.(running := Some(c))
  }

  ghost predicate OpenOutput(s: State, s': State) {
    && s.running.Some?
    && s' == s.(nextFile := s.nextFile + 1,
                running := Some(s.running.value.(numbers := s.running.value.numbers + [s.nextFile])))
  }

  function EntryRuns(files: seq<File>): (r: seq<seq<Entry>>)
    ensures |r| == |files| && forall i :: 0 <= i < |r| ==> r[i] == files[i].entries
  {
    seq(|files|, i requires 0 <= i < |files| => files[i].entries)
  }

  /** InstallCompactionResults: `input` is the merged input, `outputs` the files cut from what was kept. */
  ghost predicate InstallCompaction(s: State, s': State, input: seq<Entry>, outputs: seq<File>) {
    && s.running.Some?
    && var c := s.running.value;
       && c.level + 1 < NUM_LEVELS
       && StrictlySorted(input) && Elements(input) == FileEntries(Inputs(c))
       && Concat(EntryRuns(outputs)) == Kept(input, c.smallest, c.base, c.level)
       && |outputs| == |c.numbers| && (forall i :: 0 <= i < |outputs| ==> outputs[i].number == c.numbers[i])
       && Saved(s.version[c.level], c.in0, {}, s'.version[c.level])
       && Saved(s.version[c.level + 1], c.in1, FileSet(outputs), s'.version[c.level + 1])
       && s' == s.(running := None, horizon := if s.horizon < c.smallest then c.smallest else s.horizon,
                   version := s.version[c.level := s'.version[c.level]][c.level + 1 := s'.version[c.level + 1]])
  }

  ghost predicate TrivialMove(s: State, s': State, level: nat, f: File) {
    && s.running.None?
    && Chosen(s.version, level, {f}, {})
    && Saved(s.version[level], {f}, {}, s'.version[level])
    && Saved(s.version[level + 1], {}, {f}, s'.version[level + 1])
    && s' == s.(version := s.version[level := s'.version[level]][level + 1 := s'.version[level + 1]])
  }

  ghost predicate AbandonCompaction(s: State, s': State) {
    s.running.Some? && s' == s.(running := None)
  }

  ghost predicate GetSnapshot(s: State, s': State) {
    s' == s.(snapshots := s.snapshots + multiset{|s.history|})
  }

  ghost predicate ReleaseSnapshot(s: State, s': State, x: nat) {
    x in s.snapshots && s' == s.(snapshots := s.snapshots - multiset{x})
  }
}
