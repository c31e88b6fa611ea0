/** Starting a compaction and flushing a memtable, also beside a compaction, keep the invariant. */
module FlushProofs {
  import opened Options
  import opened InternalKeys
  import opened Reads
  import opened Versions
  import opened Picking
  import opened VersionBuilder
  import opened Machine
  import opened MachineProofs

  lemma BeginKeepsInv(s: State, s': State, c: Running)
    requires Inv(s) && BeginCompaction(s, s', c)
    ensures Inv(s')
  {
    assert Everything(s') == Everything(s);
    ChosenRunning(s, s', c);
  }

  lemma ChosenRunning(s: State, s': State, c: Running)
    requires Inv(s) && BeginCompaction(s, s', c)
    ensures RunningOk(s', c)
  {
    hide KeptBy, Beside, Linked, Less, ReadsRight, MemoryOk, InputsOldest, NewerFile, SortedDisjoint, BeforeAll,
         AfterAll;
    ChosenInputsOldest(s, c.level, c.in0, c.in1);
    ChosenLeavesRoom(s.version, c.level, c.in0, c.in1);
    forall f | f in s.version[c.level + 1] && f !in Inputs(c) ensures Beside(f, KeptBy(c)) { BesideKept(c, f); }
  }

  lemma BesideKept(c: Running, f: File)
    requires BeforeAll(f, Inputs(c)) || AfterAll(f, Inputs(c))
    ensures Beside(f, KeptBy(c))
  {
    forall e | e in KeptBy(c)
      ensures if BeforeAll(f, Inputs(c)) then Less(Largest(f), e.key) else Less(e.key, Smallest(f))
    {
      var g :| g in Inputs(c) && e in g.entries;
      FileBounds(g, e);
    }
  }

  lemma ChosenLeavesRoom(v: Version, level: nat, in0: set<File>, in1: set<File>)
    requires Chosen(v, level, in0, in1)
    ensures forall f :: f in v[level + 1] && f !in in0 + in1 ==> BeforeAll(f, in0 + in1) || AfterAll(f, in0 + in1)
  {
  }

  // ----- levels rewritten by an edit -----

  lemma SeparatedIsSorted(files: seq<File>)
    requires OrderedBySmallest(files)
    requires forall f, g :: f in files && g in files && f != g ==>
               Less(Largest(f), Smallest(g)) || Less(Largest(g), Smallest(f))
    ensures SortedDisjoint(files)
  {
  }

  lemma ContentsByFiles(files: seq<File>)
    ensures Contents(files) == FileEntries(FileSet(files))
  {
  }

  lemma SavedContents(base: seq<File>, removed: set<File>, added: set<File>, r: seq<File>)
    requires Saved(base, removed, added, r)
    ensures forall f :: f in r <==> (f in base && f !in removed) || f in added
    ensures Contents(r) == FileEntries(FileSet(base) - removed) + FileEntries(added)
  {
    ContentsByFiles(r);
    forall f ensures f in r <==> (f in base && f !in removed) || f in added {
      assert f in r <==> f in FileSet(r);
    }
  }

  lemma OrderedNumbersDiffer(files: seq<File>)
    requires OrderedBySmallest(files)
    requires forall f, g :: f in files && g in files && f.number == g.number ==> f == g
    ensures forall i, j :: 0 <= i < j < |files| ==> files[i].number != files[j].number
  {
  }

  // ----- a flushed table in its level -----

  lemma FlushedLevelZero(v: Version, nextFile: nat, f: File, r: seq<File>)
    requires WellFormed(v) && UniqueNumbers(v, nextFile) && f.number == nextFile
    requires Saved(v[0], {}, {f}, r) && Newer(Elements(f.entries), AllFiles(v))
    ensures AgedByNumber(r)
  {
    SavedContents(v[0], {}, {f}, r);
    forall g, h | g in r && h in r && g.number == h.number ensures g == h {
      if g in v[0] && h in v[0] { assert NoClash(0, g, 0, h); }
    }
    OrderedNumbersDiffer(r);
    forall g, h | g in r && h in r && g.number > h.number ensures NewerFile(g, h) {
      if g == f {
        assert forall e :: e in Elements(h.entries) ==> e in Contents(v[0]);
      } else {
        assert g in v[0] && h in v[0];
      }
    }
  }

  lemma FlushedLevel(v: Version, level: nat, f: File, r: seq<File>)
    requires level < NUM_LEVELS && SortedDisjoint(v[level]) && NoneOverlaps(v[level], Lo(f), Hi(f))
             && Saved(v[level], {}, {f}, r)
    ensures SortedDisjoint(r)
  {
    SavedContents(v[level], {}, {f}, r);
    FileBounds(f, f.entries[0]);
    forall g, h | g in r && h in r && g != h ensures Less(Largest(g), Smallest(h)) || Less(Largest(h), Smallest(g)) {
      if g != f && h != f {
        SortedPair(v[level], g, h);
      }
    }
    SeparatedIsSorted(r);
  }

  lemma FlushLayers(v: Version, v': Version, level: nat, f: File)
    requires WellFormed(v) && level < NUM_LEVELS && MayPlace(v, Lo(f), Hi(f), level)
    requires Newer(Elements(f.entries), AllFiles(v))
    requires Saved(v[level], {}, {f}, v'[level]) && v' == v[level := v'[level]]
    ensures LevelsLayered(v')
  {
    SavedContents(v[level], {}, {f}, v'[level]);
    ContentsByFiles(v[level]);
    assert FileSet(v[level]) - {} == FileSet(v[level]);
    assert FileEntries({f}) == Elements(f.entries);
    forall a, b | 0 <= a < b < NUM_LEVELS ensures Newer(Contents(v'[a]), Contents(v'[b])) {
      assert Newer(Contents(v[a]), Contents(v[b]));
      if a == level {
        assert forall e :: e in Contents(v[b]) ==> e in AllFiles(v);
      } else if b == level {
        NoSharedUser(v[a], f);
      }
    }
  }

  lemma NoSharedUser(files: seq<File>, f: File)
    requires NoneOverlaps(files, Lo(f), Hi(f))
    ensures forall x, y :: x in Contents(files) && y in Elements(f.entries) ==> x.key.user != y.key.user
  {
  }

  lemma FlushWellFormed(v: Version, v': Version, nextFile: nat, level: nat, f: File)
    requires WellFormed(v) && OrderedBySmallest(v[0]) && UniqueNumbers(v, nextFile) && f.number == nextFile
    requires level < NUM_LEVELS && MayPlace(v, Lo(f), Hi(f), level) && Newer(Elements(f.entries), AllFiles(v))
    requires Saved(v[level], {}, {f}, v'[level]) && v' == v[level := v'[level]]
    ensures WellFormed(v') && OrderedBySmallest(v'[0])
  {
    FlushLayers(v, v', level, f);
    if level == 0 {
      FlushedLevelZero(v, nextFile, f, v'[0]);
    } else {
      FlushedLevel(v, level, f, v'[level]);
    }
  }

  lemma FlushUniqueNumbers(v: Version, v': Version, nextFile: nat, level: nat, f: File)
    requires UniqueNumbers(v, nextFile) && f.number == nextFile && level < NUM_LEVELS
    requires Saved(v[level], {}, {f}, v'[level]) && v' == v[level := v'[level]]
    ensures UniqueNumbers(v', nextFile + 1)
  {
    SavedContents(v[level], {}, {f}, v'[level]);
    assert forall l, g :: 0 <= l < NUM_LEVELS && g in v'[l] ==> g in v[l] || (l == level && g == f);
    forall l, m, g, h | 0 <= l < NUM_LEVELS && 0 <= m < NUM_LEVELS && g in v'[l] && h in v'[m]
      ensures NoClash(l, g, m, h) {
      if g in v[l] && h in v[m] { assert NoClash(l, g, m, h); }
    }
  }

  lemma FlushSameEntries(v: Version, v': Version, level: nat, f: File)
    requires level < NUM_LEVELS && Saved(v[level], {}, {f}, v'[level]) && v' == v[level := v'[level]]
    ensures AllFiles(v') == AllFiles(v) + Elements(f.entries)
  {
    SavedContents(v[level], {}, {f}, v'[level]);
    ContentsByFiles(v[level]);
    assert FileSet(v[level]) - {} == FileSet(v[level]);
    assert FileEntries({f}) == Elements(f.entries);
    assert Contents(v'[level]) == Contents(v[level]) + Elements(f.entries);
    forall e | e in AllFiles(v) + Elements(f.entries) ensures e in AllFiles(v') {
      if e in AllFiles(v) {
        var l :| 0 <= l < NUM_LEVELS && e in Contents(v[l]);
        assert e in Contents(v'[l]);
      } else {
        assert e in Contents(v'[level]);
      }
    }
    forall e | e in AllFiles(v') ensures e in AllFiles(v) + Elements(f.entries) {
      var l :| 0 <= l < NUM_LEVELS && e in Contents(v'[l]);
      assert e in Contents(v[l]) || e in Elements(f.entries);
    }
  }

  // ----- beside a running compaction -----

  /** A linked set of inputs leaves no gap for a table that misses each of them. */
  lemma LinkedLeavesNoGap(inputs: set<File>, f: File)
    requires Linked(inputs) && forall g :: g in inputs ==> Apart(f, g)
    ensures UserBeforeAll(f, inputs) || UserAfterAll(f, inputs)
  {
    FileBounds(f, f.entries[0]);
    assert Splits(inputs, Lo(f));
  }

  /** A table that overlaps none of the levels down to its own meets none of the inputs there. */
  lemma FlushMissesInputs(s: State, c: Running, f: File, level: nat)
    requires RunningOk(s, c) && c.level + 1 <= level < NUM_LEVELS && MayPlace(s.version, Lo(f), Hi(f), level)
    ensures forall g :: g in Inputs(c) ==> Apart(f, g)
  {
    assert NoneOverlaps(s.version[c.level], Lo(f), Hi(f)) && NoneOverlaps(s.version[c.level + 1], Lo(f), Hi(f));
    forall g | g in Inputs(c) ensures Apart(f, g) {
      assert g in FileSet(s.version[c.level]) || g in FileSet(s.version[c.level + 1]);
    }
  }

  /** So beside the linked inputs of an automatic compaction it lies wholly outside their range. */
  lemma FlushClearOfInputs(s: State, c: Running, f: File, level: nat)
    requires RunningOk(s, c) && c.level + 1 <= level < NUM_LEVELS && MayPlace(s.version, Lo(f), Hi(f), level)
    requires !c.manual
    ensures UserBeforeAll(f, Inputs(c)) || UserAfterAll(f, Inputs(c))
  {
    FlushMissesInputs(s, c, f, level);
    LinkedLeavesNoGap(Inputs(c), f);
  }

  /** A table that misses every input and is not among the kept entries is beside them. */
  lemma NotAmongIsBeside(c: Running, f: File)
    requires (forall g :: g in Inputs(c) ==> Apart(f, g)) && !Among(f, KeptBy(c))
    ensures Beside(f, KeptBy(c))
  {
    FileBounds(f, f.entries[0]);
    forall e | e in KeptBy(c) ensures e.key.user < Lo(f) || e.key.user > Hi(f) {
      var g :| g in Inputs(c) && e in g.entries;
      FileBounds(g, e);
      assert Apart(f, g);
    }
  }

  lemma ClearIsNotAmong(c: Running, f: File)
    requires UserBeforeAll(f, Inputs(c)) || UserAfterAll(f, Inputs(c))
    ensures !Among(f, KeptBy(c))
  {
    FileBounds(f, f.entries[0]);
    forall e | e in KeptBy(c) ensures if UserBeforeAll(f, Inputs(c)) then Hi(f) < e.key.user else e.key.user < Lo(f) {
      var g :| g in Inputs(c) && e in g.entries;
      FileBounds(g, e);
    }
  }

  lemma FlushKeepsRoom(s: State, s': State, f: File, level: nat, c: Running)
    requires RunningOk(s, c) && level < NUM_LEVELS && FlushTable(s, s', f, level)
    requires s.running == Some(c)
    ensures OutputRoom(s'.version[c.level + 1], Inputs(c), KeptBy(c))
    ensures NewcomersApart(s'.version, c.base, c.level, Inputs(c))
  {
    hide KeptBy, Linked, Among, Beside;
    SavedContents(s.version[level], {}, {f}, s'.version[level]);
    assert forall l, g :: 0 <= l < NUM_LEVELS && g in s'.version[l] ==> g in s.version[l] || (l == level && g == f);
    if level >= c.level + 1 {
      FlushMissesInputs(s, c, f, level);
      if level == c.level + 1 {
        if !c.manual {
          FlushClearOfInputs(s, c, f, level);
          ClearIsNotAmong(c, f);
        }
        NotAmongIsBeside(c, f);
      }
    }
  }

  lemma FlushKeepsRunning(s: State, s': State, f: File, level: nat)
    requires s.running.Some? && RunningOk(s, s.running.value) && level < NUM_LEVELS && f.number == s.nextFile
             && FlushTable(s, s', f, level)
    requires Newer(Elements(f.entries), AllFiles(s.version))
    ensures RunningOk(s', s.running.value)
  {
    hide Linked, Newer, AllFiles, Contents, NewerFile;
    var c := s.running.value;
    FlushKeepsOldest(s, s', f, level, c);
    FlushKeepsRoom(s, s', f, level, c);
    SavedContents(s.version[level], {}, {f}, s'.version[level]);
    assert forall l, g :: 0 <= l < NUM_LEVELS && g in s'.version[l] ==> g in s.version[l] || (l == level && g == f);
    assert c.in0 <= FileSet(s'.version[c.level]) by {
      assert forall g :: g in s.version[c.level] ==> g in s'.version[c.level];
    }
    assert c.in1 <= FileSet(s'.version[c.level + 1]) by {
      var before, after := s.version[c.level + 1], s'.version[c.level + 1];
      assert forall g :: g in before ==> g in after;
    }
  }

  lemma FlushKeepsOldest(s: State, s': State, f: File, level: nat, c: Running)
    requires RunningOk(s, c) && level < NUM_LEVELS && FlushTable(s, s', f, level)
    requires Newer(Elements(f.entries), AllFiles(s.version))
    ensures InputsOldest(s'.version, c.level, Inputs(c))
  {
    SavedContents(s.version[level], {}, {f}, s'.version[level]);
    forall l, h, g | 0 <= l <= c.level + 1 && l < NUM_LEVELS && h in s'.version[l] && h !in Inputs(c) && g in Inputs(c)
      ensures NewerFile(h, g)
    {
      if h in s.version[l] {
      } else {
        assert h == f;
        var m := if g in c.in0 then c.level else c.level + 1;
        assert g in FileSet(s.version[m]);
        assert forall e :: e in Elements(g.entries) ==> e in Contents(s.version[m]);
        assert forall e :: e in Elements(g.entries) ==> e in AllFiles(s.version);
      }
    }
  }

  lemma FlushKeepsMemory(s: State, s': State, level: nat, f: File)
    requires MemoryOk(s) && s.imm == Some(f.entries) && level < NUM_LEVELS && FlushTable(s, s', f, level)
    ensures Everything(s') == Everything(s) && MemoryOk(s')
  {
    FlushSameEntries(s.version, s'.version, level, f);
    assert ImmEntries(s'.imm) == {} && ImmEntries(s.imm) == Elements(f.entries);
    assert ImmEntries(s'.imm) + AllFiles(s'.version) == ImmEntries(s.imm) + AllFiles(s.version);
  }

  lemma FlushKeepsInv(s: State, s': State, level: nat, size: nat)
    requires Inv(s) && Flush(s, s', level, size)
    ensures Inv(s')
  {
    if s.imm.value == [] {
      assert Elements([]) == {};
      assert Everything(s') == Everything(s);
    } else {
      var f: File := FileData(s.nextFile, size, s.imm.value);
      FlushKeepsMemory(s, s', level, f);
      FlushWellFormed(s.version, s'.version, s.nextFile, level, f);
      FlushUniqueNumbers(s.version, s'.version, s.nextFile, level, f);
      if s.running.Some? { FlushKeepsRunning(s, s', f, level); }
    }
  }
}
