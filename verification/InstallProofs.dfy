/** Installing a compaction's outputs, and moving a file down, keep the invariant. */
module InstallProofs {
  import opened Sequences
  import opened Options
  import opened InternalKeys
  import opened Reads
  import opened Versions
  import opened Picking
  import opened VersionBuilder
  import opened Compacting
  import opened Machine
  import opened MachineProofs
  import opened FlushProofs

  // ----- the outputs as files -----

  lemma {:induction false} ConcatSorted(runs: seq<seq<Entry>>, i: nat, j: nat, x: Entry, y: Entry)
    requires StrictlySorted(Concat(runs)) && i < j < |runs| && x in runs[i] && y in runs[j]
    ensures Less(x.key, y.key)
  {
    var n := |runs| - 1;
    var init, all := runs[..n], Concat(runs);
    var prefix := Concat(init);
    assert all == prefix + runs[n] && init[i] == runs[i];
    if j == n {
      assert x in prefix by { ConcatMembers(init); }
      var p :| 0 <= p < |prefix| && prefix[p] == x;
      var q :| 0 <= q < |runs[n]| && runs[n][q] == y;
      assert all[p] == x && all[|prefix| + q] == y;
    } else {
      SortedSlice(all, 0, |prefix|);
      assert prefix == all[0..|prefix|];
      ConcatSorted(init, i, j, x, y);
    }
  }

  lemma OutputEntries(outputs: seq<File>, kept: seq<Entry>)
    requires Concat(EntryRuns(outputs)) == kept
    ensures FileEntries(FileSet(outputs)) == Elements(kept)
  {
    ConcatMembers(EntryRuns(outputs));
    var runs := EntryRuns(outputs);
    forall e | e in FileEntries(FileSet(outputs)) ensures e in Elements(kept) {
      var f :| f in FileSet(outputs) && e in f.entries;
      var i :| 0 <= i < |outputs| && outputs[i] == f;
      assert e in runs[i];
    }
    forall e | e in Elements(kept) ensures e in FileEntries(FileSet(outputs)) {
      var i :| 0 <= i < |runs| && e in runs[i];
      assert outputs[i] in FileSet(outputs);
    }
  }

  lemma OutputsSeparate(outputs: seq<File>, f: File, g: File)
    requires StrictlySorted(Concat(EntryRuns(outputs))) && f in outputs && g in outputs && f != g
    ensures Less(Largest(f), Smallest(g)) || Less(Largest(g), Smallest(f))
  {
    var runs := EntryRuns(outputs);
    var i :| 0 <= i < |outputs| && outputs[i] == f;
    var j :| 0 <= j < |outputs| && outputs[j] == g;
    if i < j {
      ConcatSorted(runs, i, j, f.entries[|f.entries| - 1], g.entries[0]);
    } else {
      ConcatSorted(runs, j, i, g.entries[|g.entries| - 1], f.entries[0]);
    }
  }

  // ----- which entries remain -----

  /** An input entry occurs nowhere else in the store. */
  lemma InputsNowhereElse(s: State, c: Running, l: nat, f: File, e: Entry)
    requires RunningOk(s, c) && LevelsLayered(s.version) && l < NUM_LEVELS && f in s.version[l] && f !in Inputs(c)
    requires e in f.entries
    ensures e !in FileEntries(Inputs(c))
  {
    forall g | g in Inputs(c) ensures e !in g.entries {
      if l <= c.level + 1 {
        assert NewerFile(f, g);
      } else {
        var m := if g in c.in0 then c.level else c.level + 1;
        assert g in FileSet(s.version[m]);
        LowerLevelNewer(s.version, m, g, l, f);
      }
      assert e in Elements(f.entries);
      assert e in g.entries <==> e in Elements(g.entries);
    }
  }

  /** Input files live only at the two levels compacted. */
  lemma InputsAtTheirLevel(s: State, c: Running, l: nat, f: File)
    requires RunningOk(s, c) && UniqueNumbers(s.version, s.nextFile) && l < NUM_LEVELS && f in s.version[l]
             && f in Inputs(c)
    ensures (l == c.level && f in c.in0) || (l == c.level + 1 && f in c.in1)
  {
    var m := if f in c.in0 then c.level else c.level + 1;
    assert f in FileSet(s.version[m]);
    assert NoClash(l, f, m, f);
  }

  // ----- the installed version -----

  /** An installed file is an output or an old file that was no input. */
  lemma InstalledFiles(s: State, s': State, input: seq<Entry>, outputs: seq<File>, l: nat, f: File)
    requires s.running.Some? && RunningOk(s, s.running.value) && UniqueNumbers(s.version, s.nextFile)
    requires InstallCompaction(s, s', input, outputs) && l < NUM_LEVELS
    ensures f in s'.version[l] <==>
      (f in s.version[l] && f !in Inputs(s.running.value)) || (l == s.running.value.level + 1 && f in outputs)
  {
    var c := s.running.value;
    SavedContents(s.version[c.level], c.in0, {}, s'.version[c.level]);
    SavedContents(s.version[c.level + 1], c.in1, FileSet(outputs), s'.version[c.level + 1]);
    if f in s.version[l] && f in Inputs(c) { InputsAtTheirLevel(s, c, l, f); }
  }

  lemma InstalledEntries(s: State, s': State, input: seq<Entry>, outputs: seq<File>)
    requires s.running.Some? && RunningOk(s, s.running.value) && UniqueNumbers(s.version, s.nextFile)
    requires LevelsLayered(s.version) && InstallCompaction(s, s', input, outputs)
    ensures var c := s.running.value;
            AllFiles(s'.version) == Remaining(AllFiles(s.version), input, c.smallest, c.base, c.level)
  {
    var c := s.running.value;
    var kept := Kept(input, c.smallest, c.base, c.level);
    var left := Remaining(AllFiles(s.version), input, c.smallest, c.base, c.level);
    OutputEntries(outputs, kept);
    forall e | e in AllFiles(s'.version) ensures e in left {
      var l :| 0 <= l < NUM_LEVELS && e in Contents(s'.version[l]);
      var f :| f in s'.version[l] && e in f.entries;
      InstalledFiles(s, s', input, outputs, l, f);
      if f in outputs {
        assert f in FileSet(outputs) && e in FileEntries(FileSet(outputs));
      } else {
        InputsNowhereElse(s, c, l, f, e);
        assert e in Contents(s.version[l]);
      }
    }
    forall e | e in left ensures e in AllFiles(s'.version) {
      RemainingInstalled(s, s', input, outputs, e);
    }
  }

  lemma RemainingInstalled(s: State, s': State, input: seq<Entry>, outputs: seq<File>, e: Entry)
    requires s.running.Some? && RunningOk(s, s.running.value) && UniqueNumbers(s.version, s.nextFile)
    requires InstallCompaction(s, s', input, outputs)
    requires var c := s.running.value; e in Remaining(AllFiles(s.version), input, c.smallest, c.base, c.level)
    ensures e in AllFiles(s'.version)
  {
    var c := s.running.value;
    var kept := Kept(input, c.smallest, c.base, c.level);
    OutputEntries(outputs, kept);
    if e in Elements(kept) {
      var f :| f in FileSet(outputs) && e in f.entries;
      InstalledFiles(s, s', input, outputs, c.level + 1, f);
      assert e in Contents(s'.version[c.level + 1]);
    } else {
      var l :| 0 <= l < NUM_LEVELS && e in Contents(s.version[l]);
      var f :| f in s.version[l] && e in f.entries;
      assert f !in Inputs(c);
      InstalledFiles(s, s', input, outputs, l, f);
      assert e in Contents(s'.version[l]);
    }
  }

  /** Every installed entry comes from the level it is in, or from the inputs. */
  lemma InstalledOrigin(s: State, s': State, input: seq<Entry>, outputs: seq<File>, l: nat, e: Entry)
    requires s.running.Some? && RunningOk(s, s.running.value) && UniqueNumbers(s.version, s.nextFile)
    requires InstallCompaction(s, s', input, outputs) && l < NUM_LEVELS && e in Contents(s'.version[l])
    ensures (exists f :: f in s.version[l] && f !in Inputs(s.running.value) && e in f.entries)
         || (l == s.running.value.level + 1 && e in FileEntries(Inputs(s.running.value)))
  {
    var c := s.running.value;
    var f :| f in s'.version[l] && e in f.entries;
    InstalledFiles(s, s', input, outputs, l, f);
    if f in outputs && !(f in s.version[l] && f !in Inputs(c)) {
      OutputEntries(outputs, Kept(input, c.smallest, c.base, c.level));
      assert f in FileSet(outputs) && e in FileEntries(FileSet(outputs));
      assert e in Elements(Kept(input, c.smallest, c.base, c.level));
      KeptMembers(input, c.smallest, c.base, c.level);
      assert e in Elements(input);
    }
  }

  lemma InstallLayers(s: State, s': State, input: seq<Entry>, outputs: seq<File>)
    requires s.running.Some? && RunningOk(s, s.running.value) && UniqueNumbers(s.version, s.nextFile)
    requires LevelsLayered(s.version) && InstallCompaction(s, s', input, outputs)
    ensures LevelsLayered(s'.version)
  {
    forall a, b | 0 <= a < b < NUM_LEVELS ensures Newer(Contents(s'.version[a]), Contents(s'.version[b])) {
      forall x, y | x in Contents(s'.version[a]) && y in Contents(s'.version[b]) && x.key.user == y.key.user
        ensures x.key.seqno > y.key.seqno
      {
        InstalledOrigin(s, s', input, outputs, a, x);
        InstalledOrigin(s, s', input, outputs, b, y);
        InstalledPair(s, s.running.value, a, x, b, y);
      }
    }
  }

  lemma InstalledPair(s: State, c: Running, a: nat, x: Entry, b: nat, y: Entry)
    requires RunningOk(s, c) && LevelsLayered(s.version) && a < b < NUM_LEVELS && x.key.user == y.key.user
    requires (exists f :: f in s.version[a] && f !in Inputs(c) && x in f.entries)
             || (a == c.level + 1 && x in FileEntries(Inputs(c)))
    requires (exists f :: f in s.version[b] && f !in Inputs(c) && y in f.entries)
             || (b == c.level + 1 && y in FileEntries(Inputs(c)))
    ensures x.key.seqno > y.key.seqno
  {
    if f, g :| f in s.version[a] && f !in Inputs(c) && x in f.entries && g in s.version[b] && y in g.entries {
      LowerLevelNewer(s.version, a, f, b, g);
      assert x in Elements(f.entries) && y in Elements(g.entries);
    } else if f :| f in s.version[a] && f !in Inputs(c) && x in f.entries {
      var g :| g in Inputs(c) && y in g.entries;
      assert NewerFile(f, g);
      assert x in Elements(f.entries) && y in Elements(g.entries);
    } else {
      var f :| f in Inputs(c) && x in f.entries;
      var g :| g in s.version[b] && y in g.entries;
      var m := if f in c.in0 then c.level else c.level + 1;
      assert f in FileSet(s.version[m]);
      LowerLevelNewer(s.version, m, f, b, g);
      assert x in Elements(f.entries) && y in Elements(g.entries);
    }
  }

  /** An output holds kept entries, so a file beside all of them is beside it. */
  lemma OutputBesideOld(outputs: seq<File>, kept: seq<Entry>, f: File, o: File)
    requires Concat(EntryRuns(outputs)) == kept && o in outputs && Beside(f, Elements(kept))
    ensures Less(Largest(f), Smallest(o)) || Less(Largest(o), Smallest(f))
  {
    OutputEntries(outputs, kept);
    var first, last := o.entries[0], o.entries[|o.entries| - 1];
    assert o in FileSet(outputs);
    assert first in o.entries && last in o.entries;
    assert first in FileEntries(FileSet(outputs)) && last in FileEntries(FileSet(outputs));
  }

  lemma InstalledOutputLevel(s: State, s': State, input: seq<Entry>, outputs: seq<File>)
    requires s.running.Some? && RunningOk(s, s.running.value) && UniqueNumbers(s.version, s.nextFile)
    requires SortedDisjoint(s.version[s.running.value.level + 1]) && InstallCompaction(s, s', input, outputs)
    ensures SortedDisjoint(s'.version[s.running.value.level + 1])
  {
    var c := s.running.value;
    var before, after := s.version[c.level + 1], s'.version[c.level + 1];
    var kept := Kept(input, c.smallest, c.base, c.level);
    KeptSorted(input, c.smallest, c.base, c.level);
    KeptIsSet(input, c.smallest, c.base, c.level);
    forall f, g | f in after && g in after && f != g
      ensures Less(Largest(f), Smallest(g)) || Less(Largest(g), Smallest(f)) {
      InstalledFiles(s, s', input, outputs, c.level + 1, f);
      InstalledFiles(s, s', input, outputs, c.level + 1, g);
      if f in outputs && g in outputs {
        OutputsSeparate(outputs, f, g);
      } else if f in outputs {
        OutputBesideOld(outputs, kept, g, f);
      } else if g in outputs {
        OutputBesideOld(outputs, kept, f, g);
      } else {
        SortedPair(before, f, g);
      }
    }
    SeparatedIsSorted(after);
  }

  lemma SubsetSorted(base: seq<File>, removed: set<File>, r: seq<File>)
    requires SortedDisjoint(base) && Saved(base, removed, {}, r)
    ensures SortedDisjoint(r)
  {
    SavedContents(base, removed, {}, r);
    forall f, g | f in r && g in r && f != g ensures Less(Largest(f), Smallest(g)) || Less(Largest(g), Smallest(f)) {
      SortedPair(base, f, g);
    }
    SeparatedIsSorted(r);
  }

  lemma SubsetAged(v: Version, nextFile: nat, removed: set<File>, r: seq<File>)
    requires AgedByNumber(v[0]) && UniqueNumbers(v, nextFile) && Saved(v[0], removed, {}, r)
    ensures AgedByNumber(r)
  {
    SavedContents(v[0], removed, {}, r);
    forall f, g | f in r && g in r && f.number == g.number ensures f == g { assert NoClash(0, f, 0, g); }
    OrderedNumbersDiffer(r);
  }

  lemma InstallWellFormed(s: State, s': State, input: seq<Entry>, outputs: seq<File>)
    requires Inv(s) && InstallCompaction(s, s', input, outputs)
    ensures WellFormed(s'.version) && OrderedBySmallest(s'.version[0])
  {
    var c := s.running.value;
    InstallLayers(s, s', input, outputs);
    InstalledOutputLevel(s, s', input, outputs);
    InstalledLevels(s.version, s'.version, s.nextFile, c.level, c.in0);
  }

  lemma InstalledLevels(v: Version, v': Version, nextFile: nat, level: nat, in0: set<File>)
    requires WellFormed(v) && OrderedBySmallest(v[0]) && UniqueNumbers(v, nextFile) && level + 1 < NUM_LEVELS
    requires v' == v[level := v'[level]][level + 1 := v'[level + 1]]
    requires Saved(v[level], in0, {}, v'[level]) && SortedDisjoint(v'[level + 1])
    ensures AgedByNumber(v'[0]) && OrderedBySmallest(v'[0]) && LevelsSorted(v')
  {
    if level == 0 {
      SubsetAged(v, nextFile, in0, v'[0]);
    } else {
      SubsetSorted(v[level], in0, v'[level]);
    }
  }

  lemma InstallUniqueNumbers(s: State, s': State, input: seq<Entry>, outputs: seq<File>)
    requires s.running.Some? && RunningOk(s, s.running.value) && UniqueNumbers(s.version, s.nextFile)
    requires InstallCompaction(s, s', input, outputs)
    ensures UniqueNumbers(s'.version, s'.nextFile)
  {
    var c := s.running.value;
    forall l, f | 0 <= l < NUM_LEVELS && f in s'.version[l] ensures f.number < s.nextFile {
      InstalledFiles(s, s', input, outputs, l, f);
    }
    forall l, m, f, g | 0 <= l < NUM_LEVELS && 0 <= m < NUM_LEVELS && f in s'.version[l] && g in s'.version[m]
      ensures NoClash(l, f, m, g) {
      InstalledFiles(s, s', input, outputs, l, f);
      InstalledFiles(s, s', input, outputs, m, g);
      NumbersApart(s, c, outputs, l, f, m, g);
    }
  }

  lemma NumbersApart(s: State, c: Running, outputs: seq<File>, l: nat, f: File, m: nat, g: File)
    requires RunningOk(s, c) && UniqueNumbers(s.version, s.nextFile) && l < NUM_LEVELS && m < NUM_LEVELS
    requires |outputs| == |c.numbers| && forall i :: 0 <= i < |outputs| ==> outputs[i].number == c.numbers[i]
    requires f in s.version[l] || (l == c.level + 1 && f in outputs)
    requires g in s.version[m] || (m == c.level + 1 && g in outputs)
    ensures NoClash(l, f, m, g)
  {
  }

  // ----- reads across an install -----

  lemma InputsOlderThanRest(s: State, c: Running, input: seq<Entry>)
    requires Inv(s) && s.running == Some(c) && Elements(input) == FileEntries(Inputs(c))
    ensures OlderLiesBelow(Everything(s), input, c.base, c.level)
  {
    forall x, e | x in Everything(s) && x !in input && e in input && x.key.user == e.key.user
        && x.key.seqno < e.key.seqno
      ensures !BaseLevel(c.base, c.level, x.key.user)
    {
      assert e in Elements(input);
      var g :| g in Inputs(c) && e in g.entries;
      InputIsStored(s, c, g, e);
      var l :| 0 <= l < NUM_LEVELS && x in Contents(s.version[l]);
      var f :| f in s.version[l] && x in f.entries;
      OlderFileBelow(s, c, l, f, x, g, e);
    }
  }

  lemma InputIsStored(s: State, c: Running, g: File, e: Entry)
    requires RunningOk(s, c) && g in Inputs(c) && e in g.entries
    ensures e in AllFiles(s.version)
  {
    var m := if g in c.in0 then c.level else c.level + 1;
    assert g in FileSet(s.version[m]);
    assert e in Contents(s.version[m]);
  }

  lemma OlderFileBelow(s: State, c: Running, l: nat, f: File, x: Entry, g: File, e: Entry)
    requires RunningOk(s, c) && l < NUM_LEVELS && f in s.version[l] && x in f.entries && g in Inputs(c)
             && e in g.entries
    requires x !in FileEntries(Inputs(c)) && x.key.user == e.key.user
    ensures x.key.seqno < e.key.seqno ==> !BaseLevel(c.base, c.level, x.key.user)
  {
    assert f !in Inputs(c);
    assert x in Elements(f.entries) && e in Elements(g.entries);
    FileBounds(f, x);
    FileBounds(g, e);
    if l <= c.level + 1 {
      assert NewerFile(f, g);
    } else if f in c.base[l] {
      var i :| 0 <= i < |c.base[l]| && c.base[l][i] == f;
      assert Covers(c.base[l][i], x.key.user);
    }
  }

  lemma InstalledEverything(s: State, s': State, input: seq<Entry>, outputs: seq<File>)
    requires Inv(s) && InstallCompaction(s, s', input, outputs)
    ensures var c := s.running.value;
            Everything(s') == Remaining(Everything(s), input, c.smallest, c.base, c.level)
  {
    var c := s.running.value;
    InstalledEntries(s, s', input, outputs);
    forall e | e in Elements(input) ensures e in AllFiles(s.version) {
      var g :| g in Inputs(c) && e in g.entries;
      InputIsStored(s, c, g, e);
    }
  }

  lemma InstallKeepsReads(s: State, s': State, input: seq<Entry>, outputs: seq<File>)
    requires Inv(s) && InstallCompaction(s, s', input, outputs)
    ensures ReadsRight(s'.history, Everything(s'), s'.horizon) && AllWritten(s'.history, Everything(s'))
  {
    var c := s.running.value;
    InstalledEverything(s, s', input, outputs);
    InputsOlderThanRest(s, c, input);
    KeptMembers(input, c.smallest, c.base, c.level);
    forall e | e in Elements(input) ensures e in Everything(s) {
      var g :| g in Inputs(c) && e in g.entries;
      InputIsStored(s, c, g, e);
    }
    forall user, snapshot | s'.horizon <= snapshot
      ensures Answers(Everything(s'), user, snapshot, Replay(s.history, user, snapshot))
    {
      DropPreservesReads(s.history, Everything(s), input, c.smallest, c.base, c.level, user, snapshot,
                         Replay(s.history, user, snapshot));
    }
  }

  lemma InstallKeepsInv(s: State, s': State, input: seq<Entry>, outputs: seq<File>)
    requires Inv(s) && InstallCompaction(s, s', input, outputs)
    ensures Inv(s')
  {
    InstallWellFormed(s, s', input, outputs);
    InstallUniqueNumbers(s, s', input, outputs);
    InstallKeepsReads(s, s', input, outputs);
    InstallKeepsMemory(s, s', input, outputs);
  }

  lemma InstallKeepsMemory(s: State, s': State, input: seq<Entry>, outputs: seq<File>)
    requires Inv(s) && InstallCompaction(s, s', input, outputs)
    ensures MemoryOk(s')
  {
    var c := s.running.value;
    InstalledEntries(s, s', input, outputs);
    KeptMembers(input, c.smallest, c.base, c.level);
    forall e | e in Elements(input) ensures e in AllFiles(s.version) {
      var g :| g in Inputs(c) && e in g.entries;
      InputIsStored(s, c, g, e);
    }
    assert AllFiles(s'.version) <= AllFiles(s.version);
  }
}
