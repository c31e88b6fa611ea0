/** Every step of the store keeps its invariant; hence every run does, and in
    every reachable state a read equals the replay of the history. */
module MachineProofs {
  import opened InternalKeys
  import opened Reads
  import opened Versions
  import opened Picking
  import opened Machine

  // ----- writes and memtable switches -----

  lemma AppendRead(history: seq<Entry>, entries: set<Entry>, e: Entry, user: UserKey, snapshot: nat)
    requires AllWritten(history, entries) && e.key.seqno == |history| + 1
    requires Answers(entries, user, snapshot, Replay(history, user, snapshot))
    ensures Answers(entries + {e}, user, snapshot, Replay(history + [e], user, snapshot))
  {
  }

  lemma AppendWritten(history: seq<Entry>, entries: set<Entry>, e: Entry)
    requires AllWritten(history, entries) && e.key.seqno == |history| + 1
    ensures AllWritten(history + [e], entries + {e})
  {
  }

  lemma WriteKeepsInv(s: State, s': State, op: Op)
    requires Inv(s) && Write(s, s', op)
    ensures Inv(s')
  {
    var e := Stamp(op, |s.history| + 1);
    var before, after := Everything(s), Everything(s');
    assert after == before + {e};
    AppendWritten(s.history, before, e);
    forall user, snapshot | s.horizon <= snapshot
      ensures Answers(after, user, snapshot, Replay(s'.history, user, snapshot))
    {
      AppendRead(s.history, before, e, user, snapshot);
    }
    WriteKeepsMemory(s, s', e);
  }

  lemma WriteKeepsMemory(s: State, s': State, e: Entry)
    requires MemoryOk(s) && AllWritten(s.history, Everything(s)) && e.key.seqno == |s.history| + 1
    requires s'.imm == s.imm && s'.version == s.version && StrictlySorted(s'.mem)
             && Elements(s'.mem) == Elements(s.mem) + {e}
    ensures MemoryOk(s')
  {
  }

  lemma SwitchKeepsInv(s: State, s': State)
    requires Inv(s) && SwitchMemTable(s, s')
    ensures Inv(s')
  {
    assert Everything(s') == Everything(s);
    assert Elements([]) == {};
  }

  // ----- snapshots and bookkeeping -----

  lemma SnapshotKeepsInv(s: State, s': State, x: nat)
    requires Inv(s) && (GetSnapshot(s, s') || ReleaseSnapshot(s, s', x))
    ensures Inv(s')
  {
  }

  lemma AbandonKeepsInv(s: State, s': State)
    requires Inv(s) && AbandonCompaction(s, s')
    ensures Inv(s')
  {
  }

  lemma OpenOutputKeepsInv(s: State, s': State)
    requires Inv(s) && OpenOutput(s, s')
    ensures Inv(s')
  {
    assert Everything(s') == Everything(s);
    var c, c' := s.running.value, s'.running.value;
    assert Inputs(c') == Inputs(c);
    forall i, j | 0 <= i < j < |c'.numbers| ensures c'.numbers[i] != c'.numbers[j] { }
  }

  // ----- starting a compaction -----

  lemma ChosenInputsOldest(s: State, level: nat, in0: set<File>, in1: set<File>)
    requires Inv(s) && Chosen(s.version, level, in0, in1)
    ensures InputsOldest(s.version, level, in0 + in1)
  {
    forall l, f, g | 0 <= l <= level + 1 && l < NUM_LEVELS && f in s.version[l] && f !in in0 + in1 && g in in0 + in1
      ensures NewerFile(f, g)
    {
      if g in in0 {
        assert g in s.version[level];
        OutsiderNewer(s, level, in0, in1, l, f, level, g);
      } else {
        assert g in s.version[level + 1];
        OutsiderNewer(s, level, in0, in1, l, f, level + 1, g);
      }
    }
  }

  lemma OutsiderNewer(s: State, level: nat, in0: set<File>, in1: set<File>, l: nat, f: File, m: nat, g: File)
    requires AllWritten(s.history, Everything(s)) && LevelsLayered(s.version) && Chosen(s.version, level, in0, in1)
    requires l <= level + 1 && f in s.version[l] && f !in in0 + in1
    requires (m == level && g in in0) || (m == level + 1 && g in in1)
    ensures NewerFile(f, g)
  {
    hide AllWritten, LevelsLayered, Everything, NewerFile;
    if l < m {
      LowerLevelNewer(s.version, l, f, m, g);
    } else if l == m {
      if level == 0 && m == 0 {
        ApartNewer(f, g);
      } else if m == level {
        if UserAfterAll(f, in0) { ApartNewer(f, g); } else { BeforeNewer(s, l, f, m, g); }
      } else {
        assert ClearOf(f, in0, in1);
        if UserAfterAll(f, in1) { ApartNewer(f, g); } else { BeforeNewer(s, l, f, m, g); }
      }
    } else {
      assert ClearOf(f, in0, in1);
      ApartNewer(f, g);
    }
  }

  lemma LowerLevelNewer(v: Version, l: nat, f: File, m: nat, g: File)
    requires LevelsLayered(v) && l < m < NUM_LEVELS && f in v[l] && g in v[m]
    ensures NewerFile(f, g)
  {
  }

  lemma ApartNewer(f: File, g: File)
    requires Apart(f, g)
    ensures NewerFile(f, g)
  {
  }

  /** In internal-key order, what comes first of a user key is newer. */
  lemma BeforeNewer(s: State, l: nat, f: File, m: nat, g: File)
    requires AllWritten(s.history, Everything(s)) && l < NUM_LEVELS && m < NUM_LEVELS && f in s.version[l]
             && g in s.version[m]
    requires Less(Largest(f), Smallest(g))
    ensures NewerFile(f, g)
  {
    forall x, y | x in Elements(f.entries) && y in Elements(g.entries) && x.key.user == y.key.user
      ensures x.key.seqno > y.key.seqno {
      FileBounds(f, x);
      FileBounds(g, y);
      assert x in Contents(s.version[l]) && y in Contents(s.version[m]);
      assert x in Everything(s) && y in Everything(s);
      assert Written(s.history, x) && Written(s.history, y);
    }
  }
}
