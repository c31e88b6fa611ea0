/** The compaction loop and its drop rules
    (leveldb/db/db_impl.cc DoCompactionWork, leveldb/db/version_set.cc IsBaseLevelForKey). */
module Compacting {
  import opened Sequences
  import opened Options
  import opened InternalKeys
  import opened Reads
  import opened Versions

  // ----- what may be dropped -----

  predicate Covers(f: File, user: UserKey) {
    Lo(f) <= user <= Hi(f)
  }

  /** No file below the output level has the key in its range. */
  ghost predicate BaseLevel(v: Version, level: nat, user: UserKey) {
    forall l, i :: level + 2 <= l < NUM_LEVELS && 0 <= i < |v[l]| ==> !Covers(v[l][i], user)
  }

  /** Rule (A): the entry before it, of the same key, is already visible to every snapshot. */
  ghost predicate Shadowed(input: seq<Entry>, i: nat, smallest: SeqNo)
    requires i < |input|
  {
    i > 0 && input[i - 1].key.user == input[i].key.user && input[i - 1].key.seqno <= smallest
  }

  /** A deletion marker with nothing left to hide. */
  ghost predicate Obsolete(e: Entry, smallest: SeqNo, v: Version, level: nat) {
    e.key.kind.Deletion? && e.key.seqno <= smallest && BaseLevel(v, level, e.key.user)
  }

  ghost predicate Dropped(input: seq<Entry>, i: nat, smallest: SeqNo, v: Version, level: nat)
    requires i < |input|
  {
    Shadowed(input, i, smallest) || Obsolete(input[i], smallest, v, level)
  }

  ghost function Kept(input: seq<Entry>, smallest: SeqNo, v: Version, level: nat): seq<Entry> {
    if input == [] then []
    else
      var n := |input| - 1;
      Kept(input[..n], smallest, v, level) + (if Dropped(input, n, smallest, v, level) then [] else [input[n]])
  }

  lemma {:induction false} KeptMembers(input: seq<Entry>, smallest: SeqNo, v: Version, level: nat)
    ensures forall e :: e in Kept(input, smallest, v, level) <==>
              exists i :: 0 <= i < |input| && input[i] == e && !Dropped(input, i, smallest, v, level)
  {
    if input != [] {
      var n := |input| - 1;
      KeptMembers(input[..n], smallest, v, level);
      assert forall i :: 0 <= i < n ==>
        (Dropped(input[..n], i, smallest, v, level) <==> Dropped(input, i, smallest, v, level));
      assert forall i :: 0 <= i < n ==> input[..n][i] == input[i];
    }
  }

  lemma {:induction false} KeptSorted(input: seq<Entry>, smallest: SeqNo, v: Version, level: nat)
    requires StrictlySorted(input)
    ensures StrictlySorted(Kept(input, smallest, v, level))
  {
    if input != [] {
      var n := |input| - 1;
      KeptSorted(input[..n], smallest, v, level);
      KeptMembers(input[..n], smallest, v, level);
      var init := Kept(input[..n], smallest, v, level);
      forall i | 0 <= i < |init| ensures Less(init[i].key, input[n].key) {
        assert init[i] in init;
      }
    }
  }

  /** Rule (A) told by the set of input entries: a newer one of the same key is visible to every snapshot. */
  ghost predicate ShadowedIn(entries: set<Entry>, e: Entry, smallest: SeqNo) {
    exists x :: x in entries && x.key.user == e.key.user && Less(x.key, e.key) && x.key.seqno <= smallest
  }

  /** What is kept of a set of input entries. */
  ghost function KeptSet(entries: set<Entry>, smallest: SeqNo, v: Version, level: nat): set<Entry> {
    set e | e in entries && !ShadowedIn(entries, e, smallest) && !Obsolete(e, smallest, v, level)
  }

  lemma ShadowedBySet(input: seq<Entry>, i: nat, smallest: SeqNo)
    requires StrictlySorted(input) && i < |input|
    ensures Shadowed(input, i, smallest) <==> ShadowedIn(Elements(input), input[i], smallest)
  {
    if Shadowed(input, i, smallest) {
      assert input[i - 1] in Elements(input) && Less(input[i - 1].key, input[i].key);
    }
    if ShadowedIn(Elements(input), input[i], smallest) {
      var x :| x in Elements(input) && x.key.user == input[i].key.user && Less(x.key, input[i].key)
          && x.key.seqno <= smallest;
      var j :| 0 <= j < |input| && input[j] == x;
      assert i <= j ==> i == j || Less(input[i].key, input[j].key);
      OlderAreShadowed(input, j, i, smallest);
    }
  }

  /** The kept entries depend only on which entries the inputs hold. */
  lemma KeptIsSet(input: seq<Entry>, smallest: SeqNo, v: Version, level: nat)
    requires StrictlySorted(input)
    ensures Elements(Kept(input, smallest, v, level)) == KeptSet(Elements(input), smallest, v, level)
  {
    KeptMembers(input, smallest, v, level);
    forall i | 0 <= i < |input|
      ensures Dropped(input, i, smallest, v, level) <==>
              ShadowedIn(Elements(input), input[i], smallest) || Obsolete(input[i], smallest, v, level)
    {
      ShadowedBySet(input, i, smallest);
    }
    hide Obsolete, ShadowedIn, Dropped;
  }

  // ----- dropping does not change any read -----

  /** Once a deletion marker is obsolete, rule (A) drops every older input entry of its key. */
  lemma OlderAreShadowed(input: seq<Entry>, i: nat, j: nat, smallest: SeqNo)
    requires StrictlySorted(input) && i < j < |input|
    requires input[i].key.user == input[j].key.user && input[i].key.seqno <= smallest
    ensures Shadowed(input, j, smallest)
  {
  }

  /** Entries outside the inputs that are older than an input entry of their key
      lie below the output level. */
  ghost predicate OlderLiesBelow(entries: set<Entry>, input: seq<Entry>, v: Version, level: nat) {
    forall x, e :: x in entries && x !in input && e in input && x.key.user == e.key.user && x.key.seqno < e.key.seqno
      ==> !BaseLevel(v, level, x.key.user)
  }

  ghost function Remaining(entries: set<Entry>, input: seq<Entry>, smallest: SeqNo, v: Version,
                           level: nat): set<Entry> {
    (entries - Elements(input)) + Elements(Kept(input, smallest, v, level))
  }

  lemma NothingBehindObsolete(entries: set<Entry>, input: seq<Entry>, smallest: SeqNo, v: Version, level: nat, n: nat,
                              x: Entry)
    requires StrictlySorted(input) && OlderLiesBelow(entries, input, v, level)
    requires n < |input| && Obsolete(input[n], smallest, v, level)
    requires x in Remaining(entries, input, smallest, v, level) && x.key.user == input[n].key.user
    ensures x.key.seqno >= input[n].key.seqno
  {
    KeptMembers(input, smallest, v, level);
    if x in Kept(input, smallest, v, level) {
      var j :| 0 <= j < |input| && input[j] == x && !Dropped(input, j, smallest, v, level);
      if n < j { OlderAreShadowed(input, n, j, smallest); }
    } else {
      assert input[n] in input;
    }
  }

  /** If the newest visible entry is dropped, it is an obsolete marker. */
  lemma DroppedTopIsObsolete(history: seq<Entry>, entries: set<Entry>, input: seq<Entry>, smallest: SeqNo, v: Version,
                             level: nat,
                             user: UserKey, snapshot: nat, n: nat)
    requires AllWritten(history, entries) && Elements(input) <= entries && StrictlySorted(input)
    requires smallest <= snapshot && n < |input| && Top(entries, user, snapshot, input[n])
    requires Dropped(input, n, smallest, v, level)
    ensures Obsolete(input[n], smallest, v, level)
  {
  }

  lemma DropsWholeKey(history: seq<Entry>, entries: set<Entry>, input: seq<Entry>, smallest: SeqNo, v: Version,
                      level: nat,
                      user: UserKey, snapshot: nat, t: Entry)
    requires AllWritten(history, entries) && Elements(input) <= entries
    requires StrictlySorted(input) && OlderLiesBelow(entries, input, v, level)
    requires smallest <= snapshot && Top(entries, user, snapshot, t)
    requires t !in Remaining(entries, input, smallest, v, level)
    ensures t.key.kind.Deletion? && Hidden(Remaining(entries, input, smallest, v, level), user, snapshot)
  {
    var left := Remaining(entries, input, smallest, v, level);
    KeptMembers(input, smallest, v, level);
    assert t in Elements(input);
    var n :| 0 <= n < |input| && input[n] == t;
    DroppedTopIsObsolete(history, entries, input, smallest, v, level, user, snapshot, n);
    forall x | x in left && x.key.user == user ensures x.key.seqno > snapshot {
      NothingBehindObsolete(entries, input, smallest, v, level, n, x);
      assert x in entries && Written(history, x) && Written(history, t);
    }
  }

  /** Compaction preserves reads: for every key and every snapshot not older than the
      smallest one, dropping shadowed entries and obsolete markers leaves the answer as it was. */
  lemma DropPreservesReads(history: seq<Entry>, entries: set<Entry>, input: seq<Entry>, smallest: SeqNo, v: Version,
                           level: nat,
                           user: UserKey, snapshot: nat, r: Option<string>)
    requires AllWritten(history, entries) && Elements(input) <= entries
    requires StrictlySorted(input) && OlderLiesBelow(entries, input, v, level)
    requires smallest <= snapshot && Answers(entries, user, snapshot, r)
    ensures Answers(Remaining(entries, input, smallest, v, level), user, snapshot, r)
  {
    var left := Remaining(entries, input, smallest, v, level);
    KeptMembers(input, smallest, v, level);
    assert left <= entries;
    if t :| Top(entries, user, snapshot, t) {
      TopAnswers(history, entries, user, snapshot, t);
      AnswerUnique(history, entries, user, snapshot, r, if t.key.kind.Value? then Some(t.value) else None);
      if t in left {
        assert Top(left, user, snapshot, t);
        TopAnswers(history, left, user, snapshot, t);
      } else {
        DropsWholeKey(history, entries, input, smallest, v, level, user, snapshot, t);
      }
    } else {
      NoTopAnywhere(entries, left, user, snapshot);
    }
  }

  lemma NoTopAnywhere(entries: set<Entry>, left: set<Entry>, user: UserKey, snapshot: nat)
    requires left <= entries && !exists t :: Top(entries, user, snapshot, t)
    ensures forall t :: !Top(left, user, snapshot, t)
  {
    forall t | Top(left, user, snapshot, t) ensures false {
      TopExists(entries, user, snapshot, t);
    }
  }

  // ----- the compaction object -----

  /** The finished outputs and the open one after the whole input: an output is closed before an entry that
      stopBefore names, and after a kept entry that fills it. */
  ghost function Cuts(input: seq<Entry>, smallest: SeqNo, v: Version, level: nat, stopBefore: nat -> bool,
                      full: nat -> bool)
    : (seq<seq<Entry>>, seq<Entry>)
  {
    if input == [] then ([], [])
    else
      var n := |input| - 1;
      var (done, open) := Cuts(input[..n], smallest, v, level, stopBefore, full);
      var (done', open') := if stopBefore(n) && open != [] then (done + [open], []) else (done, open);
      if Dropped(input, n, smallest, v, level) then (done', open')
      else if full(n) then (done' + [open' + [input[n]]], [])
      else (done', open' + [input[n]])
  }

  ghost function Outputs(input: seq<Entry>, smallest: SeqNo, v: Version, level: nat, stopBefore: nat -> bool,
                         full: nat -> bool)
    : seq<seq<Entry>>
  {
    var (done, open) := Cuts(input, smallest, v, level, stopBefore, full);
    if open == [] then done else done + [open]
  }

  /** When nothing asks for a cut, all that is kept goes to one output. */
  lemma {:induction false} NeverCut(input: seq<Entry>, smallest: SeqNo, v: Version, level: nat,
                                    stopBefore: nat -> bool, full: nat -> bool)
    requires forall i: nat :: !stopBefore(i) && !full(i)
    ensures Cuts(input, smallest, v, level, stopBefore, full) == ([], Kept(input, smallest, v, level))
  {
    if input != [] {
      var init := input[..|input| - 1];
      NeverCut(init, smallest, v, level, stopBefore, full);
      assert Kept(init, smallest, v, level) + [] == Kept(init, smallest, v, level);
    }
  }

  lemma CutsStep(input: seq<Entry>, i: nat, smallest: SeqNo, v: Version, level: nat, stopBefore: nat -> bool,
                 full: nat -> bool)
    requires i < |input|
    ensures var (done, open) := Cuts(input[..i], smallest, v, level, stopBefore, full);
            var (done', open') := if stopBefore(i) && open != [] then (done + [open], []) else (done, open);
            Cuts(input[..i + 1], smallest, v, level, stopBefore, full) ==
            if Dropped(input, i, smallest, v, level) then (done', open')
            else if full(i) then (done' + [open' + [input[i]]], [])
            else (done', open' + [input[i]])
  {
    assert input[..i + 1][..i] == input[..i];
  }

  class Compaction {
    const level: nat
    const inputVersion: Version
    const levelPtrs: array<nat>

    constructor (level: nat, inputVersion: Version)
      requires level + 1 < NUM_LEVELS
      ensures this.level == level && this.inputVersion == inputVersion
      ensures fresh(levelPtrs) && levelPtrs.Length == NUM_LEVELS
      ensures forall user :: PointersBehind(user)
    {
      this.level := level;
      this.inputVersion := inputVersion;
      levelPtrs := new nat[NUM_LEVELS](_ => 0);
    }

    /** The pointers have only passed files that end before the key. */
    ghost predicate PointersBehind(user: UserKey)
      reads levelPtrs
    {
      && levelPtrs.Length == NUM_LEVELS
      && (forall l :: 0 <= l < NUM_LEVELS ==> levelPtrs[l] <= |inputVersion[l]|)
      && (forall l, i :: 0 <= l < NUM_LEVELS && 0 <= i < levelPtrs[l] ==> Hi(inputVersion[l][i]) < user)
    }

    /** IsBaseLevelForKey: asked about ascending keys, the one-way pointers give
        the answer a search of all deeper files would. */
    method IsBaseLevelForKey(user: UserKey) returns (b: bool)
      requires PointersBehind(user) && forall l :: 1 <= l < NUM_LEVELS ==> SortedDisjoint(inputVersion[l])
      modifies levelPtrs
      ensures PointersBehind(user)
      ensures b <==> BaseLevel(inputVersion, level, user)
    {
      var lvl := level + 2;
      while lvl < NUM_LEVELS
        invariant PointersBehind(user)
        invariant level + 2 <= lvl
        invariant forall l, i :: level + 2 <= l < lvl && l < NUM_LEVELS && 0 <= i < |inputVersion[l]| ==>
                    !Covers(inputVersion[l][i], user)
      {
        var files := inputVersion[lvl];
        while levelPtrs[lvl] < |files|
          invariant PointersBehind(user)
          invariant levelPtrs[lvl] <= |files|
          decreases |files| - levelPtrs[lvl]
        {
          var f := files[levelPtrs[lvl]];
          if user <= Hi(f) {
            if user >= Lo(f) {
              assert Covers(inputVersion[lvl][levelPtrs[lvl]], user);
              return false;
            }
            break;
          }
          levelPtrs[lvl] := levelPtrs[lvl] + 1;
        }
        forall i | 0 <= i < |files| ensures !Covers(files[i], user) {
          if i > levelPtrs[lvl] {
            LargestAscends(files, levelPtrs[lvl], i);
            FileBounds(files[levelPtrs[lvl]], files[levelPtrs[lvl]].entries[0]);
          }
        }
        lvl := lvl + 1;
      }
      return true;
    }

    /** The drop decision for one entry, given the sequence number of the entry before it. */
    method ShouldDrop(key: IKey, lastSequenceForKey: SeqNo, smallest: SeqNo) returns (drop: bool)
      requires PointersBehind(key.user) && forall l :: 1 <= l < NUM_LEVELS ==> SortedDisjoint(inputVersion[l])
      modifies levelPtrs
      ensures PointersBehind(key.user)
      ensures drop <==> || lastSequenceForKey <= smallest
                        || (key.kind.Deletion? && key.seqno <= smallest && BaseLevel(inputVersion, level, key.user))
    {
      drop := false;
      if lastSequenceForKey <= smallest {
        drop := true;
      } else if key.kind.Deletion? && key.seqno <= smallest {
        drop := IsBaseLevelForKey(key.user);
      }
    }

    static method AddToOutput(outputs: seq<seq<Entry>>, builder: seq<Entry>, e: Entry, full: bool)
      returns (outputs': seq<seq<Entry>>, builder': seq<Entry>)
      requires forall o :: o in outputs ==> o != []
      ensures (outputs', builder') == if full then (outputs + [builder + [e]], []) else (outputs, builder + [e])
      ensures Concat(outputs') + builder' == Concat(outputs) + builder + [e]
      ensures forall o :: o in outputs' ==> o != []
    {
      outputs', builder' := outputs, builder + [e];
      if full {
        FinishOutput(outputs, builder + [e]);
        outputs', builder' := outputs + [builder + [e]], [];
      }
    }

    /** DoCompactionWork: walk the merged input, drop, and cut the rest into files.
        stopBefore and full stand for ShouldStopBefore and the output size test. */
    method DoCompactionWork(input: seq<Entry>, smallest: SeqNo, stopBefore: nat -> bool, full: nat -> bool)
      returns (outputs: seq<seq<Entry>>)
      requires StrictlySorted(input) && smallest < MAX_SEQUENCE
      requires input != [] ==> PointersBehind(input[0].key.user)
      requires forall l :: 1 <= l < NUM_LEVELS ==> SortedDisjoint(inputVersion[l])
      modifies levelPtrs
      ensures outputs == Outputs(input, smallest, inputVersion, level, stopBefore, full)
      ensures Concat(outputs) == Kept(input, smallest, inputVersion, level)
      ensures forall o :: o in outputs ==> o != []
    {
      hide Covers, Less, Cuts;
      NoCuts(smallest, inputVersion, level, stopBefore, full);
      outputs := [];
      var builder: seq<Entry> := [];
      var currentUserKey: Option<UserKey> := None;
      var lastSequenceForKey: SeqNo := MAX_SEQUENCE;
      for i := 0 to |input|
        invariant (outputs, builder) == Cuts(input[..i], smallest, inputVersion, level, stopBefore, full)
        invariant Concat(outputs) + builder == Kept(input[..i], smallest, inputVersion, level)
        invariant forall o :: o in outputs ==> o != []
        invariant currentUserKey.Some? <==> i > 0
        invariant i > 0 ==>
                    currentUserKey.value == input[i - 1].key.user && lastSequenceForKey == input[i - 1].key.seqno
        invariant i < |input| ==> PointersBehind(input[i].key.user)
      {
        CutsStep(input, i, smallest, inputVersion, level, stopBefore, full);
        if stopBefore(i) && builder != [] {
          FinishOutput(outputs, builder);
          outputs, builder := outputs + [builder], [];
        }
        var key := input[i].key;
        if currentUserKey.None? || key.user != currentUserKey.value {
          currentUserKey := Some(key.user);
          lastSequenceForKey := MAX_SEQUENCE;
        }
        var drop := ShouldDrop(key, lastSequenceForKey, smallest);
        assert drop <==> Dropped(input, i, smallest, inputVersion, level);
        lastSequenceForKey := key.seqno;
        KeptStep(input, i, smallest, inputVersion, level);
        if !drop {
          outputs, builder := AddToOutput(outputs, builder, input[i], full(i));
        }
        if i + 1 < |input| { PointersMonotone(input, i); }
      }
      if builder != [] {
        FinishOutput(outputs, builder);
        outputs := outputs + [builder];
      }
      assert input[..|input|] == input;
    }

    lemma PointersMonotone(input: seq<Entry>, i: nat)
      requires StrictlySorted(input) && i + 1 < |input| && PointersBehind(input[i].key.user)
      ensures PointersBehind(input[i + 1].key.user)
    {
    }
  }

  lemma NoCuts(smallest: SeqNo, v: Version, level: nat, stopBefore: nat -> bool, full: nat -> bool)
    ensures Cuts([], smallest, v, level, stopBefore, full) == ([], [])
  {
  }

  lemma FinishOutput(outputs: seq<seq<Entry>>, builder: seq<Entry>)
    ensures Concat(outputs + [builder]) == Concat(outputs) + builder == Concat(outputs + [builder]) + []
  {
  }

  lemma KeptStep(input: seq<Entry>, i: nat, smallest: SeqNo, v: Version, level: nat)
    requires i < |input|
    ensures Kept(input[..i + 1], smallest, v, level)
         == Kept(input[..i], smallest, v, level) + (if Dropped(input, i, smallest, v, level) then [] else [input[i]])
  {
    assert input[..i + 1][..i] == input[..i];
  }
}
