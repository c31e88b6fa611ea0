/** A flush beside a manual compaction (leveldb/db/db_impl.cc:951-961, leveldb/db/version_set.cc:1448-1479): when it
    can spoil the output level, when such a flush exists, and a run in which it happens. */
module ManualGap {
  import opened Sequences
  import opened Options
  import opened InternalKeys
  import opened Reads
  import opened Versions
  import opened Picking
  import opened VersionBuilder
  import opened Compacting
  import opened Machine
  import opened MachineProofs
  import opened FlushProofs
  import opened InstallProofs
  import opened Runs
  import opened Manifest
  import opened MergingIterators
  import opened Background

  // ----- when the output level ends up overlapping -----

  /** k more outputs are opened and all are installed, and the output level is then no longer sorted and disjoint. */
  ghost predicate Spoils(s: State, k: nat, s': State, input: seq<Entry>, outputs: seq<File>)
    requires s.running.Some? && s.running.value.level + 1 < NUM_LEVELS
  {
    && Next(Opened(s, k), s', DoInstall(input, outputs))
    && !SortedDisjoint(s'.version[s.running.value.level + 1])
  }

  /** Some output reaches from before the table to after it. */
  ghost predicate Spanned(f: File, outputs: seq<File>) {
    exists o :: o in outputs && Lo(o) < Lo(f) && Hi(f) < Hi(o)
  }

  lemma SpanOverlaps(f: File, o: File, r: seq<File>)
    requires Lo(o) < Lo(f) && Hi(f) < Hi(o) && f in r && o in r
    ensures !SortedDisjoint(r)
  {
    if SortedDisjoint(r) { SortedPair(r, f, o); }
  }

  /** What the output level holds after the table was placed there and the compaction installed. */
  lemma LevelAfter(s: State, s1: State, c: Running, f: File, k: nat, s': State, input: seq<Entry>, outputs: seq<File>)
    requires Inv(s) && s.running == Some(c) && f.number == s.nextFile && c.level + 1 < NUM_LEVELS
    requires PlaceTable(s, s1, f, c.level + 1) && Next(Opened(s1, k), s', DoInstall(input, outputs))
    ensures OrderedBySmallest(s'.version[c.level + 1]) && f in s'.version[c.level + 1]
    ensures forall g :: g in s'.version[c.level + 1] <==>
              (g in s.version[c.level + 1] && g !in c.in1) || g == f || g in outputs
  {
    hide Inv, Kept, Opened, OrderedBySmallest, MayPlace;
    OpenedIs(s1, k);
    InputsInVersion(s, c);
    NumberIdentifies(s, c.level + 1);
    SavedContents(s.version[c.level + 1], {}, {f}, s1.version[c.level + 1]);
    SavedContents(s1.version[c.level + 1], c.in1, FileSet(outputs), s'.version[c.level + 1]);
  }

  /** A file that the inputs leave alone is beside what will be written. */
  lemma OldBeside(s: State, c: Running, g: File)
    requires Inv(s) && s.running == Some(c) && c.level + 1 < NUM_LEVELS
    requires g in s.version[c.level + 1] && g !in c.in1
    ensures Beside(g, KeptBy(c))
  {
    hide Kept, KeptSet, Less, ReadsRight, Linked, InputsOldest, NewcomersApart, Beside;
    assert g in c.in0 ==> g in s.version[c.level];
    assert g in s.version[c.level] ==> NoClash(c.level, g, c.level + 1, g);
  }

  /** A file that the inputs leave alone is apart from the new table and from every output. */
  lemma OldApart(s: State, c: Running, f: File, g: File, input: seq<Entry>, outputs: seq<File>)
    requires Inv(s) && s.running == Some(c) && c.level + 1 < NUM_LEVELS
    requires MayPlace(s.version, Lo(f), Hi(f), c.level + 1)
    requires g in s.version[c.level + 1] && g !in c.in1
    requires StrictlySorted(input) && Elements(input) == FileEntries(Inputs(c))
    requires Concat(EntryRuns(outputs)) == Kept(input, c.smallest, c.base, c.level)
    ensures Apart(f, g)
    ensures forall o :: o in outputs ==> Less(Largest(g), Smallest(o)) || Less(Largest(o), Smallest(g))
  {
    OldBeside(s, c, g);
    hide Inv, Kept, KeptSet, Less, Beside;
    assert NoneOverlaps(s.version[c.level + 1], Lo(f), Hi(f));
    KeptIsSet(input, c.smallest, c.base, c.level);
    forall o | o in outputs ensures Less(Largest(g), Smallest(o)) || Less(Largest(o), Smallest(g)) {
      OutputBesideOld(outputs, Kept(input, c.smallest, c.base, c.level), g, o);
    }
  }

  /** The new table meets no entry that will be written. */
  lemma KeptApart(s: State, c: Running, f: File, e: Entry)
    requires Inv(s) && s.running == Some(c) && c.level + 1 < NUM_LEVELS
    requires MayPlace(s.version, Lo(f), Hi(f), c.level + 1)
    requires e in KeptBy(c)
    ensures e.key.user < Lo(f) || e.key.user > Hi(f)
  {
    hide Less, ReadsRight, Linked, InputsOldest, NewcomersApart, OutputRoom;
    FlushMissesInputs(s, c, f, c.level + 1);
    var g :| g in Inputs(c) && e in g.entries;
    FileBounds(g, e);
  }

  lemma OutputsKept(c: Running, input: seq<Entry>, outputs: seq<File>, o: File)
    requires StrictlySorted(input) && Elements(input) == FileEntries(Inputs(c)) && o in outputs
    requires Concat(EntryRuns(outputs)) == Kept(input, c.smallest, c.base, c.level)
    ensures forall e :: e in o.entries ==> e in KeptBy(c)
  {
    hide Kept, KeptSet;
    KeptIsSet(input, c.smallest, c.base, c.level);
    OutputEntries(outputs, Kept(input, c.smallest, c.base, c.level));
    assert o in FileSet(outputs);
  }

  /** An output that does not span the table is apart from it. */
  lemma UnspannedApart(s: State, c: Running, f: File, input: seq<Entry>, outputs: seq<File>, o: File)
    requires Inv(s) && s.running == Some(c) && c.level + 1 < NUM_LEVELS
    requires MayPlace(s.version, Lo(f), Hi(f), c.level + 1)
    requires StrictlySorted(input) && Elements(input) == FileEntries(Inputs(c)) && o in outputs
    requires Concat(EntryRuns(outputs)) == Kept(input, c.smallest, c.base, c.level)
    requires !Spanned(f, outputs)
    ensures Apart(f, o)
  {
    hide Inv, Kept, KeptBy, MayPlace;
    OutputsKept(c, input, outputs, o);
    KeptApart(s, c, f, o.entries[0]);
    KeptApart(s, c, f, o.entries[|o.entries| - 1]);
    FileBounds(o, o.entries[0]);
  }

  lemma ApartIsLess(f: File, g: File)
    requires Apart(f, g)
    ensures Less(Largest(f), Smallest(g)) || Less(Largest(g), Smallest(f))
  {
  }

  /** Installing leaves the output level overlapping exactly when an output spans the table that a flush put there
      meanwhile. */
  lemma OverlapsExactly(s: State, s1: State, c: Running, f: File, k: nat, s': State, input: seq<Entry>,
                        outputs: seq<File>)
    requires Inv(s) && s.running == Some(c) && f.number == s.nextFile && c.level + 1 < NUM_LEVELS
    requires PlaceTable(s, s1, f, c.level + 1) && Next(Opened(s1, k), s', DoInstall(input, outputs))
    ensures !SortedDisjoint(s'.version[c.level + 1]) <==> Spanned(f, outputs)
  {
    hide Inv, Kept, Opened, OrderedBySmallest, MayPlace, Less, Saved, InstallCompaction, SortedDisjoint;
    LevelAfter(s, s1, c, f, k, s', input, outputs);
    if Spanned(f, outputs) {
      var o :| o in outputs && Lo(o) < Lo(f) && Hi(f) < Hi(o);
      SpanOverlaps(f, o, s'.version[c.level + 1]);
    } else {
      UnspannedSorted(s, s1, c, f, k, s', input, outputs);
    }
  }

  lemma UnspannedSorted(s: State, s1: State, c: Running, f: File, k: nat, s': State, input: seq<Entry>,
                        outputs: seq<File>)
    requires Inv(s) && s.running == Some(c) && f.number == s.nextFile && c.level + 1 < NUM_LEVELS
    requires PlaceTable(s, s1, f, c.level + 1) && Next(Opened(s1, k), s', DoInstall(input, outputs))
    requires !Spanned(f, outputs)
    ensures SortedDisjoint(s'.version[c.level + 1])
  {
    hide Inv, Kept, Opened, OrderedBySmallest, MayPlace, Less, Apart, Saved, Spanned;
    OpenedIs(s1, k);
    SameInputFiles(c, Opened(s1, k).running.value);
    LevelAfter(s, s1, c, f, k, s', input, outputs);
    KeptSorted(input, c.smallest, c.base, c.level);
    forall g, h | g in s'.version[c.level + 1] && h in s'.version[c.level + 1] && g != h
      ensures Less(Largest(g), Smallest(h)) || Less(Largest(h), Smallest(g))
    {
      PairSeparate(s, c, f, g, h, input, outputs);
    }
    SeparatedIsSorted(s'.version[c.level + 1]);
  }

  lemma PairSeparate(s: State, c: Running, f: File, g: File, h: File, input: seq<Entry>, outputs: seq<File>)
    requires Inv(s) && s.running == Some(c) && c.level + 1 < NUM_LEVELS
    requires MayPlace(s.version, Lo(f), Hi(f), c.level + 1)
    requires StrictlySorted(input) && Elements(input) == FileEntries(Inputs(c)) && !Spanned(f, outputs) && g != h
    requires Concat(EntryRuns(outputs)) == Kept(input, c.smallest, c.base, c.level)
    requires (g in s.version[c.level + 1] && g !in c.in1) || g == f || g in outputs
    requires (h in s.version[c.level + 1] && h !in c.in1) || h == f || h in outputs
    ensures Less(Largest(g), Smallest(h)) || Less(Largest(h), Smallest(g))
  {
    hide Inv, Kept, MayPlace, Less, Apart, Spanned;
    KeptSorted(input, c.smallest, c.base, c.level);
    if g in outputs && h in outputs {
      OutputsSeparate(outputs, g, h);
    } else if g == f && h in outputs {
      UnspannedApart(s, c, f, input, outputs, h);
      ApartIsLess(f, h);
    } else if h == f && g in outputs {
      UnspannedApart(s, c, f, input, outputs, g);
      ApartIsLess(f, g);
    } else if g !in outputs && g != f {
      OldApart(s, c, f, g, input, outputs);
      ApartIsLess(f, g);
      if h !in outputs && h != f {
        InvSorted(s, c.level + 1);
        SortedPair(s.version[c.level + 1], g, h);
      }
    } else {
      OldApart(s, c, f, h, input, outputs);
      ApartIsLess(f, h);
    }
  }

  lemma InvSorted(s: State, l: nat)
    requires Inv(s) && 1 <= l < NUM_LEVELS
    ensures SortedDisjoint(s.version[l])
  {
  }

  // ----- when some way of cutting the outputs does that -----

  lemma SameInput(s: State, c: Running, x: Entry, y: Entry)
    requires Inv(s) && s.running == Some(c) && x.key == y.key
    requires x in FileEntries(Inputs(c)) && y in FileEntries(Inputs(c))
    ensures x == y
  {
    hide MemoryOk, WellFormed, UniqueNumbers, ReadsRight, RunningOk;
    var f :| f in Inputs(c) && x in f.entries;
    var g :| g in Inputs(c) && y in g.entries;
    InputIsStored(s, c, f, x);
    InputIsStored(s, c, g, y);
    assert Written(s.history, x) && Written(s.history, y);
  }

  /** What the inputs are, with or without the new table beside them. */
  lemma InputsSorted(s: State, c: Running) returns (input: seq<Entry>)
    requires Inv(s) && s.running == Some(c)
    ensures StrictlySorted(input) && Elements(input) == FileEntries(Inputs(c))
  {
    forall x, y | x in FileEntries(Inputs(c)) && y in FileEntries(Inputs(c)) && x.key == y.key ensures x == y {
      SameInput(s, c, x, y);
    }
    input := SortedOf(FileEntries(Inputs(c)));
  }

  /** A sorted list with an entry before the table and one after it, and none that meets it, steps over the table. */
  lemma {:induction false} StepsOver(es: seq<Entry>, lo: UserKey, hi: UserKey) returns (i: nat)
    requires |es| >= 2 && es[0].key.user < lo && es[|es| - 1].key.user > hi && lo <= hi
    requires forall e :: e in es ==> e.key.user < lo || e.key.user > hi
    ensures i + 1 < |es| && es[i].key.user < lo && es[i + 1].key.user > hi
  {
    i := 0;
    while es[i + 1].key.user < lo
      invariant i + 1 < |es| && es[i].key.user < lo
      decreases |es| - i
    {
      i := i + 1;
    }
    assert es[i + 1] in es;
  }

  /** n runs, of which one has both entry i and entry i + 1. */
  ghost function CutAround(es: seq<Entry>, n: nat, i: nat): (runs: seq<seq<Entry>>)
    requires 1 <= n < |es| && i + 1 < |es|
    ensures |runs| == n && forall r :: r in runs ==> r != []
    decreases n
  {
    if n == 1 then [es]
    else if i > 0 then [es[..1]] + CutAround(es[1..], n - 1, i - 1)
    else CutAround(es[..|es| - 1], n - 1, i) + [es[|es| - 1..]]
  }

  lemma {:induction false} CutAroundJoins(es: seq<Entry>, n: nat, i: nat)
    requires 1 <= n < |es| && i + 1 < |es|
    ensures Concat(CutAround(es, n, i)) == es
    decreases n
  {
    hide Concat;
    if n == 1 {
      ConcatOne(es);
    } else if i > 0 {
      CutAroundJoins(es[1..], n - 1, i - 1);
      ConcatFront(es[..1], CutAround(es[1..], n - 1, i - 1));
      assert es == es[..1] + es[1..];
    } else {
      CutAroundJoins(es[..|es| - 1], n - 1, i);
      ConcatBack(CutAround(es[..|es| - 1], n - 1, i), es[|es| - 1..]);
      assert es == es[..|es| - 1] + es[|es| - 1..];
    }
  }

  lemma {:induction false} CutAroundSpans(es: seq<Entry>, n: nat, i: nat) returns (j: nat)
    requires 1 <= n < |es| && i + 1 < |es|
    ensures j < n && es[i] in CutAround(es, n, i)[j] && es[i + 1] in CutAround(es, n, i)[j]
    decreases n
  {
    if n == 1 {
      j := 0;
    } else if i > 0 {
      j := CutAroundSpans(es[1..], n - 1, i - 1);
      j := j + 1;
    } else {
      j := CutAroundSpans(es[..|es| - 1], n - 1, i);
    }
  }

  lemma ConcatOne(r: seq<Entry>)
    ensures Concat([r]) == r
  {
    assert [r][..0] == [] && Concat([r]) == Concat([]) + r;
  }

  lemma ConcatBack(runs: seq<seq<Entry>>, r: seq<Entry>)
    ensures Concat(runs + [r]) == Concat(runs) + r
  {
    assert (runs + [r])[..|runs|] == runs;
  }

  lemma {:induction false} ConcatFront(r: seq<Entry>, runs: seq<seq<Entry>>)
    ensures Concat([r] + runs) == r + Concat(runs)
  {
    var all := [r] + runs;
    if runs == [] {
      assert all == [r] && all[..0] == [];
    } else {
      ConcatFront(r, runs[..|runs| - 1]);
      assert all[..|all| - 1] == [r] + runs[..|runs| - 1];
    }
  }

  /** After the table was placed, the compaction can still be installed. */
  lemma PlacedInstallable(s: State, s1: State, c: Running, f: File)
    requires Inv(s) && s.running == Some(c) && f.number == s.nextFile && c.level + 1 < NUM_LEVELS
    requires PlaceTable(s, s1, f, c.level + 1)
    ensures s1.running == Some(c) && Installable(s1, c)
  {
    hide Inv, OrderedBySmallest, MayPlace;
    InvInstallable(s, c);
    SavedContents(s.version[c.level + 1], {}, {f}, s1.version[c.level + 1]);
    assert f.number !in c.numbers;
  }

  /** However what is kept is cut into the outputs that are open, they can be installed. */
  lemma CanInstall(s: State, s1: State, c: Running, f: File, k: nat, input: seq<Entry>, outputs: seq<File>)
    returns (s': State)
    requires Inv(s) && s.running == Some(c) && f.number == s.nextFile && c.level + 1 < NUM_LEVELS
    requires PlaceTable(s, s1, f, c.level + 1) && StrictlySorted(input) && Elements(input) == FileEntries(Inputs(c))
    requires Concat(EntryRuns(outputs)) == Kept(input, c.smallest, c.base, c.level)
    requires |outputs| == |Opened(s1, k).running.value.numbers|
    requires forall i :: 0 <= i < |outputs| ==> outputs[i].number == Opened(s1, k).running.value.numbers[i]
    ensures Next(Opened(s1, k), s', DoInstall(input, outputs))
  {
    hide Inv, Kept, Opened, Saved, MayPlace, Installable, SaveLevel, ApplyLevel;
    PlacedInstallable(s, s1, c, f);
    OpenedIs(s1, k);
    OpenedInstallable(s1, k);
    var mid := Opened(s1, k);
    SameInputFiles(c, mid.running.value);
    LevelsInstalled(mid, mid.running.value, outputs);
    var r0 := SaveLevel(mid.version[c.level], ApplyLevel(EMPTY, LevelEdit(NumbersOf(c.in0), [])));
    var r1 := SaveLevel(mid.version[c.level + 1], ApplyLevel(EMPTY, LevelEdit(NumbersOf(c.in1), outputs)));
    s' := mid.(running := None, horizon := if mid.horizon < c.smallest then c.smallest else mid.horizon,
               version := mid.version[c.level := r0][c.level + 1 := r1]);
  }

  lemma {:induction false} ElementsCount(es: seq<Entry>)
    requires StrictlySorted(es)
    ensures |Elements(es)| == |es|
  {
    if es != [] {
      var front := es[..|es| - 1];
      ElementsCount(front);
      assert es == front + [es[|es| - 1]];
      assert Elements(es) == Elements(front) + {es[|es| - 1]};
      assert forall i | 0 <= i < |front| :: front[i] == es[i] && Less(es[i].key, es[|es| - 1].key);
    }
  }

  /** With kept entries on both sides, and more of them than outputs open, some cut spans the new table. */
  lemma AmongSpoils(s: State, s1: State, c: Running, f: File)
    returns (k: nat, s': State, input: seq<Entry>, outputs: seq<File>)
    requires Inv(s) && s.running == Some(c) && f.number == s.nextFile && c.level + 1 < NUM_LEVELS
    requires PlaceTable(s, s1, f, c.level + 1) && Among(f, KeptBy(c)) && |c.numbers| < |KeptBy(c)|
    ensures Spoils(s1, k, s', input, outputs)
  {
    hide Inv, Less, MayPlace, Saved, Kept, Opened, OrderedBySmallest, KeptBy, Among, Spanned, Concat, StrictlySorted;
    k := if c.numbers == [] then 1 else 0;
    OpenedNumbers(s1, k);
    AmongIsTwo(f, KeptBy(c));
    input, outputs := SpanningOutputs(s, c, f, Opened(s1, k).running.value.numbers);
    s' := CanInstall(s, s1, c, f, k, input, outputs);
    OverlapsExactly(s, s1, c, f, k, s', input, outputs);
  }

  lemma AmongIsTwo(f: File, es: set<Entry>)
    requires Among(f, es)
    ensures |es| > 1
  {
    var x :| x in es && x.key.user < Lo(f);
    var y :| y in es && y.key.user > Hi(f);
    FileBounds(f, f.entries[0]);
    assert {x, y} <= es;
    SubsetSize({x, y}, es);
  }

  lemma {:induction false} SubsetSize<T>(a: set<T>, b: set<T>)
    requires a <= b
    ensures |a| <= |b|
  {
    assert b == a + (b - a);
  }

  /** Outputs with these numbers, cut so that one of them spans the table. */
  lemma SpanningOutputs(s: State, c: Running, f: File, numbers: seq<nat>)
    returns (input: seq<Entry>, outputs: seq<File>)
    requires Inv(s) && s.running == Some(c) && c.level + 1 < NUM_LEVELS
    requires MayPlace(s.version, Lo(f), Hi(f), c.level + 1)
    requires Among(f, KeptBy(c)) && 1 <= |numbers| < |KeptBy(c)|
    ensures StrictlySorted(input) && Elements(input) == FileEntries(Inputs(c))
    ensures Concat(EntryRuns(outputs)) == Kept(input, c.smallest, c.base, c.level)
    ensures |outputs| == |numbers| && forall i :: 0 <= i < |outputs| ==> outputs[i].number == numbers[i]
    ensures Spanned(f, outputs)
  {
    hide Inv, Less, MayPlace, Kept, KeptBy, Among, Spanned, Concat, StrictlySorted, CutAround;
    var kept, i;
    input, kept, i := KeptAround(s, c, f);
    var runs := CutAround(kept, |numbers|, i);
    CutAroundJoins(kept, |numbers|, i);
    var j := CutAroundSpans(kept, |numbers|, i);
    RunsAreFiles(runs);
    outputs := MakeFiles(runs, numbers, _ => 1);
    assert EntryRuns(outputs)[j] == runs[j];
    RunSpans(f, outputs, j, kept[i], kept[i + 1]);
  }

  lemma RunSpans(f: File, outputs: seq<File>, j: nat, x: Entry, y: Entry)
    requires x.key.user < Lo(f) && y.key.user > Hi(f) && j < |outputs|
    requires x in outputs[j].entries && y in outputs[j].entries
    ensures Spanned(f, outputs)
  {
    FileBounds(outputs[j], x);
    FileBounds(outputs[j], y);
    assert outputs[j] in outputs;
  }

  /** What is kept, and where it steps over the table. */
  lemma KeptAround(s: State, c: Running, f: File) returns (input: seq<Entry>, kept: seq<Entry>, i: nat)
    requires Inv(s) && s.running == Some(c) && c.level + 1 < NUM_LEVELS
    requires MayPlace(s.version, Lo(f), Hi(f), c.level + 1)
    requires Among(f, KeptBy(c))
    ensures StrictlySorted(input) && Elements(input) == FileEntries(Inputs(c))
    ensures kept == Kept(input, c.smallest, c.base, c.level) && StrictlySorted(kept) && |kept| == |KeptBy(c)| >= 2
    ensures i + 1 < |kept| && kept[i].key.user < Lo(f) && kept[i + 1].key.user > Hi(f)
  {
    hide Inv, MayPlace, Kept, KeptSet;
    input := InputsSorted(s, c);
    KeptIsSet(input, c.smallest, c.base, c.level);
    KeptSorted(input, c.smallest, c.base, c.level);
    kept := Kept(input, c.smallest, c.base, c.level);
    ElementsCount(kept);
    forall e | e in kept ensures e.key.user < Lo(f) || e.key.user > Hi(f) {
      assert e in KeptBy(c);
      KeptApart(s, c, f, e);
    }
    FileBounds(f, f.entries[0]);
    var x :| x in KeptBy(c) && x.key.user < Lo(f);
    var y :| y in KeptBy(c) && y.key.user > Hi(f);
    EndsAround(kept, x, y);
    i := StepsOver(kept, Lo(f), Hi(f));
  }

  lemma EndsAround(es: seq<Entry>, x: Entry, y: Entry)
    requires StrictlySorted(es) && x in es && y in es && x.key.user < y.key.user
    ensures |es| >= 2 && es[0].key.user <= x.key.user && es[|es| - 1].key.user >= y.key.user
  {
    var i :| 0 <= i < |es| && es[i] == x;
    var j :| 0 <= j < |es| && es[j] == y;
    assert i > 0 ==> Less(es[0].key, es[i].key);
    assert j < |es| - 1 ==> Less(es[j].key, es[|es| - 1].key);
  }

  /** Non-empty runs, one of them with two entries, have more entries than there are runs. */
  lemma {:induction false} RunsCount(runs: seq<seq<Entry>>)
    requires forall i | 0 <= i < |runs| :: |runs[i]| > 0
    ensures |Concat(runs)| >= |runs|
    ensures (exists i | 0 <= i < |runs| :: |runs[i]| >= 2) ==> |Concat(runs)| > |runs|
  {
    if runs != [] {
      RunsCount(runs[..|runs| - 1]);
    }
  }

  lemma SpanningRun(outputs: seq<File>, o: File)
    requires o in outputs && Lo(o) < Hi(o)
    ensures |Concat(EntryRuns(outputs))| > |outputs|
  {
    var runs := EntryRuns(outputs);
    var i :| 0 <= i < |outputs| && outputs[i] == o;
    assert |runs[i]| >= 2;
    RunsCount(runs);
  }

  /** A spoilt level tells that the table lies among what is kept, and that this is more than the outputs opened. */
  lemma SpoiltIsAmong(s: State, s1: State, c: Running, f: File, k: nat, s': State, input: seq<Entry>,
                      outputs: seq<File>)
    requires Inv(s) && s.running == Some(c) && f.number == s.nextFile && c.level + 1 < NUM_LEVELS
    requires PlaceTable(s, s1, f, c.level + 1) && Spoils(s1, k, s', input, outputs)
    ensures Among(f, KeptBy(c)) && |c.numbers| < |KeptBy(c)|
  {
    hide Inv, Less, MayPlace, Saved, Kept, Opened, OrderedBySmallest, KeptBy;
    OverlapsExactly(s, s1, c, f, k, s', input, outputs);
    var o :| o in outputs && Lo(o) < Lo(f) && Hi(f) < Hi(o);
    OpenedIs(s1, k);
    SameInputFiles(c, Opened(s1, k).running.value);
    OutputsKept(c, input, outputs, o);
    FileBounds(f, f.entries[0]);
    assert o.entries[0] in o.entries && o.entries[|o.entries| - 1] in o.entries;
    KeptSize(c, input);
    SpanningRun(outputs, o);
  }

  lemma KeptSize(c: Running, input: seq<Entry>)
    requires StrictlySorted(input) && Elements(input) == FileEntries(Inputs(c))
    ensures |Kept(input, c.smallest, c.base, c.level)| == |KeptBy(c)|
  {
    hide Kept, KeptSet;
    KeptIsSet(input, c.smallest, c.base, c.level);
    KeptSorted(input, c.smallest, c.base, c.level);
    ElementsCount(Kept(input, c.smallest, c.base, c.level));
  }

  /** Beside a running compaction, a table that goes to its output level can end up overlapped there exactly when what
      will be kept has an entry before the table and an entry after it, and has more entries than outputs are open. */
  lemma SpoilsExactly(s: State, s1: State, c: Running, f: File)
    requires Inv(s) && s.running == Some(c) && f.number == s.nextFile && c.level + 1 < NUM_LEVELS
    requires PlaceTable(s, s1, f, c.level + 1)
    ensures (exists k, s', input, outputs :: Spoils(s1, k, s', input, outputs)) <==>
            Among(f, KeptBy(c)) && |c.numbers| < |KeptBy(c)|
  {
    hide Inv, KeptBy, Among, Spoils, MayPlace, Saved;
    if Among(f, KeptBy(c)) && |c.numbers| < |KeptBy(c)| {
      var k, s', input, outputs := AmongSpoils(s, s1, c, f);
    }
    if k, s', input, outputs :| Spoils(s1, k, s', input, outputs) {
      SpoiltIsAmong(s, s1, c, f, k, s', input, outputs);
    }
  }

  // ----- when there is such a table -----

  /** No file down to the output level meets the range, and what will be kept lies on both sides of it. */
  ghost predicate GapRange(v: Version, c: Running, lo: UserKey, hi: UserKey) {
    && (forall l :: 0 <= l <= c.level + 1 && l < NUM_LEVELS ==> NoneOverlaps(v[l], lo, hi))
    && (exists x :: x in KeptBy(c) && x.key.user < lo) && (exists y :: y in KeptBy(c) && y.key.user > hi)
  }

  /** The version has a gap that a flush goes to.  Into level 2: a key of the gap that not too much of level 3 covers.
      Into level 1: a key of the gap that level 2 covers, but not with too much, or a range of the gap that level 2
      does not meet and too much of level 3 does. */
  ghost predicate Gap(v: Version, c: Running, maxGrandparentBytes: nat) {
    if c.level == 1 then
      exists user :: GapRange(v, c, user, user) && !TooMuchBelow(v, user, user, 1, maxGrandparentBytes)
    else if c.level == 0 then
      || (exists user :: GapRange(v, c, user, user) && !NoneOverlaps(v[2], user, user) &&
                         !TooMuchBelow(v, user, user, 0, maxGrandparentBytes))
      || (exists lo, hi :: lo <= hi && GapRange(v, c, lo, hi) && NoneOverlaps(v[2], lo, hi) &&
                           TooMuchBelow(v, lo, hi, 1, maxGrandparentBytes))
    else false
  }

  lemma {:induction false} NarrowerIsLess(files: seq<File>, lo: UserKey, hi: UserKey, lo': UserKey, hi': UserKey)
    requires lo <= lo' <= hi' <= hi
    ensures TotalFileSize(Select(files, Some(lo'), Some(hi'))) <= TotalFileSize(Select(files, Some(lo), Some(hi)))
  {
    if files != [] {
      var n := |files| - 1;
      NarrowerIsLess(files[..n], lo, hi, lo', hi');
      var narrow, wide := Select(files[..n], Some(lo'), Some(hi')), Select(files[..n], Some(lo), Some(hi));
      SizeSnoc(narrow, files[n]);
      SizeSnoc(wide, files[n]);
      assert Overlaps(files[n], Some(lo'), Some(hi')) ==> Overlaps(files[n], Some(lo), Some(hi));
      assert narrow + [] == narrow && wide + [] == wide;
    }
  }

  /** Where no file meets the range, none is too much. */
  lemma NoneIsLittle(v: Version, lo: UserKey, hi: UserKey, level: nat, maxGrandparentBytes: nat)
    requires level + 2 < NUM_LEVELS && NoneOverlaps(v[level + 2], lo, hi) && lo <= hi
    ensures !TooMuchBelow(v, lo, hi, level, maxGrandparentBytes)
  {
    SelectsNothing(v[level + 2], lo, hi);
  }

  lemma {:induction false} SelectsNothing(files: seq<File>, lo: UserKey, hi: UserKey)
    requires NoneOverlaps(files, lo, hi)
    ensures Select(files, Some(lo), Some(hi)) == []
  {
    if files != [] {
      SelectsNothing(files[..|files| - 1], lo, hi);
      assert files[|files| - 1] in files;
    }
  }

  /** A key of a range is in the gap if the range is, and has no more below it. */
  lemma NarrowGap(v: Version, c: Running, lo: UserKey, hi: UserKey, user: UserKey, l: nat, maxGrandparentBytes: nat)
    requires lo <= user <= hi
    ensures GapRange(v, c, lo, hi) ==> GapRange(v, c, user, user)
    ensures TooMuchBelow(v, user, user, l, maxGrandparentBytes) ==> TooMuchBelow(v, lo, hi, l, maxGrandparentBytes)
  {
    hide KeptBy;
    if l + 2 < NUM_LEVELS {
      NarrowerIsLess(v[l + 2], lo, hi, user, user);
    }
  }

  /** A table goes to the output level, among what will be kept, only through such a gap. */
  lemma PickedHasGap(v: Version, c: Running, f: File, maxGrandparentBytes: nat)
    requires c.level + 1 < NUM_LEVELS
    requires Picked(v, Lo(f), Hi(f), maxGrandparentBytes, c.level + 1) && Among(f, KeptBy(c))
    ensures Gap(v, c, maxGrandparentBytes)
  {
    hide KeptBy, Select, TooMuchBelow;
    FileBounds(f, f.entries[0]);
    var lo, hi := Lo(f), Hi(f);
    assert GapRange(v, c, lo, hi);
    if c.level == 1 {
      NarrowGap(v, c, lo, hi, lo, 1, maxGrandparentBytes);
    } else if !NoneOverlaps(v[2], lo, hi) {
      var g :| g in v[2] && !(Hi(g) < lo || Lo(g) > hi);
      FileBounds(g, g.entries[0]);
      var user := if Lo(g) < lo then lo else Lo(g);
      NarrowGap(v, c, lo, hi, user, 0, maxGrandparentBytes);
    }
  }

  /** And through every such gap some table does. */
  lemma GapIsPicked(v: Version, c: Running, maxGrandparentBytes: nat) returns (f: File)
    requires c.level + 1 < NUM_LEVELS && Gap(v, c, maxGrandparentBytes)
    ensures Picked(v, Lo(f), Hi(f), maxGrandparentBytes, c.level + 1) && Among(f, KeptBy(c))
  {
    hide KeptBy, Select, TooMuchBelow;
    var lo, hi;
    if c.level == 1 {
      var user :| GapRange(v, c, user, user) && !TooMuchBelow(v, user, user, 1, maxGrandparentBytes);
      NoneIsLittle(v, user, user, 0, maxGrandparentBytes);
      lo, hi := user, user;
    } else if user :| GapRange(v, c, user, user) && !NoneOverlaps(v[2], user, user) &&
                      !TooMuchBelow(v, user, user, 0, maxGrandparentBytes) {
      lo, hi := user, user;
    } else {
      lo, hi :| lo <= hi && GapRange(v, c, lo, hi) && NoneOverlaps(v[2], lo, hi) &&
                TooMuchBelow(v, lo, hi, 1, maxGrandparentBytes);
      NoneIsLittle(v, lo, hi, 0, maxGrandparentBytes);
    }
    f := TableOver(lo, hi);
  }

  lemma TableOver(lo: UserKey, hi: UserKey) returns (f: File)
    requires lo <= hi
    ensures Lo(f) == lo && Hi(f) == hi
  {
    f := FileData(0, 1, [Entry(IKey(lo, 2, Value), ""), Entry(IKey(hi, 1, Value), "")]);
  }

  /** The code puts some table into the output level, among what will be kept, exactly when there is such a gap. */
  lemma SpoilableExactly(v: Version, c: Running, maxGrandparentBytes: nat)
    requires c.level + 1 < NUM_LEVELS
    ensures (exists f: File :: Picked(v, Lo(f), Hi(f), maxGrandparentBytes, c.level + 1) && Among(f, KeptBy(c))) <==>
            Gap(v, c, maxGrandparentBytes)
  {
    hide KeptBy, Picked, Gap, Among;
    if Gap(v, c, maxGrandparentBytes) {
      var f := GapIsPicked(v, c, maxGrandparentBytes);
    }
    if f: File :| Picked(v, Lo(f), Hi(f), maxGrandparentBytes, c.level + 1) && Among(f, KeptBy(c)) {
      PickedHasGap(v, c, f, maxGrandparentBytes);
    }
  }

  // ----- a run in which it happens -----

  /** An output ends before the last entry only because it is full or too much of the next level lies under it. */
  ghost predicate CutsNeeded(c: Running, outputs: seq<File>, limits: Limits) {
    forall i :: 0 <= i < |outputs| - 1 ==>
      || outputs[i].size >= limits.maxFileSize
      || (c.level + 2 < NUM_LEVELS && TotalFileSize(c.base[c.level + 2]) > limits.maxGrandparentBytes)
  }

  /** The steps as the code takes them: a flush goes where PickLevelForMemTableOutput puts it, whatever is running,
      no table is empty, and outputs are cut only where the code cuts. */
  ghost predicate CodeNext(s: State, s': State, step: Step, limits: Limits) {
    match step
    case DoFlush(level, size) => size > 0 && CodeFlush(s, s', level, size, limits.maxGrandparentBytes)
    case DoInstall(input, outputs) =>
      && Next(s, s', step) && s.running.Some? && CutsNeeded(s.running.value, outputs, limits)
      && forall o :: o in outputs ==> o.size > 0
    case _ => Next(s, s', step)
  }

  ghost predicate IsCodeRun(run: seq<State>, steps: seq<Step>, limits: Limits) {
    && |run| == |steps| + 1 && Init(run[0])
    && forall i :: 0 <= i < |steps| ==> CodeNext(run[i], run[i + 1], steps[i], limits)
  }

  /** A state that the code can reach. */
  ghost predicate Reached(s: State, limits: Limits) {
    exists run, steps :: IsCodeRun(run, steps, limits) && run[|run| - 1] == s
  }

  lemma ReachedStep(s: State, s': State, step: Step, limits: Limits)
    requires Reached(s, limits) && CodeNext(s, s', step, limits)
    ensures Reached(s', limits)
  {
    hide CodeNext;
    var run, steps :| IsCodeRun(run, steps, limits) && run[|run| - 1] == s;
    assert IsCodeRun(run + [s'], steps + [step], limits);
  }

  lemma {:induction false} ReachedOpened(s: State, k: nat, limits: Limits)
    requires Reached(s, limits) && s.running.Some?
    ensures Reached(Opened(s, k), limits)
  {
    hide Reached;
    if k > 0 {
      ReachedOpened(s, k - 1, limits);
      OpenedStep(s, k - 1);
      ReachedStep(Opened(s, k - 1), Opened(s, k), DoOpenOutput, limits);
    }
  }

  /** Between flushes: the memtable is empty and every table has the same size. */
  ghost predicate Quiet(s: State, limits: Limits, size: nat) {
    && Reached(s, limits) && s.mem == [] && s.imm.None? && s.snapshots == multiset{}
    && forall l, f :: 0 <= l < NUM_LEVELS && f in s.version[l] ==> f.size == size
  }

  /** Two tables together stay below the limits. */
  predicate Roomy(limits: Limits, size: nat) {
    size > 0 && 2 * size < limits.maxFileSize && 2 * size <= limits.maxGrandparentBytes
  }

  /** The levels hold these files, and only levels 1 and 2 any. */
  ghost predicate HoldsOnly(v: Version, one: set<File>, two: set<File>) {
    && FileSet(v[1]) == one && FileSet(v[2]) == two
    && forall l :: 0 <= l < NUM_LEVELS && l != 1 && l != 2 ==> v[l] == []
  }

  function Row(number: nat, user: UserKey, seqno: SeqNo, size: nat): File {
    FileData(number, size, [Entry(IKey(user, seqno, Value), "")])
  }

  /** One write, one switch and one flush. */
  method WriteAndFlush(s: State, user: UserKey, limits: Limits, size: nat) returns (s': State, level: nat)
    requires Inv(s) && Quiet(s, limits, size) && |s.history| + 1 < MAX_SEQUENCE && size > 0
    ensures Reached(s', limits) && s'.mem == [] && s'.imm.None? && s'.snapshots == multiset{}
    ensures |s'.history| == |s.history| + 1 && s'.nextFile == s.nextFile + 1 && s'.running == s.running
            && level < NUM_LEVELS
    ensures var f := Row(s.nextFile, user, |s.history| + 1, size);
            && Picked(s.version, user, user, limits.maxGrandparentBytes, level)
            && Saved(s.version[level], {}, {f}, s'.version[level])
            && s'.version == s.version[level := s'.version[level]]
    ensures s.running.None? ==> Inv(s')
    ensures exists s2 :: Inv(s2) && s2.running == s.running && s2.version == s.version && s2.nextFile == s.nextFile &&
              var f := Row(s.nextFile, user, |s.history| + 1, size);
              s2.imm == Some(f.entries) && PlaceTable(s2, s', f, level)
  {
    var op := Put(user, "");
    var e := Stamp(op, |s.history| + 1);
    var s1 := s.(history := s.history + [e], mem := [e]);
    assert Write(s, s1, op);
    var s2 := s1.(imm := Some([e]), mem := []);
    assert SwitchMemTable(s1, s2);
    WriteKeepsInv(s, s1, op);
    SwitchKeepsInv(s1, s2);
    hide Inv, Reached, Write, SwitchMemTable, Picked, Saved, MayPlace;
    ReachedStep(s, s1, DoWrite(op), limits);
    ReachedStep(s1, s2, DoSwitch, limits);
    s', level := CompactMemTable(s2, size, limits.maxGrandparentBytes);
    ReachedStep(s2, s', DoFlush(level, size), limits);
    if s.running.None? {
      FlushKeepsInv(s2, s', level, size);
    }
  }

  /** Tables of one size: their total is their number times the size. */
  lemma {:induction false} SameSizes(files: seq<File>, size: nat)
    requires OrderedBySmallest(files) && forall f :: f in files ==> f.size == size
    ensures TotalFileSize(files) == |FileSet(files)| * size
  {
    hide BySmallest;
    if files == [] {
      assert FileSet(files) == {};
    } else {
      TailOrdered(files);
      SameSizes(files[1..], size);
      assert files[0] in files;
      OneMoreTime(|FileSet(files[1..])|, size);
    }
  }

  lemma TailOrdered(files: seq<File>)
    requires OrderedBySmallest(files) && files != []
    ensures OrderedBySmallest(files[1..]) && |FileSet(files)| == |FileSet(files[1..])| + 1
  {
    hide BySmallest;
    TailMembers(files, files[0]);
    forall f ensures f in FileSet(files) <==> f in FileSet(files[1..]) + {files[0]} { TailMembers(files, f); }
    assert FileSet(files) == FileSet(files[1..]) + {files[0]};
  }

  lemma OneMoreTime(n: nat, size: nat)
    ensures (n + 1) * size == n * size + size
  {
  }

  lemma {:induction false} FrontIsLess(files: seq<File>, front: seq<File>)
    requires front <= files
    ensures TotalFileSize(front) <= TotalFileSize(files)
  {
    if front != [] {
      FrontIsLess(files[1..], front[1..]);
    }
  }

  lemma {:induction false} SelectIsLess(files: seq<File>, begin: Option<UserKey>, end: Option<UserKey>)
    ensures TotalFileSize(Select(files, begin, end)) <= TotalFileSize(files)
  {
    if files != [] {
      var n := |files| - 1;
      SelectIsLess(files[..n], begin, end);
      SizeSnoc(files[..n], files[n]);
      SizeSnoc(Select(files[..n], begin, end), files[n]);
      assert files == files[..n] + [files[n]] && Select(files[..n], begin, end) + [] == Select(files[..n], begin, end);
    }
  }

  /** Levels with at most two tables each never hold too much. */
  ghost predicate Light(v: Version, limits: Limits) {
    forall l :: 0 <= l < NUM_LEVELS ==> TotalFileSize(v[l]) <= limits.maxGrandparentBytes
  }

  lemma HoldsLittle(s: State, one: set<File>, two: set<File>, limits: Limits, size: nat)
    requires Inv(s) && Quiet(s, limits, size) && Roomy(limits, size) && HoldsOnly(s.version, one, two)
    requires |one| <= 2 && |two| <= 2
    ensures Light(s.version, limits) && TotalFileSize(s.version[1]) < limits.maxFileSize
  {
    hide Inv, Reached, OrderedBySmallest;
    LevelOrdered(s, 1);
    LevelOrdered(s, 2);
    SameSizes(s.version[1], size);
    SameSizes(s.version[2], size);
    AtMostTwo(|one|, size);
    AtMostTwo(|two|, size);
  }

  lemma AtMostTwo(n: nat, size: nat)
    requires n <= 2
    ensures n * size <= 2 * size
  {
  }

  /** The level picked is then the deepest that the table can reach. */
  lemma PickedIs(v: Version, user: UserKey, limits: Limits, level: nat, d: nat)
    requires Light(v, limits) && Picked(v, user, user, limits.maxGrandparentBytes, level) && d <= MAX_MEM_COMPACT_LEVEL
    requires forall l :: 0 <= l <= d ==> NoneOverlaps(v[l], user, user)
    requires d == MAX_MEM_COMPACT_LEVEL || !NoneOverlaps(v[d + 1], user, user)
    ensures level == d
  {
    hide NoneOverlaps, Select;
    forall l | 0 <= l < d ensures !TooMuchBelow(v, user, user, l, limits.maxGrandparentBytes) {
      SelectIsLess(v[l + 2], Some(user), Some(user));
    }
  }

  lemma OverlapsOnly(v: Version, one: set<File>, two: set<File>, user: UserKey)
    requires HoldsOnly(v, one, two)
    ensures NoneOverlaps(v[0], user, user)
    ensures NoneOverlaps(v[1], user, user) <==> forall f :: f in one ==> !Covers(f, user)
    ensures NoneOverlaps(v[2], user, user) <==> forall f :: f in two ==> !Covers(f, user)
  {
    assert forall f :: f in v[1] <==> f in one;
    assert forall f :: f in v[2] <==> f in two;
  }

  /** The next table goes to level 2 if nothing there covers its key, and else to level 1. */
  method AddRow(s: State, user: UserKey, limits: Limits, size: nat, ghost one: set<File>, ghost two: set<File>)
    returns (s': State)
    requires Inv(s) && Quiet(s, limits, size) && Roomy(limits, size) && |s.history| + 1 < MAX_SEQUENCE
    requires s.running.None? && |one| <= 2 && |two| <= 2
    requires HoldsOnly(s.version, one, two) && forall f :: f in one ==> !Covers(f, user)
    ensures Inv(s') && Quiet(s', limits, size) && s'.running.None?
    ensures |s'.history| == |s.history| + 1 && s'.nextFile == s.nextFile + 1
    ensures var f := Row(s.nextFile, user, |s.history| + 1, size);
            if exists g :: g in two && Covers(g, user) then HoldsOnly(s'.version, one + {f}, two)
            else HoldsOnly(s'.version, one, two + {f})
  {
    hide Inv, Picked, Reached, PlaceTable, Covers, Light, Saved, HoldsOnly;
    var level;
    s', level := WriteAndFlush(s, user, limits, size);
    HoldsLittle(s, one, two, limits, size);
    OverlapsOnly(s.version, one, two, user);
    PickedIs(s.version, user, limits, level, if exists g :: g in two && Covers(g, user) then 1 else 2);
    RowAdded(s.version, s'.version, level, Row(s.nextFile, user, |s.history| + 1, size), one, two, size);
  }

  lemma RowAdded(v: Version, v': Version, level: nat, f: File, one: set<File>, two: set<File>, size: nat)
    requires 1 <= level <= 2 && Saved(v[level], {}, {f}, v'[level]) && v' == v[level := v'[level]] && f.size == size
    requires HoldsOnly(v, one, two) && forall l, g :: 0 <= l < NUM_LEVELS && g in v[l] ==> g.size == size
    ensures if level == 1 then HoldsOnly(v', one + {f}, two) else HoldsOnly(v', one, two + {f})
    ensures forall l, g :: 0 <= l < NUM_LEVELS && g in v'[l] ==> g.size == size
  {
    hide OrderedBySmallest;
    forall l, g | 0 <= l < NUM_LEVELS && g in v'[l] ensures g.size == size {
      assert g in FileSet(v'[l]);
      assert g in FileSet(v[l]) || g == f;
    }
  }

  method NewStore(limits: Limits, size: nat) returns (s: State)
    ensures Inv(s) && Quiet(s, limits, size) && s.running.None? && s.history == [] && s.nextFile == 1
    ensures HoldsOnly(s.version, {}, {})
  {
    s := State([], [], None, [[], [], [], [], [], [], []], 1, multiset{}, None, 0);
    InitInv(s);
    hide Inv;
    assert FileSet([]) == {};
    ReachedInit(s, limits);
    hide Reached;
  }

  lemma ReachedInit(s: State, limits: Limits)
    requires Init(s)
    ensures Reached(s, limits)
  {
    assert IsCodeRun([s], [], limits);
  }

  /** Which of the rows cover which key. */
  lemma RowCovers(number: nat, user: UserKey, seqno: SeqNo, size: nat, key: UserKey)
    ensures Covers(Row(number, user, seqno, size), key) <==> key == user
  {
  }

  ghost function Ones(size: nat): set<File> { {Row(3, 1, 3, size), Row(4, 5, 4, size)} }

  ghost function Twos(size: nat): set<File> { {Row(1, 1, 1, size), Row(2, 5, 2, size)} }

  method TwoRows(limits: Limits, size: nat) returns (s: State)
    requires Roomy(limits, size)
    ensures Inv(s) && Quiet(s, limits, size) && s.running.None? && |s.history| == 2 && s.nextFile == 3
    ensures HoldsOnly(s.version, {}, Twos(size))
  {
    hide Inv, Quiet, HoldsOnly, Covers, Row, Roomy;
    s := NewStore(limits, size);
    s := AddRow(s, 1, limits, size, {}, {});
    assert {} + {Row(1, 1, 1, size)} == {Row(1, 1, 1, size)};
    RowCovers(1, 1, 1, size, 5);
    s := AddRow(s, 5, limits, size, {}, {Row(1, 1, 1, size)});
    assert {Row(1, 1, 1, size)} + {Row(2, 5, 2, size)} == Twos(size);
  }

  /** Keys 1 and 5 in levels 1 and 2, each in its own file. */
  method FourRows(limits: Limits, size: nat) returns (s: State)
    requires Roomy(limits, size)
    ensures Inv(s) && Quiet(s, limits, size) && s.running.None? && |s.history| == 4 && s.nextFile == 5
    ensures HoldsOnly(s.version, Ones(size), Twos(size))
  {
    hide Inv, Quiet, HoldsOnly, Covers, Row, Roomy;
    s := TwoRows(limits, size);
    RowCovers(1, 1, 1, size, 1);
    RowCovers(2, 5, 2, size, 5);
    RowCovers(3, 1, 3, size, 5);
    assert Row(1, 1, 1, size) in Twos(size) && Row(2, 5, 2, size) in Twos(size);
    s := AddRow(s, 1, limits, size, {}, Twos(size));
    assert {} + {Row(3, 1, 3, size)} == {Row(3, 1, 3, size)};
    s := AddRow(s, 5, limits, size, {Row(3, 1, 3, size)}, Twos(size));
    assert {Row(3, 1, 3, size)} + {Row(4, 5, 4, size)} == Ones(size);
  }

  /** The manual compaction of level 1 takes both of its files, and keeps the newer entry of each key. */
  lemma ManualKeepsBoth(s: State, c: Running, size: nat)
    requires HoldsOnly(s.version, Ones(size), Twos(size))
    requires c.level == 1 && c.in0 == FileSet(s.version[1]) && c.in1 <= FileSet(s.version[2])
    ensures Among(Row(5, 3, 5, size), KeptBy(c))
  {
    var a, b := Row(3, 1, 3, size), Row(4, 5, 4, size);
    assert a in Inputs(c) && b in Inputs(c);
    assert forall f :: f in Inputs(c) ==> f in {a, b, Row(1, 1, 1, size), Row(2, 5, 2, size)};
    assert a.entries[0] in a.entries && b.entries[0] in b.entries;
    assert a.entries[0] in FileEntries(Inputs(c)) && b.entries[0] in FileEntries(Inputs(c));
    assert a.entries[0] in KeptBy(c) && b.entries[0] in KeptBy(c);
  }

  /** A level below the size limit is taken whole. */
  lemma WholeLevel(files: seq<File>, maxFileSize: nat, front: seq<File>)
    requires TotalFileSize(files) < maxFileSize && CutAt(Select(files, None, None), maxFileSize, front)
    ensures FileSet(front) == FileSet(files)
  {
    hide Select, TotalFileSize;
    SelectIsLess(files, None, None);
    FrontIsLess(Select(files, None, None), front);
  }

  /** Nothing asks for a cut. */
  function Never(i: nat): bool { false }

  /** Keys 1 and 5 are written twice, so that each has a table in levels 1 and 2.  A manual compaction of level 1 takes
      both of its tables.  Meanwhile key 3 is written and flushed: it meets no table and goes to level 2.  The inputs
      fit in one output, so nothing asks for a cut, and when that output is installed level 2 overlaps. */
  method ManualGapRun(limits: Limits, size: nat) returns (bad: State)
    requires Roomy(limits, size)
    ensures Reached(bad, limits) && !SortedDisjoint(bad.version[2])
  {
    hide Inv, Reached, Quiet, HoldsOnly, Beside3, Outputs, Concat, Kept, StrictlySorted, SortedDisjoint, Ones, Twos,
         Inputs;
    var s := FourRows(limits, size);
    var t, c := StartManual(s, limits, size);
    var input, runs := Rewrite(t, Never, Never);
    var s1 := FlushThree(t, c, limits, size);
    bad := FinishOver(t, s1, c, limits, size, input, runs);
  }

  /** Key 3 goes to level 2, and the compaction goes on. */
  method FlushThree(t: State, c: Running, limits: Limits, size: nat) returns (s1: State)
    requires Inv(t) && Quiet(t, limits, size) && Roomy(limits, size) && |t.history| == 4 && t.nextFile == 5
    requires HoldsOnly(t.version, Ones(size), Twos(size)) && t.running == Some(c) && c.level == 1 && c.numbers == []
    ensures Reached(s1, limits) && Beside3(t, s1, c, size)
  {
    hide Inv, Reached, Picked, Saved, HoldsOnly, Quiet, Light, CodeFlush, MayPlace, NoneOverlaps;
    var level;
    s1, level := WriteAndFlush(t, 3, limits, size);
    ThreeMeetsNothing(t, limits, size, level);
  }

  /** s1 is what a flush of key 3 into level 2 makes of a store with the compaction running. */
  ghost predicate Beside3(t: State, s1: State, c: Running, size: nat) {
    exists before :: Inv(before) && before.running == Some(c) && before.version == t.version && before.nextFile == 5 &&
      PlaceTable(before, s1, Row(5, 3, 5, size), 2)
  }

  lemma ThreeMeetsNothing(t: State, limits: Limits, size: nat, level: nat)
    requires HoldsOnly(t.version, Ones(size), Twos(size)) && Inv(t) && Quiet(t, limits, size) && Roomy(limits, size)
    requires Picked(t.version, 3, 3, limits.maxGrandparentBytes, level)
    ensures level == 2
  {
    hide Reached, Picked, Inv, Light;
    OverlapsOnly(t.version, Ones(size), Twos(size), 3);
    HoldsLittle(t, Ones(size), Twos(size), limits, size);
    PickedIs(t.version, 3, limits, level, 2);
  }

  /** The one output with all that is kept is installed over the new table. */
  method FinishOver(ghost t: State, s1: State, c: Running, limits: Limits, size: nat, ghost input: seq<Entry>,
                    runs: seq<seq<Entry>>)
    returns (bad: State)
    requires Reached(s1, limits) && Beside3(t, s1, c, size) && c.level == 1 && c.numbers == [] && size > 0
    requires HoldsOnly(t.version, Ones(size), Twos(size)) && c.in0 == FileSet(t.version[1])
    requires c.in1 <= FileSet(t.version[2]) && StrictlySorted(input) && Elements(input) == FileEntries(Inputs(c))
    requires runs == Outputs(input, c.smallest, c.base, c.level, Never, Never)
    requires Concat(runs) == Kept(input, c.smallest, c.base, c.level) && forall r :: r in runs ==> r != []
    ensures Reached(bad, limits) && !SortedDisjoint(bad.version[2])
  {
    hide Inv, Reached, Installable, HoldsOnly, Opened, Kept, KeptBy, Among, Outputs, Concat, StrictlySorted, PlaceTable,
         SortedDisjoint, Next, Spanned, Inputs;
    ghost var f := Row(5, 3, 5, size);
    ghost var before :| Inv(before) && before.running == Some(c) && before.version == t.version &&
      before.nextFile == 5 && PlaceTable(before, s1, f, 2);
    PlacedInstallable(before, s1, c, f);
    ghost var mid;
    var outputs;
    bad, mid, outputs := Finish(s1, runs, _ => 2 * size, input);
    OneOutput(c, input, runs, outputs, f) by { ManualKeepsBoth(t, c, size); }
    OverlapsExactly(before, s1, c, f, |outputs|, bad, input, outputs);
    ReachedOpened(s1, |outputs|, limits);
    OpenedIs(s1, |outputs|);
    ReachedStep(mid, bad, DoInstall(input, outputs), limits);
  }

  /** Without a cut there is one output, and it spans a table that lies among what is kept. */
  lemma OneOutput(c: Running, input: seq<Entry>, runs: seq<seq<Entry>>, outputs: seq<File>, f: File)
    requires StrictlySorted(input) && Elements(input) == FileEntries(Inputs(c)) && Among(f, KeptBy(c))
    requires runs == Outputs(input, c.smallest, c.base, c.level, Never, Never) && EntryRuns(outputs) == runs
    ensures |outputs| == 1 && Spanned(f, outputs)
  {
    hide Kept, KeptSet;
    KeptIsSet(input, c.smallest, c.base, c.level);
    NeverCut(input, c.smallest, c.base, c.level, Never, Never);
    var x :| x in KeptBy(c) && x.key.user < Lo(f);
    var y :| y in KeptBy(c) && y.key.user > Hi(f);
    var kept := Kept(input, c.smallest, c.base, c.level);
    assert x in kept && y in kept && runs == [kept];
    assert outputs[0].entries == EntryRuns(outputs)[0];
    RunSpans(f, outputs, 0, x, y);
  }

  method StartManual(s: State, limits: Limits, size: nat) returns (t: State, c: Running)
    requires Inv(s) && Quiet(s, limits, size) && Roomy(limits, size) && s.running.None? && |s.history| == 4
    requires s.nextFile == 5 && HoldsOnly(s.version, Ones(size), Twos(size))
    ensures Inv(t) && Quiet(t, limits, size) && t.version == s.version && |t.history| == 4 && t.nextFile == 5
    ensures t.running == Some(c) && c.level == 1 && c.numbers == []
    ensures c.in0 == FileSet(s.version[1]) && c.in1 <= FileSet(s.version[2])
  {
    hide Inv, Reached, Select, CutAt, SmallestSnapshot, Linked, Light, TotalFileSize;
    var started, in0, in1;
    ghost var step;
    started, t, in0, in1, step := BackgroundCompaction(s, Manual(1, None, None), limits);
    assert s.version[1] != [] by { assert FileSet([]) == {}; assert Row(3, 1, 3, size) in FileSet(s.version[1]); }
    assert Overlaps(s.version[1][0], None, None);
    c := t.running.value;
    ghost var front :| FileSet(front) <= FileSet(in0)
        && CutAt(Select(s.version[1], None, None), limits.maxFileSize, front);
    HoldsLittle(s, Ones(size), Twos(size), limits, size);
    WholeLevel(s.version[1], limits.maxFileSize, front);
    BeginKeepsInv(s, t, c);
    ReachedStep(s, t, step, limits);
  }
}
