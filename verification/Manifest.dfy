/** Replaying a manifest (leveldb/db/version_set.cc Builder, LogAndApply, Recover, WriteSnapshot). */
module Manifest {
  import opened Versions
  import opened VersionBuilder

  // ----- the builder object -----

  function NumbersAt(deletions: seq<(nat, nat)>, level: nat): set<nat> {
    set d | d in deletions && d.0 == level :: d.1
  }

  function FilesAt(news: seq<(nat, File)>, level: nat): seq<File> {
    if news == [] then []
    else
      var (l, f) := news[|news| - 1];
      FilesAt(news[..|news| - 1], level) + (if l == level then [f] else [])
  }

  function EditAt(deletions: seq<(nat, nat)>, news: seq<(nat, File)>, level: nat): LevelEdit {
    LevelEdit(NumbersAt(deletions, level), FilesAt(news, level))
  }

  const EMPTY := LevelState({}, [])

  class Builder {
    const base: Version
    var levels: seq<LevelState>

    constructor (base: Version)
      ensures this.base == base && |levels| == NUM_LEVELS
      ensures forall l :: 0 <= l < NUM_LEVELS ==> levels[l] == EMPTY
    {
      this.base := base;
      levels := seq(NUM_LEVELS, _ => EMPTY);
    }

    /** Apply: deletions first, then additions, each undoing a deletion of its number. */
    method Apply(deletions: seq<(nat, nat)>, news: seq<(nat, File)>)
      requires |levels| == NUM_LEVELS
      requires (forall d :: d in deletions ==> d.0 < NUM_LEVELS) && (forall n :: n in news ==> n.0 < NUM_LEVELS)
      modifies this
      ensures |levels| == NUM_LEVELS
      ensures forall l :: 0 <= l < NUM_LEVELS ==> levels[l] == ApplyLevel(old(levels[l]), EditAt(deletions, news, l))
    {
      for i := 0 to |deletions|
        invariant |levels| == NUM_LEVELS
        invariant forall l :: 0 <= l < NUM_LEVELS ==>
          levels[l] == old(levels[l]).(deleted := old(levels[l]).deleted + NumbersAt(deletions[..i], l))
      {
        var (level, number) := deletions[i];
        assert deletions[..i + 1] == deletions[..i] + [deletions[i]];
        levels := levels[level := levels[level].(deleted := levels[level].deleted + {number})];
      }
      assert deletions[..|deletions|] == deletions;
      for i := 0 to |news|
        invariant |levels| == NUM_LEVELS
        invariant forall l :: 0 <= l < NUM_LEVELS ==>
          levels[l] == ApplyLevel(old(levels[l]), EditAt(deletions, news[..i], l))
      {
        var (level, f) := news[i];
        assert news[..i + 1][..i] == news[..i];
        levels := levels[level := AddFile(levels[level], f)];
        forall l | 0 <= l < NUM_LEVELS
          ensures levels[l] == ApplyLevel(old(levels[l]), EditAt(deletions, news[..i + 1], l)) {
          if l == level {
            ApplyOneMore(old(levels[l]), deletions, FilesAt(news[..i], l), f, l);
          } else {
            assert FilesAt(news[..i + 1], l) == FilesAt(news[..i], l);
          }
        }
      }
      assert news[..|news|] == news;
    }

    /** SaveTo for one level: merge, dropping what is deleted. */
    method SaveOneLevel(level: nat) returns (files: seq<File>)
      requires |levels| == NUM_LEVELS && level < NUM_LEVELS
      ensures files == SaveLevel(base[level], levels[level])
    {
      var st := levels[level];
      files := SaveFrom([], base[level], st.added, st.deleted);
    }

    static method SaveFrom(start: seq<File>, base: seq<File>, added: seq<File>, deleted: set<nat>)
      returns (files: seq<File>)
      ensures files == start + Keep(Merge(base, added), deleted)
    {
      var baseLeft, addedLeft := base, added;
      files := start;
      while addedLeft != []
        invariant files + Keep(Merge(baseLeft, addedLeft), deleted) == start + Keep(Merge(base, added), deleted)
        decreases |addedLeft|
      {
        files, baseLeft := SaveUpTo(files, baseLeft, addedLeft, deleted);
        addedLeft := addedLeft[1..];
      }
      files := AddAll(files, baseLeft, deleted);
    }

    /** The base files up to an added file, then that file. */
    static method SaveUpTo(files: seq<File>, base: seq<File>, added: seq<File>, deleted: set<nat>)
      returns (files': seq<File>, base': seq<File>)
      requires added != []
      ensures files' + Keep(Merge(base', added[1..]), deleted) == files + Keep(Merge(base, added), deleted)
    {
      var bpos := UpperBound(base, added[0]);
      SaveStep(base, added, deleted);
      JoinKept(files, Keep(base[..bpos], deleted), added[0], deleted);
      var front := AddAll(files, base[..bpos], deleted);
      files' := MaybeAddFile(front, added[0], deleted);
      base' := base[bpos..];
    }

    static lemma JoinKept(files: seq<File>, kept: seq<File>, f: File, deleted: set<nat>)
      ensures MaybeAddFile(files + kept, f, deleted) == files + MaybeAddFile(kept, f, deleted)
    {
    }

    static function MaybeAddFile(files: seq<File>, f: File, deleted: set<nat>): seq<File> {
      if f.number in deleted then files else files + [f]
    }

    static method AddAll(files: seq<File>, more: seq<File>, deleted: set<nat>) returns (r: seq<File>)
      ensures r == files + Keep(more, deleted)
    {
      r := files;
      for i := 0 to |more|
        invariant r == files + Keep(more[..i], deleted)
      {
        assert more[..i + 1][..i] == more[..i];
        r := MaybeAddFile(r, more[i], deleted);
      }
      assert more[..|more|] == more;
    }
  }

  lemma SaveStep(base: seq<File>, added: seq<File>, deleted: set<nat>)
    requires added != []
    ensures Keep(Merge(base, added), deleted)
         == Builder.MaybeAddFile(Keep(base[..UpperBound(base, added[0])], deleted), added[0], deleted)
            + Keep(Merge(base[UpperBound(base, added[0])..], added[1..]), deleted)
  {
    var n := UpperBound(base, added[0]);
    KeepAppend(base[..n] + [added[0]], Merge(base[n..], added[1..]), deleted);
    KeepAppend(base[..n], [added[0]], deleted);
  }

  lemma ApplyOneMore(st: LevelState, deletions: seq<(nat, nat)>, files: seq<File>, f: File, level: nat)
    ensures ApplyLevel(st, LevelEdit(NumbersAt(deletions, level), files + [f]))
         == AddFile(ApplyLevel(st, LevelEdit(NumbersAt(deletions, level), files)), f)
  {
  }

  // ----- replay against step by step -----

  /** One builder for the whole manifest (Recover). */
  ghost function Gathered(edits: seq<LevelEdit>): LevelState {
    if edits == [] then EMPTY else ApplyLevel(Gathered(edits[..|edits| - 1]), edits[|edits| - 1])
  }

  ghost function Replayed(edits: seq<LevelEdit>): seq<File> {
    SaveLevel([], Gathered(edits))
  }

  /** A new version for each edit (LogAndApply). */
  ghost function Stepwise(edits: seq<LevelEdit>): seq<File> {
    if edits == [] then []
    else SaveLevel(Stepwise(edits[..|edits| - 1]), ApplyLevel(EMPTY, edits[|edits| - 1]))
  }

  ghost function Mentioned(edits: seq<LevelEdit>): set<File> {
    set e, f | e in edits && f in e.news :: f
  }

  ghost predicate AddsPresent(edits: seq<LevelEdit>, n: nat)
    requires n < |edits|
  {
    exists f :: f in edits[n].news && f in Stepwise(edits[..n])
  }

  lemma {:induction false} AddFilesEffect(st: LevelState, news: seq<File>)
    requires OrderedBySmallest(st.added) && Identified(FileSet(st.added) + FileSet(news))
    ensures var r := AddFiles(st, news);
            && OrderedBySmallest(r.added)
            && FileSet(r.added) == FileSet(st.added) + FileSet(news)
            && r.deleted == st.deleted - (set f | f in news :: f.number)
  {
    hide Insert, OrderedBySmallest, ValidFile;
    if news != [] {
      var n := |news| - 1;
      var init, f := news[..n], news[n];
      assert news == init + [f];
      assert FileSet(news) == FileSet(init) + {f};
      AddFilesEffect(st, init);
      var r := AddFiles(st, init);
      InsertKeepsOrder(r.added, f);
      forall g | g in r.added && !BySmallest(g, f) && !BySmallest(f, g) ensures g == f {
        assert g in FileSet(r.added);
      }
      InsertMembers(r.added, f);
      assert FileSet(Insert(r.added, f)) == FileSet(r.added) + {f};
    }
  }

  lemma MentionedStep(edits: seq<LevelEdit>)
    requires edits != []
    ensures Mentioned(edits) == Mentioned(edits[..|edits| - 1]) + FileSet(edits[|edits| - 1].news)
  {
  }

  lemma {:induction false} GatheredEffect(edits: seq<LevelEdit>)
    requires Identified(Mentioned(edits))
    ensures OrderedBySmallest(Gathered(edits).added) && FileSet(Gathered(edits).added) == Mentioned(edits)
  {
    if edits != [] {
      var init, e := edits[..|edits| - 1], edits[|edits| - 1];
      MentionedStep(edits);
      GatheredEffect(init);
      AddFilesEffect(Gathered(init).(deleted := Gathered(init).deleted + e.deleted), e.news);
    }
  }

  /** Two ordered lists of the same files are the same list. */
  lemma {:induction false} OrderedUnique(a: seq<File>, b: seq<File>)
    requires OrderedBySmallest(a) && OrderedBySmallest(b) && FileSet(a) == FileSet(b)
    ensures a == b
  {
    assert |b| > 0 ==> b[0] in FileSet(b);
    if a != [] {
      assert a[0] in FileSet(b);
      var j :| 0 <= j < |b| && b[j] == a[0];
      assert b[0] in FileSet(a);
      var i :| 0 <= i < |a| && a[i] == b[0];
      forall f ensures f in a[1..] <==> f in b[1..] {
        TailMembers(a, f);
        TailMembers(b, f);
        assert f in FileSet(a) <==> f in FileSet(b);
      }
      assert FileSet(a[1..]) == FileSet(b[1..]);
      OrderedUnique(a[1..], b[1..]);
      assert a == [a[0]] + a[1..] && b == [b[0]] + b[1..];
    }
  }

  lemma TailMembers(a: seq<File>, f: File)
    requires OrderedBySmallest(a) && a != []
    ensures f in a[1..] <==> f in a && f != a[0]
  {
  }

  ghost predicate Agrees(edits: seq<LevelEdit>) {
    && OrderedBySmallest(Stepwise(edits))
    && forall f :: f in Stepwise(edits) <==> f in Mentioned(edits) && f.number !in Gathered(edits).deleted
  }

  lemma AgreesIsEqual(edits: seq<LevelEdit>)
    requires Identified(Mentioned(edits)) && Agrees(edits)
    ensures Stepwise(edits) == Replayed(edits)
  {
    GatheredEffect(edits);
    var st := Gathered(edits);
    EmptyMerge(st.added);
    KeepOrdered(st.added, st.deleted);
    KeepMembers(st.added, st.deleted);
    forall f ensures f in FileSet(Stepwise(edits)) <==> f in FileSet(Replayed(edits)) {
      assert f in st.added <==> f in FileSet(st.added);
    }
    OrderedUnique(Stepwise(edits), Replayed(edits));
  }

  lemma {:induction false} EmptyMerge(added: seq<File>)
    ensures Merge([], added) == added
  {
    if added != [] {
      EmptyMerge(added[1..]);
    }
  }

  lemma EmptyOrdered()
    ensures OrderedBySmallest([])
  {
  }

  lemma StepAgrees(edits: seq<LevelEdit>)
    requires edits != [] && Identified(Mentioned(edits)) && Agrees(edits[..|edits| - 1])
             && !AddsPresent(edits, |edits| - 1)
    ensures Agrees(edits)
  {
    hide OrderedBySmallest, BySmallest; EmptyOrdered();
    var init, e := edits[..|edits| - 1], edits[|edits| - 1];
    var before, st := Stepwise(init), ApplyLevel(EMPTY, e);
    MentionedStep(edits);
    AddFilesEffect(EMPTY.(deleted := EMPTY.deleted + e.deleted), e.news);
    AddFilesEffect(Gathered(init).(deleted := Gathered(init).deleted + e.deleted), e.news) by { GatheredEffect(init); }
    assert FileSet(st.added) == FileSet(e.news);
    assert forall f :: f in FileSet(st.added) ==> f in e.news;
    MergeOrdered(before, st.added);
    MergeMembers(before, st.added);
    KeepOrdered(Merge(before, st.added), st.deleted);
    KeepMembers(Merge(before, st.added), st.deleted);
    forall f ensures f in Stepwise(edits) <==> f in Mentioned(edits) && f.number !in Gathered(edits).deleted {
      StepAgreesAt(edits, f);
    }
  }

  /** One file's fate under one more edit, told both ways. */
  lemma StepAgreesAt(edits: seq<LevelEdit>, f: File)
    requires edits != [] && Identified(Mentioned(edits))
    requires var init := edits[..|edits| - 1];
             f in Stepwise(init) <==> f in Mentioned(init) && f.number !in Gathered(init).deleted
    ensures f in Stepwise(edits) <==> f in Mentioned(edits) && f.number !in Gathered(edits).deleted
  {
    hide OrderedBySmallest, BySmallest, Merge, Keep, AddFiles, Insert; EmptyOrdered();
    var init, e := edits[..|edits| - 1], edits[|edits| - 1];
    var numbers := set g | g in e.news :: g.number;
    MentionedStep(edits);
    AddFilesEffect(EMPTY.(deleted := EMPTY.deleted + e.deleted), e.news);
    GatheredEffect(init);
    AddFilesEffect(Gathered(init).(deleted := Gathered(init).deleted + e.deleted), e.news);
    MergeMembers(Stepwise(init), ApplyLevel(EMPTY, e).added);
    KeepMembers(Merge(Stepwise(init), ApplyLevel(EMPTY, e).added), ApplyLevel(EMPTY, e).deleted);
    assert f in ApplyLevel(EMPTY, e).added <==> f in FileSet(e.news);
    if f.number in numbers && f in Mentioned(edits) {
      var g :| g in e.news && g.number == f.number;
      assert g in Mentioned(edits);
    }
  }

  /** With no edit adding a file its level already has, replay and stepwise agree throughout. */
  lemma {:induction false} ReplayAgrees(edits: seq<LevelEdit>)
    requires Identified(Mentioned(edits)) && forall n :: 0 <= n < |edits| ==> !AddsPresent(edits, n)
    ensures Agrees(edits) && Stepwise(edits) == Replayed(edits)
  {
    if edits != [] {
      var init := edits[..|edits| - 1];
      MentionedStep(edits);
      forall n | 0 <= n < |init| ensures !AddsPresent(init, n) {
        assert !AddsPresent(edits, n);
        assert init[..n] == edits[..n] && init[n] == edits[n];
      }
      ReplayAgrees(init);
      StepAgrees(edits);
    }
    AgreesIsEqual(edits);
  }

  // ----- and only then -----

  lemma {:induction false} KeepCount(files: seq<File>, deleted: set<nat>, f: File)
    requires f.number !in deleted
    ensures multiset(Keep(files, deleted))[f] == multiset(files)[f]
  {
    if files != [] {
      KeepCount(files[..|files| - 1], deleted, f);
      assert files == files[..|files| - 1] + [files[|files| - 1]];
    }
  }

  lemma {:induction false} MergeCount(base: seq<File>, added: seq<File>, f: File)
    ensures multiset(Merge(base, added))[f] == multiset(base)[f] + multiset(added)[f]
  {
    hide *;
    MergeUnfolds(base, added);
    if added != [] {
      var n := UpperBound(base, added[0]);
      MergeCount(base[n..], added[1..], f);
      SplitCount(base[..n], base[n..], f);
      CountAround(base[..n], added[0], Merge(base[n..], added[1..]), f);
      CountAround([], added[0], added[1..], f);
      assert base[..n] + base[n..] == base && [] + [added[0]] + added[1..] == added;
    }
  }

  lemma CountAround<T>(a: seq<T>, x: T, b: seq<T>, f: T)
    ensures multiset(a + [x] + b)[f] == multiset(a)[f] + multiset(b)[f] + if f == x then 1 else 0
  {
  }

  lemma SplitCount<T>(a: seq<T>, b: seq<T>, f: T)
    ensures multiset(a + b)[f] == multiset(a)[f] + multiset(b)[f]
  {
  }

  lemma {:induction false} OrderedCount(files: seq<File>, f: File)
    requires OrderedBySmallest(files)
    ensures multiset(files)[f] <= 1
  {
    if files != [] {
      OrderedCount(files[1..], f);
      TailMembers(files, f);
      assert files == [files[0]] + files[1..];
      assert f in multiset(files[1..]) <==> f in files[1..];
    }
  }

  lemma ReplayedOrdered(edits: seq<LevelEdit>)
    requires Identified(Mentioned(edits))
    ensures OrderedBySmallest(Replayed(edits))
  {
    GatheredEffect(edits);
    EmptyMerge(Gathered(edits).added);
    KeepOrdered(Gathered(edits).added, Gathered(edits).deleted);
  }

  /** Adding a file that is present makes the stepwise version list it twice. */
  lemma AddingPresentDiffers(edits: seq<LevelEdit>, n: nat)
    requires Identified(Mentioned(edits)) && n < |edits| && AddsPresent(edits, n)
    ensures Stepwise(edits[..n + 1]) != Replayed(edits[..n + 1])
  {
    var upTo, e := edits[..n + 1], edits[n];
    assert upTo[..n] == edits[..n];
    var f :| f in e.news && f in Stepwise(edits[..n]);
    MentionedPrefix(edits, n + 1);
    ReplayedOrdered(upTo);
    OrderedCount(Replayed(upTo), f);
    var st := ApplyLevel(EMPTY, e);
    assert FileSet(e.news) <= Mentioned(edits);
    AddFilesEffect(EMPTY.(deleted := EMPTY.deleted + e.deleted), e.news);
    assert f in FileSet(st.added);
    MergeCount(Stepwise(edits[..n]), st.added, f);
    KeepCount(Merge(Stepwise(edits[..n]), st.added), st.deleted, f);
    assert f in multiset(Stepwise(edits[..n])) && f in multiset(st.added);
  }

  lemma MentionedPrefix(edits: seq<LevelEdit>, n: nat)
    requires n <= |edits|
    ensures Mentioned(edits[..n]) <= Mentioned(edits)
  {
  }

  /** Manifest replay equals incremental application for every prefix of the manifest
      exactly when no edit adds a file that its level already has. */
  lemma ReplayExactly(edits: seq<LevelEdit>)
    requires Identified(Mentioned(edits))
    ensures (forall n :: 0 <= n <= |edits| ==> Stepwise(edits[..n]) == Replayed(edits[..n]))
       <==> (forall n :: 0 <= n < |edits| ==> !AddsPresent(edits, n))
  {
    if forall n :: 0 <= n < |edits| ==> !AddsPresent(edits, n) {
      forall n | 0 <= n <= |edits| ensures Stepwise(edits[..n]) == Replayed(edits[..n]) {
        MentionedPrefix(edits, n);
        forall m | 0 <= m < n ensures !AddsPresent(edits[..n], m) {
          assert edits[..n][..m] == edits[..m] && !AddsPresent(edits, m);
        }
        ReplayAgrees(edits[..n]);
      }
    } else {
      var n :| 0 <= n < |edits| && AddsPresent(edits, n);
      AddingPresentDiffers(edits, n);
      assert Stepwise(edits[..n + 1]) != Replayed(edits[..n + 1]);
    }
  }

  // ----- manifests that start with a snapshot -----

  /** WriteSnapshot: the current files, as one edit. */
  ghost function SnapshotEdit(files: seq<File>): LevelEdit {
    LevelEdit({}, files)
  }

  ghost function StepwiseFrom(start: seq<File>, edits: seq<LevelEdit>): seq<File> {
    if edits == [] then start
    else SaveLevel(StepwiseFrom(start, edits[..|edits| - 1]), ApplyLevel(EMPTY, edits[|edits| - 1]))
  }

  lemma {:induction false} SnapshotThenEdits(start: seq<File>, edits: seq<LevelEdit>)
    requires OrderedBySmallest(start) && Identified(FileSet(start))
    ensures Stepwise([SnapshotEdit(start)] + edits) == StepwiseFrom(start, edits)
  {
    var all := [SnapshotEdit(start)] + edits;
    if edits == [] {
      assert all[..0] == [];
      var st := ApplyLevel(EMPTY, SnapshotEdit(start));
      assert FileSet([]) + FileSet(start) == FileSet(start);
      AddFilesEffect(EMPTY.(deleted := EMPTY.deleted + SnapshotEdit(start).deleted), start);
      OrderedUnique(st.added, start);
      assert st.deleted == {};
      assert Stepwise([]) == [];
      EmptyMerge(start);
      KeepAll(start);
    } else {
      assert all[..|all| - 1] == [SnapshotEdit(start)] + edits[..|edits| - 1];
      SnapshotThenEdits(start, edits[..|edits| - 1]);
    }
  }

  lemma {:induction false} KeepAll(files: seq<File>)
    ensures Keep(files, {}) == files
  {
    if files != [] { KeepAll(files[..|files| - 1]); }
  }

  /** Reopening from a manifest that starts with a snapshot of `start` gives what applying
      the later edits to `start` one by one gave. */
  lemma ReplayFromSnapshot(start: seq<File>, edits: seq<LevelEdit>)
    requires OrderedBySmallest(start)
    requires var all := [SnapshotEdit(start)] + edits;
             Identified(Mentioned(all)) && forall n :: 1 <= n < |all| ==> !AddsPresent(all, n)
    ensures Replayed([SnapshotEdit(start)] + edits) == StepwiseFrom(start, edits)
  {
    var all := [SnapshotEdit(start)] + edits;
    assert all[0] == SnapshotEdit(start);
    forall f | f in FileSet(start) ensures f in Mentioned(all) { assert f in all[0].news; }
    assert all[..0] == [];
    assert !AddsPresent(all, 0);
    ReplayAgrees(all);
    SnapshotThenEdits(start, edits);
  }

  // ----- whole versions -----

  datatype VersionEdit = VersionEdit(deletions: seq<(nat, nat)>, news: seq<(nat, File)>)

  ghost predicate ValidEdit(e: VersionEdit) {
    (forall d :: d in e.deletions ==> d.0 < NUM_LEVELS) && (forall n :: n in e.news ==> n.0 < NUM_LEVELS)
  }

  ghost function EditsAt(edits: seq<VersionEdit>, level: nat): seq<LevelEdit> {
    seq(|edits|, i requires 0 <= i < |edits| => EditAt(edits[i].deletions, edits[i].news, level))
  }

  /** Recover: one builder over the whole manifest, saved once. */
  method RecoverVersion(edits: seq<VersionEdit>) returns (v: Version)
    requires forall e :: e in edits ==> ValidEdit(e)
    ensures forall l :: 0 <= l < NUM_LEVELS ==> v[l] == Replayed(EditsAt(edits, l))
  {
    hide OrderedBySmallest, BySmallest, ValidFile;
    var nothing: Version := [[], [], [], [], [], [], []];
    var builder := new Builder(nothing);
    for i := 0 to |edits|
      invariant fresh(builder) && |builder.levels| == NUM_LEVELS
      invariant forall l :: 0 <= l < NUM_LEVELS ==> builder.levels[l] == Gathered(EditsAt(edits[..i], l))
    {
      assert edits[i] in edits;
      builder.Apply(edits[i].deletions, edits[i].news);
      forall l | 0 <= l < NUM_LEVELS ensures builder.levels[l] == Gathered(EditsAt(edits[..i + 1], l)) {
        var es := EditsAt(edits[..i + 1], l);
        assert es[..|es| - 1] == EditsAt(edits[..i], l);
      }
    }
    assert edits[..|edits|] == edits;
    v := SaveAll(builder);
  }

  method SaveAll(builder: Builder) returns (v: Version)
    requires |builder.levels| == NUM_LEVELS
    ensures forall l :: 0 <= l < NUM_LEVELS ==> v[l] == SaveLevel(builder.base[l], builder.levels[l])
  {
    var files: seq<seq<File>> := [];
    for level := 0 to NUM_LEVELS
      invariant |files| == level
      invariant forall l :: 0 <= l < level ==> files[l] == SaveLevel(builder.base[l], builder.levels[l])
    {
      var f := builder.SaveOneLevel(level);
      files := files + [f];
    }
    v := files;
  }

  /** LogAndApply: the next version from the current one. */
  method LogAndApply(current: Version, e: VersionEdit) returns (v: Version)
    requires ValidEdit(e)
    ensures forall l :: 0 <= l < NUM_LEVELS ==>
              v[l] == SaveLevel(current[l], ApplyLevel(EMPTY, EditAt(e.deletions, e.news, l)))
  {
    var builder := new Builder(current);
    builder.Apply(e.deletions, e.news);
    v := SaveAll(builder);
  }
}
