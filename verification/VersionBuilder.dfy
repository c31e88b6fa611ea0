/** Applying version edits (leveldb/db/version_set.cc VersionSet::Builder). */
module VersionBuilder {
  import opened InternalKeys
  import opened Versions

  /** The order of std::set<FileMetaData*, BySmallestKey>. */
  predicate BySmallest(f: File, g: File) {
    Less(Smallest(f), Smallest(g)) || (Smallest(f) == Smallest(g) && f.number < g.number)
  }

  ghost predicate OrderedBySmallest(files: seq<File>) {
    forall i, j :: 0 <= i < j < |files| ==> BySmallest(files[i], files[j])
  }

  /** A level after an edit: the old files but the removed ones, and the added ones, in order. */
  ghost predicate Saved(base: seq<File>, removed: set<File>, added: set<File>, r: seq<File>) {
    OrderedBySmallest(r) && FileSet(r) == (FileSet(base) - removed) + added
  }

  /** What one edit says about one level. */
  datatype LevelEdit = LevelEdit(deleted: set<nat>, news: seq<File>)

  /** What the builder has gathered about one level. */
  datatype LevelState = LevelState(deleted: set<nat>, added: seq<File>)

  /** std::set::insert: nothing happens when an equivalent file is there. */
  function Insert(added: seq<File>, f: File): (r: seq<File>)
  {
    if added == [] || BySmallest(f, added[0]) then [f] + added
    else if !BySmallest(added[0], f) then added
    else [added[0]] + Insert(added[1..], f)
  }

  function AddFile(st: LevelState, f: File): LevelState {
    LevelState(st.deleted - {f.number}, Insert(st.added, f))
  }

  function AddFiles(st: LevelState, news: seq<File>): LevelState {
    if news == [] then st else AddFile(AddFiles(st, news[..|news| - 1]), news[|news| - 1])
  }

  function ApplyLevel(st: LevelState, e: LevelEdit): LevelState {
    AddFiles(st.(deleted := st.deleted + e.deleted), e.news)
  }

  function UpperBound(files: seq<File>, f: File): (n: nat)
    ensures n <= |files|
    ensures forall i :: 0 <= i < n ==> !BySmallest(f, files[i])
    ensures n < |files| ==> BySmallest(f, files[n])
  {
    if files == [] || BySmallest(f, files[0]) then 0 else 1 + UpperBound(files[1..], f)
  }

  /** MaybeAddFile for each file in turn. */
  function Keep(files: seq<File>, deleted: set<nat>): seq<File> {
    if files == [] then []
    else
      Keep(files[..|files| - 1], deleted) +
      (if files[|files| - 1].number in deleted then [] else [files[|files| - 1]])
  }

  /** Base files that do not come after an added file precede it. */
  function Merge(base: seq<File>, added: seq<File>): seq<File> {
    if added == [] then base
    else
      var n := UpperBound(base, added[0]);
      base[..n] + [added[0]] + Merge(base[n..], added[1..])
  }

  function SaveLevel(base: seq<File>, st: LevelState): seq<File> {
    Keep(Merge(base, st.added), st.deleted)
  }

  // ----- what the parts compute -----

  lemma {:induction false} KeepMembers(files: seq<File>, deleted: set<nat>)
    ensures forall f :: f in Keep(files, deleted) <==> f in files && f.number !in deleted
  {
    if files != [] {
      KeepMembers(files[..|files| - 1], deleted);
      assert files == files[..|files| - 1] + [files[|files| - 1]];
    }
  }

  lemma {:induction false} KeepOrdered(files: seq<File>, deleted: set<nat>)
    requires OrderedBySmallest(files)
    ensures OrderedBySmallest(Keep(files, deleted))
  {
    if files != [] {
      var n := |files| - 1;
      KeepOrdered(files[..n], deleted);
      KeepMembers(files[..n], deleted);
      var init := Keep(files[..n], deleted);
      forall i | 0 <= i < |init| ensures BySmallest(init[i], files[n]) {
        assert init[i] in files[..n];
      }
    }
  }

  lemma {:induction false} KeepAppend(a: seq<File>, b: seq<File>, deleted: set<nat>)
    ensures Keep(a + b, deleted) == Keep(a, deleted) + Keep(b, deleted)
  {
    if b == [] {
      assert a + b == a;
    } else {
      var n := |b| - 1;
      assert (a + b)[..|a + b| - 1] == a + b[..n];
      KeepAppend(a, b[..n], deleted);
    }
  }

  lemma {:induction false} InsertMembers(added: seq<File>, f: File)
    requires forall g :: g in added && !BySmallest(g, f) && !BySmallest(f, g) ==> g == f
    ensures forall g :: g in Insert(added, f) <==> g in added || g == f
  {
    if added != [] && !BySmallest(f, added[0]) && BySmallest(added[0], f) {
      InsertMembers(added[1..], f);
      assert added == [added[0]] + added[1..];
    }
  }

  lemma {:induction false} InsertKeepsOrder(added: seq<File>, f: File)
    requires OrderedBySmallest(added)
    ensures OrderedBySmallest(Insert(added, f))
    ensures forall g :: g in Insert(added, f) ==> g in added || g == f
  {
    if added != [] && !BySmallest(f, added[0]) && BySmallest(added[0], f) {
      InsertKeepsOrder(added[1..], f);
      assert added == [added[0]] + added[1..];
      var rest := Insert(added[1..], f);
      forall i | 0 <= i < |rest| ensures BySmallest(added[0], rest[i]) {
        assert rest[i] in rest;
      }
    }
  }

  lemma {:induction false} MergeMembers(base: seq<File>, added: seq<File>)
    ensures forall f :: f in Merge(base, added) <==> f in base || f in added
  {
    if added != [] {
      var n := UpperBound(base, added[0]);
      MergeMembers(base[n..], added[1..]);
      assert base == base[..n] + base[n..];
      assert added == [added[0]] + added[1..];
    }
  }

  lemma {:induction false} MergeLength(base: seq<File>, added: seq<File>)
    ensures |Merge(base, added)| == |base| + |added|
  {
    if added != [] { MergeLength(base[UpperBound(base, added[0])..], added[1..]); }
  }

  /** Files that compare equal are the same file: a number determines its metadata. */
  ghost predicate Identified(fs: set<File>) {
    forall f, g :: f in fs && g in fs && f.number == g.number ==> f == g
  }

  /** Merging two ordered lists that share no file gives an ordered list. */
  lemma MergeUnfolds(base: seq<File>, added: seq<File>)
    ensures added == [] ==> Merge(base, added) == base
    ensures added != [] ==>
              var n := UpperBound(base, added[0]);
              Merge(base, added) == base[..n] + [added[0]] + Merge(base[n..], added[1..])
  {
  }

  lemma FrontBefore(base: seq<File>, added: seq<File>, n: nat, g: File)
    requires Identified(FileSet(base) + FileSet(added)) && FileSet(base) !! FileSet(added) && added != []
    requires n == UpperBound(base, added[0]) && g in base[..n]
    ensures BySmallest(g, added[0])
  {
    var f := added[0];
    assert !BySmallest(f, g);
    assert f in FileSet(added) && g in FileSet(base);
    assert g != f && g.number != f.number;
  }

  lemma {:induction false} MergeOrdered(base: seq<File>, added: seq<File>)
    requires OrderedBySmallest(base) && OrderedBySmallest(added)
    requires Identified(FileSet(base) + FileSet(added)) && FileSet(base) !! FileSet(added)
    ensures OrderedBySmallest(Merge(base, added))
  {
    if added != [] {
      var n := UpperBound(base, added[0]);
      hide BySmallest, Merge, UpperBound;
      var front, back := base[..n], base[n..];
      var rest := Merge(back, added[1..]);
      MergeUnfolds(base, added);
      MergeMembers(back, added[1..]);
      assert FileSet(back) <= FileSet(base) && FileSet(added[1..]) <= FileSet(added);
      MergeOrdered(back, added[1..]);
      forall g | g in front ensures BySmallest(g, added[0]) { FrontBefore(base, added, n, g); }
      forall g | g in rest ensures BySmallest(added[0], g) { RestAfter(base, added, n, g); }
      OrderedJoin(front, added[0], rest);
    }
  }

  lemma RestAfter(base: seq<File>, added: seq<File>, n: nat, g: File)
    requires OrderedBySmallest(base) && OrderedBySmallest(added) && added != [] && n == UpperBound(base, added[0])
    requires g in base[n..] || g in added[1..]
    ensures BySmallest(added[0], g)
  {
  }

  lemma OrderedJoin(front: seq<File>, f: File, rest: seq<File>)
    requires OrderedBySmallest(front) && OrderedBySmallest(rest)
    requires forall g :: g in front ==> BySmallest(g, f)
    requires forall g :: g in rest ==> BySmallest(f, g)
    ensures OrderedBySmallest(front + [f] + rest)
  {
    var all := front + [f] + rest;
    forall i, j | 0 <= i < j < |all| ensures BySmallest(all[i], all[j]) {
      if i < |front| && j > |front| {
        assert all[i] in front && all[j] in rest;
      }
    }
  }

  /** SaveTo refines the relation the store's steps are stated with. */
  lemma SaveLevelSaves(base: seq<File>, removed: set<nat>, news: set<File>, st: LevelState)
    requires OrderedBySmallest(base) && OrderedBySmallest(st.added) && FileSet(st.added) == news
    requires Identified(FileSet(base) + news) && FileSet(base) !! news
    requires st.deleted == removed && forall f :: f in news ==> f.number !in removed
    ensures Saved(base, (set f | f in base && f.number in removed), news, SaveLevel(base, st))
  {
    MergeOrdered(base, st.added);
    MergeMembers(base, st.added);
    KeepOrdered(Merge(base, st.added), removed);
    KeepMembers(Merge(base, st.added), removed);
  }
}
