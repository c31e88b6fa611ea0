/** Choosing the inputs of a compaction (leveldb/db/version_set.cc). */
module Picking {
  import opened Options
  import opened InternalKeys
  import opened Versions

  // ----- properties of a chosen set of files -----

  /** Every file lies on one side of the user key c (c itself counts as left). */
  ghost predicate Splits(fs: set<File>, c: UserKey) {
    forall f :: f in fs ==> Hi(f) <= c || Lo(f) > c
  }

  ghost predicate OneSided(fs: set<File>, c: UserKey) {
    (forall f :: f in fs ==> Hi(f) <= c) || (forall f :: f in fs ==> Lo(f) > c)
  }

  /** The files form a chain of user-key ranges with no gap: none can be
      separated from the others by a user key. */
  ghost predicate Linked(fs: set<File>) {
    forall c {:trigger Splits(fs, c)} :: Splits(fs, c) ==> OneSided(fs, c)
  }

  /** A linked set that reaches from b to e. */
  ghost predicate Spans(fs: set<File>, b: UserKey, e: UserKey) {
    && Linked(fs)
    && (exists f :: f in fs && Lo(f) <= b)
    && (exists f :: f in fs && Hi(f) >= e)
  }

  /** Files that touch the span of a linked set link to it. */
  lemma LinkTouching(fs: set<File>, b: UserKey, e: UserKey, more: set<File>)
    requires Spans(fs, b, e)
    requires forall g :: g in more ==> Overlaps(g, Some(b), Some(e))
    ensures Linked(fs + more)
  {
    forall c | Splits(fs + more, c) ensures OneSided(fs + more, c) {
      assert Splits(fs, c);
      var f :| f in fs && Lo(f) <= b;
      var g :| g in fs && Hi(g) >= e;
      FileBounds(f, f.entries[0]);
      FileBounds(g, g.entries[0]);
    }
  }

  /** No file outside the set shares a user key range with a file inside. */
  ghost predicate Closed(files: seq<File>, chosen: set<File>) {
    forall f, g :: f in files && f !in chosen && g in chosen ==> Hi(f) < Lo(g) || Lo(f) > Hi(g)
  }

  ghost predicate BeforeAll(f: File, fs: set<File>) {
    forall g :: g in fs ==> Less(Largest(f), Smallest(g))
  }

  ghost predicate AfterAll(f: File, fs: set<File>) {
    forall g :: g in fs ==> Less(Largest(g), Smallest(f))
  }

  ghost predicate UserBeforeAll(f: File, fs: set<File>) {
    forall g :: g in fs ==> Hi(f) < Lo(g)
  }

  ghost predicate UserAfterAll(f: File, fs: set<File>) {
    forall g :: g in fs ==> Lo(f) > Hi(g)
  }

  /** A run of adjacent files of a sorted level. */
  ghost predicate Contiguous(files: seq<File>, chosen: set<File>) {
    forall f :: f in files && f !in chosen ==> BeforeAll(f, chosen) || AfterAll(f, chosen)
  }

  /** ... that no later file continues with the same user key. */
  ghost predicate Bracketed(files: seq<File>, chosen: set<File>) {
    forall f :: f in files && f !in chosen ==> BeforeAll(f, chosen) || UserAfterAll(f, chosen)
  }

  /** The files of level + 1 left alone stay clear of everything compacted into it. */
  ghost predicate ClearOf(f: File, in0: set<File>, in1: set<File>) {
    (UserBeforeAll(f, in0) && BeforeAll(f, in1)) || (UserAfterAll(f, in0) && UserAfterAll(f, in1))
  }

  ghost predicate Chosen(v: Version, level: nat, in0: set<File>, in1: set<File>) {
    && level + 1 < NUM_LEVELS
    && in0 != {}
    && in0 <= FileSet(v[level]) && in1 <= FileSet(v[level + 1])
    && (level == 0 ==> Closed(v[0], in0))
    && (level > 0 ==> Bracketed(v[level], in0))
    && (forall f :: f in v[level + 1] && f !in in1 ==> ClearOf(f, in0, in1))
  }

  // ----- GetOverlappingInputs -----

  function Select(files: seq<File>, begin: Option<UserKey>, end: Option<UserKey>): (r: seq<File>)
    ensures forall f :: f in r <==> f in files && Overlaps(f, begin, end)
  {
    if files == [] then []
    else
      var n := |files| - 1;
      assert files == files[..n] + [files[n]];
      Select(files[..n], begin, end) + (if Overlaps(files[n], begin, end) then [files[n]] else [])
  }

  lemma SelectNone(begin: Option<UserKey>, end: Option<UserKey>)
    ensures Select([], begin, end) == []
  {
  }

  lemma SelectSnoc(files: seq<File>, i: nat, begin: Option<UserKey>, end: Option<UserKey>)
    requires i < |files|
    ensures Select(files[..i + 1], begin, end)
         == Select(files[..i], begin, end) + if Overlaps(files[i], begin, end) then [files[i]] else []
  {
    assert files[..i + 1][..i] == files[..i];
  }

  ghost predicate Within(f: File, begin: Option<UserKey>, end: Option<UserKey>) {
    (begin.Some? ==> Lo(f) >= begin.value) && (end.Some? ==> Hi(f) <= end.value)
  }

  ghost function Stick(f: File, begin: Option<UserKey>, end: Option<UserKey>): nat {
    (if begin.Some? && Lo(f) < begin.value then 1 else 0) + (if end.Some? && Hi(f) > end.value then 1 else 0)
  }

  /** Number of file ends that reach beyond the range: what the restarts use up. */
  ghost function Sticking(files: seq<File>, begin: Option<UserKey>, end: Option<UserKey>): nat {
    if files == [] then 0 else Stick(files[0], begin, end) + Sticking(files[1..], begin, end)
  }

  ghost predicate Wider(begin: Option<UserKey>, end: Option<UserKey>, begin': Option<UserKey>, end': Option<UserKey>) {
    && begin.Some? == begin'.Some? && end.Some? == end'.Some?
    && (begin.Some? ==> begin'.value <= begin.value) && (end.Some? ==> end.value <= end'.value)
  }

  lemma {:induction false} StickingShrinks(files: seq<File>, b: Option<UserKey>, e: Option<UserKey>,
                                           b': Option<UserKey>, e': Option<UserKey>)
    requires Wider(b, e, b', e')
    ensures Sticking(files, b', e') <= Sticking(files, b, e)
  {
    if files != [] { StickingShrinks(files[1..], b, e, b', e'); }
  }

  lemma {:induction false} RestartShrinks(files: seq<File>, i: nat, b: Option<UserKey>, e: Option<UserKey>,
                                          b': Option<UserKey>, e': Option<UserKey>)
    requires Wider(b, e, b', e') && i < |files| && Stick(files[i], b', e') < Stick(files[i], b, e)
    ensures Sticking(files, b', e') < Sticking(files, b, e)
  {
    if i == 0 {
      StickingShrinks(files[1..], b, e, b', e');
    } else {
      RestartShrinks(files[1..], i - 1, b, e, b', e');
    }
  }

  /** The range after the level-0 scan has restarted for each file of `grown`. */
  ghost function Grow(begin: Option<UserKey>, end: Option<UserKey>, grown: seq<File>)
    : (Option<UserKey>, Option<UserKey>)
  {
    if grown == [] then (begin, end)
    else
      var (b, e) := Grow(begin, end, grown[..|grown| - 1]);
      var f := grown[|grown| - 1];
      if b.Some? && Lo(f) < b.value then (Some(Lo(f)), e)
      else if e.Some? && Hi(f) > e.value then (b, Some(Hi(f)))
      else (b, e)
  }

  /** Each of the files met the range that the ones before it had reached. */
  ghost predicate GrowsStepwise(begin: Option<UserKey>, end: Option<UserKey>, grown: seq<File>) {
    grown == [] ||
    var init := grown[..|grown| - 1];
    GrowsStepwise(begin, end, init) && Overlaps(grown[|grown| - 1], Grow(begin, end, init).0, Grow(begin, end, init).1)
  }

  /** GetOverlappingInputs.  At level 0 the range grows to every file picked up, and
      the scan restarts. */
  method GetOverlappingInputs(files: seq<File>, levelZero: bool, begin: Option<UserKey>, end: Option<UserKey>)
    returns (inputs: seq<File>, ghost grown: seq<File>)
    ensures inputs == Select(files, Grow(begin, end, grown).0, Grow(begin, end, grown).1)
    ensures !levelZero ==> grown == []
    ensures levelZero ==> forall f :: f in inputs ==> Within(f, Grow(begin, end, grown).0, Grow(begin, end, grown).1)
    ensures FileSet(grown) <= FileSet(files) && GrowsStepwise(begin, end, grown)
  {
    hide Less, Grow, GrowsStepwise, Sticking, Stick, Select, Overlaps;
    grown := [];
    inputs := [];
    var b, e := begin, end;
    var i := 0;
    NoGrowth(begin, end);
    SelectNone(b, e);
    while i < |files|
      invariant 0 <= i <= |files|
      invariant (b, e) == Grow(begin, end, grown)
      invariant !levelZero ==> grown == []
      invariant inputs == Select(files[..i], b, e)
      invariant levelZero ==> forall f :: f in inputs ==> Within(f, b, e)
      invariant FileSet(grown) <= FileSet(files) && GrowsStepwise(begin, end, grown)
      decreases Sticking(files, b, e), |files| - i
    {
      var f := files[i];
      SelectSnoc(files, i, b, e);
      i := i + 1;
      if Overlaps(f, b, e) {
        inputs := inputs + [f];
        if levelZero && ((b.Some? && Lo(f) < b.value) || (e.Some? && Hi(f) > e.value)) {
          RestartStep(files, i - 1, begin, end, grown);
          grown := grown + [f];
          if b.Some? && Lo(f) < b.value {
            b := Some(Lo(f));
          } else {
            e := Some(Hi(f));
          }
          inputs := [];
          i := 0;
          SelectNone(b, e);
        }
      }
    }
    assert files[..|files|] == files;
  }

  lemma NoGrowth(begin: Option<UserKey>, end: Option<UserKey>)
    ensures Grow(begin, end, []) == (begin, end) && GrowsStepwise(begin, end, [])
  {
  }

  /** A restart widens the range to the file at hand, which leaves fewer file ends beyond it. */
  lemma RestartStep(files: seq<File>, i: nat, begin: Option<UserKey>, end: Option<UserKey>, grown: seq<File>)
    requires i < |files| && GrowsStepwise(begin, end, grown) && FileSet(grown) <= FileSet(files)
    requires var (b, e) := Grow(begin, end, grown);
             Overlaps(files[i], b, e) && ((b.Some? && Lo(files[i]) < b.value) || (e.Some? && Hi(files[i]) > e.value))
    ensures var (b, e) := Grow(begin, end, grown);
            var (b', e') := if b.Some? && Lo(files[i]) < b.value then (Some(Lo(files[i])), e)
                else (b, Some(Hi(files[i])));
            && Grow(begin, end, grown + [files[i]]) == (b', e') && Sticking(files, b', e') < Sticking(files, b, e)
            && GrowsStepwise(begin, end, grown + [files[i]]) && FileSet(grown + [files[i]]) <= FileSet(files)
  {
    var (b, e) := Grow(begin, end, grown);
    GrowStep(begin, end, grown, files[i]);
    if b.Some? && Lo(files[i]) < b.value {
      RestartShrinks(files, i, b, e, Some(Lo(files[i])), e);
    } else {
      RestartShrinks(files, i, b, e, b, Some(Hi(files[i])));
    }
  }

  lemma GrowStep(begin: Option<UserKey>, end: Option<UserKey>, grown: seq<File>, f: File)
    requires GrowsStepwise(begin, end, grown)
    requires Overlaps(f, Grow(begin, end, grown).0, Grow(begin, end, grown).1)
    ensures GrowsStepwise(begin, end, grown + [f])
    ensures (grown + [f])[..|grown|] == grown
  {
  }

  /** Restarting links whatever is picked up to any linked set over the requested range. */
  lemma {:induction false} GrowthSpans(seed: set<File>, begin: UserKey, end: UserKey, grown: seq<File>)
    requires Spans(seed, begin, end) && GrowsStepwise(Some(begin), Some(end), grown)
    ensures Grow(Some(begin), Some(end), grown).0.Some? && Grow(Some(begin), Some(end), grown).1.Some?
    ensures Spans(seed + FileSet(grown), Grow(Some(begin), Some(end), grown).0.value,
            Grow(Some(begin), Some(end), grown).1.value)
  {
    if grown == [] {
      assert seed + FileSet(grown) == seed;
    } else {
      var n := |grown| - 1;
      var init, f := grown[..n], grown[n];
      GrowthSpans(seed, begin, end, init);
      var (b, e) := Grow(Some(begin), Some(end), init);
      GrowSeed(seed + FileSet(init), f, b.value, e.value);
      assert seed + FileSet(grown) == seed + FileSet(init) + {f};
    }
  }

  lemma OverlapsLink(seed: set<File>, files: seq<File>, begin: UserKey, end: UserKey, grown: seq<File>,
                     inputs: seq<File>)
    requires Spans(seed, begin, end) && GrowsStepwise(Some(begin), Some(end), grown)
    requires FileSet(grown) <= FileSet(files)
    requires inputs == Select(files, Grow(Some(begin), Some(end), grown).0, Grow(Some(begin), Some(end), grown).1)
    ensures Linked(seed + FileSet(grown) + FileSet(inputs))
  {
    GrowthSpans(seed, begin, end, grown);
    var (b, e) := Grow(Some(begin), Some(end), grown);
    LinkTouching(seed + FileSet(grown), b.value, e.value, FileSet(inputs));
  }

  /** The range only grows, so it takes in every file it grew by. */
  lemma {:induction false} GrowWidens(begin: Option<UserKey>, end: Option<UserKey>, grown: seq<File>)
    ensures Wider(begin, end, Grow(begin, end, grown).0, Grow(begin, end, grown).1)
    ensures GrowsStepwise(begin, end, grown) ==>
              forall f :: f in grown ==> Overlaps(f, Grow(begin, end, grown).0, Grow(begin, end, grown).1)
  {
    if grown != [] {
      var n := |grown| - 1;
      assert grown == grown[..n] + [grown[n]];
      GrowWidens(begin, end, grown[..n]);
    }
  }

  lemma GrowSeed(fs: set<File>, f: File, b: UserKey, e: UserKey)
    requires Spans(fs, b, e) && Overlaps(f, Some(b), Some(e))
    ensures Spans(fs + {f}, if Lo(f) < b then Lo(f) else b, e)
    ensures Spans(fs + {f}, b, if Hi(f) > e then Hi(f) else e)
  {
    LinkTouching(fs, b, e, {f});
    var g :| g in fs && Lo(g) <= b;
    var h :| h in fs && Hi(h) >= e;
    assert f in fs + {f} && g in fs + {f} && h in fs + {f};
  }

  /** At level 0 the selection leaves out only files that meet none of it. */
  lemma SelectionClosed(files: seq<File>, inputs: seq<File>, b: Option<UserKey>, e: Option<UserKey>)
    requires inputs == Select(files, b, e)
    requires forall f :: f in inputs ==> Within(f, b, e)
    ensures Closed(files, FileSet(inputs))
  {
  }

  /** Above level 0 it is a run of adjacent files. */
  lemma SelectionContiguous(files: seq<File>, b: Option<UserKey>, e: Option<UserKey>)
    requires SortedDisjoint(files)
    ensures Contiguous(files, FileSet(Select(files, b, e)))
  {
    var chosen := FileSet(Select(files, b, e));
    forall f | f in files && f !in chosen ensures BeforeAll(f, chosen) || AfterAll(f, chosen) {
      FileBounds(f, f.entries[0]);
      if b.Some? && Hi(f) < b.value {
        forall g | g in chosen ensures Less(Largest(f), Smallest(g)) { SortedPair(files, f, g); }
      } else {
        forall g | g in chosen ensures Less(Largest(g), Smallest(f)) { SortedPair(files, g, f); }
      }
    }
  }

  /** Two files of a sorted level are ordered one way or the other. */
  lemma SortedPair(files: seq<File>, f: File, g: File)
    requires SortedDisjoint(files) && f in files && g in files && f != g
    ensures Less(Largest(f), Smallest(g)) || (Less(Largest(g), Smallest(f)) && Hi(g) <= Lo(f))
  {
  }

  // ----- boundary files -----

  ghost function MaxKey(files: seq<File>): IKey
    requires files != []
  {
    var n := |files| - 1;
    if n == 0 || Less(MaxKey(files[..n]), Largest(files[n])) then Largest(files[n]) else MaxKey(files[..n])
  }

  lemma {:induction false} MaxKeyIsLargest(files: seq<File>) returns (top: File)
    requires files != []
    ensures top in files && Largest(top) == MaxKey(files)
    ensures forall f :: f in files ==> AtMost(Largest(f), MaxKey(files))
  {
    var n := |files| - 1;
    top := files[n];
    assert files == files[..n] + [files[n]];
    if n > 0 {
      var before := MaxKeyIsLargest(files[..n]);
      if !Less(MaxKey(files[..n]), Largest(files[n])) { top := before; }
    }
  }

  method FindLargestKey(files: seq<File>) returns (r: Option<IKey>)
    ensures r == if files == [] then None else Some(MaxKey(files))
  {
    if files == [] { return None; }
    var key := Largest(files[0]);
    for i := 1 to |files|
      invariant key == MaxKey(files[..i])
    {
      assert files[..i + 1][..i] == files[..i];
      if Less(key, Largest(files[i])) {
        key := Largest(files[i]);
      }
    }
    assert files[..|files|] == files;
    return Some(key);
  }

  /** f begins with older entries of the very user key that `key` ends with. */
  ghost predicate Continues(f: File, key: IKey) {
    Less(key, Smallest(f)) && Lo(f) == key.user
  }

  ghost predicate FirstToContinue(levelFiles: seq<File>, f: File, key: IKey) {
    && f in levelFiles && Continues(f, key)
    && forall g :: g in levelFiles && Continues(g, key) ==> AtMost(Smallest(f), Smallest(g))
  }

  method FindSmallestBoundaryFile(levelFiles: seq<File>, key: IKey) returns (r: Option<File>)
    ensures r.Some? ==> FirstToContinue(levelFiles, r.value, key)
    ensures r.None? ==> forall f :: f in levelFiles ==> !Continues(f, key)
  {
    r := None;
    for i := 0 to |levelFiles|
      invariant r.Some? ==> FirstToContinue(levelFiles[..i], r.value, key)
      invariant r.None? ==> forall f :: f in levelFiles[..i] ==> !Continues(f, key)
    {
      var f := levelFiles[i];
      assert levelFiles[..i + 1] == levelFiles[..i] + [f];
      if Less(key, Smallest(f)) && Lo(f) == key.user {
        if r.None? || Less(Smallest(f), Smallest(r.value)) {
          r := Some(f);
        }
      }
    }
    assert levelFiles[..|levelFiles|] == levelFiles;
  }

  ghost function FilesAfter(files: seq<File>, key: IKey): set<File> {
    set f | f in files && Less(key, Smallest(f))
  }

  /** From position `from` on, each file is the first to continue the largest key before it. */
  ghost predicate BoundaryChain(levelFiles: seq<File>, r: seq<File>, from: nat) {
    && 0 < from <= |r|
    && (from < |r| ==>
          var init := r[..|r| - 1];
          BoundaryChain(levelFiles, init, from) && FirstToContinue(levelFiles, r[|r| - 1], MaxKey(init)))
  }

  /** AddBoundaryInputs: extend by the files that continue the last user key, until none does. */
  method AddBoundaryInputs(levelFiles: seq<File>, chosen: seq<File>) returns (r: seq<File>)
    ensures chosen <= r
    ensures chosen == [] ==> r == []
    ensures chosen != [] ==> BoundaryChain(levelFiles, r, |chosen|)
    ensures chosen != [] ==> forall f :: f in levelFiles ==> !Continues(f, MaxKey(r))
  {
    r := chosen;
    var found := FindLargestKey(chosen);
    if found.None? { return; }
    var largest := found.value;
    while true
      invariant chosen <= r && largest == MaxKey(r)
      invariant BoundaryChain(levelFiles, r, |chosen|)
      decreases FilesAfter(levelFiles, largest)
    {
      var next := FindSmallestBoundaryFile(levelFiles, largest);
      if next.None? { return; }
      var f := next.value;
      FileBounds(f, f.entries[0]);
      ChainStep(levelFiles, r, |chosen|, f);
      assert f in FilesAfter(levelFiles, largest) && f !in FilesAfter(levelFiles, Largest(f));
      assert FilesAfter(levelFiles, Largest(f)) <= FilesAfter(levelFiles, largest);
      r := r + [f];
      largest := Largest(f);
    }
  }

  lemma ChainStep(levelFiles: seq<File>, r: seq<File>, from: nat, f: File)
    requires BoundaryChain(levelFiles, r, from) && FirstToContinue(levelFiles, f, MaxKey(r))
    ensures BoundaryChain(levelFiles, r + [f], from)
    ensures MaxKey(r + [f]) == Largest(f)
  {
  }

  /** In a sorted level the chain takes the next files, so the run stays contiguous. */
  lemma {:induction false} ChainContiguous(levelFiles: seq<File>, r: seq<File>, from: nat)
    requires SortedDisjoint(levelFiles) && BoundaryChain(levelFiles, r, from)
    requires Contiguous(levelFiles, FileSet(r[..from]))
    ensures Contiguous(levelFiles, FileSet(r))
    decreases |r|
  {
    hide Contiguous, SortedDisjoint, FirstToContinue, MaxKey;
    if from == |r| {
      assert r[..from] == r;
    } else {
      var n := |r| - 1;
      assert r[..n][..from] == r[..from];
      ChainContiguous(levelFiles, r[..n], from);
      ContiguousGrows(levelFiles, r[..n], r[n]);
      assert FileSet(r) == FileSet(r[..n]) + {r[n]};
    }
  }

  lemma ContiguousGrows(levelFiles: seq<File>, r: seq<File>, f: File)
    requires SortedDisjoint(levelFiles) && Contiguous(levelFiles, FileSet(r))
    requires r != [] && FirstToContinue(levelFiles, f, MaxKey(r))
    ensures Contiguous(levelFiles, FileSet(r) + {f})
  {
    var chosen := FileSet(r);
    var top := MaxKeyIsLargest(r);
    forall g | g in levelFiles && g !in chosen + {f}
      ensures BeforeAll(g, chosen + {f}) || AfterAll(g, chosen + {f})
    {
      SortedPair(levelFiles, f, g);
      FileBounds(g, g.entries[0]);
      FileBounds(f, f.entries[0]);
      FileBounds(top, top.entries[0]);
      if BeforeAll(g, chosen) {
        assert Less(Largest(g), Smallest(top));
      } else {
        assert Less(MaxKey(r), Smallest(g));
        if !Less(Largest(f), Smallest(g)) {
          assert Continues(g, MaxKey(r));
        }
      }
    }
  }

  lemma ContiguousIsBracketed(levelFiles: seq<File>, r: seq<File>)
    requires Contiguous(levelFiles, FileSet(r)) && r != []
    requires forall f :: f in levelFiles ==> !Continues(f, MaxKey(r))
    ensures Bracketed(levelFiles, FileSet(r))
  {
    var top := MaxKeyIsLargest(r);
    forall f | f in levelFiles && f !in FileSet(r) && AfterAll(f, FileSet(r)) ensures UserAfterAll(f, FileSet(r)) {
      assert top in FileSet(r);
      assert Lo(f) > MaxKey(r).user;
    }
  }

  /** Where the choice is already closed (level 0) there is nothing to continue. */
  lemma {:induction false} ClosedStays(levelFiles: seq<File>, r: seq<File>, from: nat)
    requires BoundaryChain(levelFiles, r, from) && Closed(levelFiles, FileSet(r[..from]))
    ensures |r| == from
    decreases |r|
  {
    if |r| > from {
      var n := |r| - 1;
      assert r[..n][..from] == r[..from];
      ClosedStays(levelFiles, r[..n], from);
      NoneContinuesClosed(levelFiles, r[..n], r[n]);
    }
  }

  lemma NoneContinuesClosed(levelFiles: seq<File>, chosen: seq<File>, f: File)
    requires chosen != [] && f in levelFiles && Continues(f, MaxKey(chosen))
    ensures !Closed(levelFiles, FileSet(chosen))
  {
    var top := MaxKeyIsLargest(chosen);
    FileBounds(f, f.entries[0]);
    FileBounds(top, top.entries[0]);
    assert f !in FileSet(chosen) && top in FileSet(chosen);
  }

  lemma {:induction false} ChainLinked(seed: set<File>, levelFiles: seq<File>, r: seq<File>, from: nat)
    requires BoundaryChain(levelFiles, r, from) && Linked(seed + FileSet(r[..from]))
    ensures Linked(seed + FileSet(r))
    decreases |r|
  {
    hide Linked, Less, MaxKey;
    if from == |r| {
      assert r[..from] == r;
    } else {
      var n := |r| - 1;
      assert r[..n][..from] == r[..from];
      ChainLinked(seed, levelFiles, r[..n], from);
      var top := MaxKeyIsLargest(r[..n]);
      LinkBoundary(seed + FileSet(r[..n]), top, r[n]);
      assert seed + FileSet(r) == seed + FileSet(r[..n]) + {r[n]};
    }
  }

  lemma LinkBoundary(fs: set<File>, g: File, f: File)
    requires Linked(fs) && g in fs && Lo(f) == Hi(g)
    ensures Linked(fs + {f})
  {
    FileBounds(g, g.entries[0]);
    FileBounds(f, f.entries[0]);
    assert Spans(fs, Lo(g), Hi(g));
    LinkTouching(fs, Lo(g), Hi(g), {f});
  }

  /** A bracketed choice that holds the start of a chain holds all of it. */
  lemma {:induction false} ChainInside(levelFiles: seq<File>, r: seq<File>, from: nat, chosen: set<File>)
    requires BoundaryChain(levelFiles, r, from) && Bracketed(levelFiles, chosen)
    requires FileSet(r[..from]) <= chosen
    ensures FileSet(r) <= chosen
    decreases |r|
  {
    if from == |r| {
      assert r[..from] == r;
    } else {
      var n := |r| - 1;
      assert r[..n][..from] == r[..from];
      ChainInside(levelFiles, r[..n], from, chosen);
      var top := MaxKeyIsLargest(r[..n]);
      assert top in FileSet(r[..n]);
      FileBounds(top, top.entries[0]);
      FileBounds(r[n], r[n].entries[0]);
      assert r[n] in chosen;
      assert r == r[..n] + [r[n]];
    }
  }

  // ----- putting a compaction together -----

  method GetRange(files: seq<File>) returns (lo: UserKey, hi: UserKey)
    requires files != []
    ensures forall f :: f in files ==> lo <= Lo(f) && Hi(f) <= hi
    ensures exists f :: f in files && Lo(f) == lo
    ensures exists f :: f in files && Hi(f) == hi
  {
    var smallest, largest := Smallest(files[0]), Largest(files[0]);
    ghost var first, last := files[0], files[0];
    for i := 1 to |files|
      invariant first in files[..i] && Smallest(first) == smallest
      invariant last in files[..i] && Largest(last) == largest
      invariant forall f :: f in files[..i] ==> AtMost(smallest, Smallest(f)) && AtMost(Largest(f), largest)
    {
      assert files[..i + 1] == files[..i] + [files[i]];
      if Less(Smallest(files[i]), smallest) {
        smallest, first := Smallest(files[i]), files[i];
      }
      if Less(largest, Largest(files[i])) {
        largest, last := Largest(files[i]), files[i];
      }
    }
    assert files[..|files|] == files;
    lo, hi := smallest.user, largest.user;
  }

  function TotalFileSize(files: seq<File>): nat {
    if files == [] then 0 else files[0].size + TotalFileSize(files[1..])
  }

  /** The two calls SetupOtherInputs makes for a level: every file that meets the
      range, then the files that continue it. */
  method InputsInRange(files: seq<File>, levelZero: bool, begin: UserKey, end: UserKey)
    returns (r: seq<File>, ghost grown: seq<File>, ghost from: nat)
    requires !levelZero ==> SortedDisjoint(files)
    ensures FileSet(r) <= FileSet(files)
    ensures forall f :: f in files && Overlaps(f, Some(begin), Some(end)) ==> f in r
    ensures levelZero ==> Closed(files, FileSet(r))
    ensures !levelZero ==> Bracketed(files, FileSet(r))
    ensures from <= |r| && (r != [] ==> BoundaryChain(files, r, from))
    ensures !levelZero ==> r[..from] == Select(files, Some(begin), Some(end))
    ensures FileSet(grown) <= FileSet(r) && GrowsStepwise(Some(begin), Some(end), grown)
    ensures r[..from] == Select(files, Grow(Some(begin), Some(end), grown).0, Grow(Some(begin), Some(end), grown).1)
  {
    var inputs;
    inputs, grown := GetOverlappingInputs(files, levelZero, Some(begin), Some(end));
    GrowWidens(Some(begin), Some(end), grown);
    from := |inputs|;
    r := AddBoundaryInputs(files, inputs);
    assert r[..from] == inputs;
    if inputs == [] {
    } else if levelZero {
      SelectionClosed(files, inputs, Grow(Some(begin), Some(end), grown).0, Grow(Some(begin), Some(end), grown).1);
      ClosedStays(files, r, from);
      assert r == inputs;
    } else {
      SelectionContiguous(files, Some(begin), Some(end));
      ChainContiguous(files, r, from);
      ContiguousIsBracketed(files, r);
      ChainMembers(files, r, from);
    }
  }

  lemma {:induction false} ChainMembers(levelFiles: seq<File>, r: seq<File>, from: nat)
    requires BoundaryChain(levelFiles, r, from) && FileSet(r[..from]) <= FileSet(levelFiles)
    ensures FileSet(r) <= FileSet(levelFiles)
    decreases |r|
  {
    if from == |r| {
      assert r[..from] == r;
    } else {
      var n := |r| - 1;
      assert r[..n][..from] == r[..from];
      ChainMembers(levelFiles, r[..n], from);
      assert r == r[..n] + [r[n]];
    }
  }

  lemma InputsLinked(seed: set<File>, files: seq<File>, begin: UserKey, end: UserKey, r: seq<File>, grown: seq<File>,
                     from: nat)
    requires Spans(seed, begin, end)
    requires FileSet(grown) <= FileSet(r) && FileSet(r) <= FileSet(files)
             && GrowsStepwise(Some(begin), Some(end), grown)
    requires from <= |r| && (r != [] ==> BoundaryChain(files, r, from))
    requires r[..from] == Select(files, Grow(Some(begin), Some(end), grown).0, Grow(Some(begin), Some(end), grown).1)
    ensures Linked(seed + FileSet(r))
  {
    OverlapsLink(seed, files, begin, end, grown, r[..from]);
    GrowWidens(Some(begin), Some(end), grown);
    assert seed + FileSet(grown) + FileSet(r[..from]) == seed + FileSet(r[..from]);
    if r == [] {
      assert r[..from] == r;
    } else {
      ChainLinked(seed, files, r, from);
    }
  }

  /** The next level's inputs leave its other files clear of the whole compaction. */
  lemma BelowIsClear(files: seq<File>, in0: seq<File>, begin: UserKey, end: UserKey, r: seq<File>, from: nat)
    requires forall f :: f in in0 ==> begin <= Lo(f) && Hi(f) <= end
    requires Bracketed(files, FileSet(r)) && from <= |r| && r[..from] == Select(files, Some(begin), Some(end))
    requires r != [] ==> 0 < from
    ensures forall f :: f in files && f !in r ==> ClearOf(f, FileSet(in0), FileSet(r))
  {
    forall f | f in files && f !in r ensures ClearOf(f, FileSet(in0), FileSet(r)) {
      assert f !in r[..from];
      assert !Overlaps(f, Some(begin), Some(end));
      FileBounds(f, f.entries[0]);
      if r != [] {
        var g := r[0];
        assert g in r[..from] && g in FileSet(r);
        FileBounds(g, g.entries[0]);
      }
    }
  }

  ghost predicate Startable(v: Version, level: nat, start: set<File>) {
    && level + 1 < NUM_LEVELS && start != {} && start <= FileSet(v[level])
    && (level == 0 ==> Closed(v[0], start))
    && (level > 0 ==> Contiguous(v[level], start))
  }

  ghost predicate LevelsSorted(v: Version) {
    forall l :: 1 <= l < NUM_LEVELS ==> SortedDisjoint(v[l])
  }

  /** What a start gains from the files that continue it. */
  lemma StartCompleted(files: seq<File>, levelZero: bool, start: seq<File>, in0: seq<File>)
    requires start != [] && start <= in0 && BoundaryChain(files, in0, |start|)
    requires forall f :: f in files ==> !Continues(f, MaxKey(in0))
    requires levelZero ==> Closed(files, FileSet(start))
    requires !levelZero ==> SortedDisjoint(files) && Contiguous(files, FileSet(start))
    ensures levelZero ==> Closed(files, FileSet(in0))
    ensures !levelZero ==> Bracketed(files, FileSet(in0))
  {
    assert in0[..|start|] == start;
    if levelZero {
      ClosedStays(files, in0, |start|);
      assert in0 == start;
    } else {
      ChainContiguous(files, in0, |start|);
      ContiguousIsBracketed(files, in0);
    }
  }

  lemma StartLinked(files: seq<File>, start: seq<File>, in0: seq<File>)
    requires start != [] && start <= in0 && BoundaryChain(files, in0, |start|)
    requires FileSet(start) <= FileSet(files)
    ensures FileSet(start) <= FileSet(in0) <= FileSet(files)
    ensures Linked(FileSet(start)) ==> Linked(FileSet(in0))
  {
    assert in0[..|start|] == start;
    ChainMembers(files, in0, |start|);
    assert {} + FileSet(start) == FileSet(start) && {} + FileSet(in0) == FileSet(in0);
    if Linked(FileSet(start)) {
      ChainLinked({}, files, in0, |start|);
    }
  }

  /** Whether f reaches into the range of user keys from the first to the last of some files. */
  ghost predicate MeetsRange(f: File, fs: set<File>) {
    exists a, b :: a in fs && b in fs && Lo(a) <= Hi(f) && Lo(f) <= Hi(b)
  }

  /** r is a choice of the level that takes in everything in the range of the files around. */
  ghost predicate Fetched(files: seq<File>, levelZero: bool, around: set<File>, r: seq<File>) {
    && FileSet(r) <= FileSet(files)
    && (forall f :: f in files && MeetsRange(f, around) ==> f in r)
    && (if levelZero then Closed(files, FileSet(r)) else Bracketed(files, FileSet(r)))
  }

  /** What SetupOtherInputs looks at: the start with the files that continue it, the files of the next level that
      meet it, then the wider choice of the level and what that would ask of the next. */
  datatype Growth = Growth(base: seq<File>, met: seq<File>, wide: seq<File>, below: seq<File>)

  /** The wider choice is taken exactly when it is affordable and asks for no more of the next level. */
  ghost predicate GrowsTo(v: Version, level: nat, g: Growth, in0: seq<File>, expandedLimit: nat)
    requires level + 1 < NUM_LEVELS
  {
    && Fetched(v[level], level == 0, FileSet(g.base) + FileSet(g.met), g.wide)
    && var larger := |g.wide| > |g.base| && TotalFileSize(g.met) + TotalFileSize(g.wide) < expandedLimit;
       && (larger ==> Fetched(v[level + 1], false, FileSet(g.wide), g.below))
       && in0 == if larger && FileSet(g.below) == FileSet(g.met) then g.wide else g.base
  }

  /** The two tests before the next level is looked at again. */
  predicate Affordable(g: Growth, expandedLimit: nat) {
    |g.wide| > |g.base| && TotalFileSize(g.met) + TotalFileSize(g.wide) < expandedLimit
  }

  /** SetupOtherInputs: complete a starting set to the inputs of a compaction.
      A linked start stays linked, also when the level's inputs are grown. */
  method SetupOtherInputs(v: Version, level: nat, start: seq<File>, expandedLimit: nat)
    returns (in0: seq<File>, in1: seq<File>, ghost g: Growth)
    requires LevelsSorted(v) && Startable(v, level, FileSet(start))
    ensures Chosen(v, level, FileSet(in0), FileSet(in1))
    ensures FileSet(start) <= FileSet(in0)
    ensures Linked(FileSet(start)) ==> Linked(FileSet(in0) + FileSet(in1))
    ensures start <= g.base && BoundaryChain(v[level], g.base, |start|)
    ensures forall f :: f in v[level] ==> !Continues(f, MaxKey(g.base))
    ensures Fetched(v[level + 1], false, FileSet(g.base), g.met) && FileSet(in1) == FileSet(g.met)
    ensures if g.met == [] then in0 == g.base else GrowsTo(v, level, g, in0, expandedLimit)
  {
    hide Less, Linked, SortedDisjoint, BoundaryChain, Fetched, GrowsTo, MaxKey;
    in0 := AddBoundaryInputs(v[level], start);
    ghost var someFile :| someFile in FileSet(start);
    StartCompleted(v[level], level == 0, start, in0);
    StartLinked(v[level], start, in0);
    var lo, hi := GetRange(in0);
    ghost var grown1, from1;
    in1, grown1, from1 := InputsInRange(v[level + 1], false, lo, hi);
    RangeFetched(v[level + 1], false, in0, lo, hi, in1);
    BelowIsClear(v[level + 1], in0, lo, hi, in1, from1);
    g := Growth(in0, in1, [], []);
    if Linked(FileSet(start)) {
      assert Spans(FileSet(in0), lo, hi);
      InputsLinked(FileSet(in0), v[level + 1], lo, hi, in1, grown1, from1);
    }
    assert FileSet(start) != {};
    if in1 != [] {
      in0, in1, g := TryExpand(v, level, in0, in1, lo, hi, from1, expandedLimit);
    }
  }

  lemma RangeFetched(files: seq<File>, levelZero: bool, around: seq<File>, lo: UserKey, hi: UserKey, r: seq<File>)
    requires FileSet(r) <= FileSet(files) && if levelZero then Closed(files, FileSet(r))
             else Bracketed(files, FileSet(r))
    requires forall f :: f in around ==> lo <= Lo(f) && Hi(f) <= hi
    requires forall f :: f in files && Overlaps(f, Some(lo), Some(hi)) ==> f in r
    ensures Fetched(files, levelZero, FileSet(around), r)
  {
    forall f | f in files && MeetsRange(f, FileSet(around)) ensures f in r {
      assert Overlaps(f, Some(lo), Some(hi));
    }
  }

  ghost predicate Distinct(files: seq<File>) {
    forall i, j :: 0 <= i < j < |files| ==> files[i] != files[j]
  }

  lemma {:induction false} DistinctSize(files: seq<File>)
    requires Distinct(files)
    ensures |FileSet(files)| == |files|
  {
    if files == [] {
      assert FileSet(files) == {};
    } else {
      var n := |files| - 1;
      DistinctSize(files[..n]);
      assert files[n] !in FileSet(files[..n]);
      assert FileSet(files) == FileSet(files[..n]) + {files[n]};
    }
  }

  lemma SortedIsDistinct(files: seq<File>)
    requires SortedDisjoint(files)
    ensures Distinct(files)
  {
    forall i, j | 0 <= i < j < |files| ensures files[i] != files[j] { LargestAscends(files, i, j); }
  }

  /** A file that continues a choice is not yet in it. */
  lemma {:induction false} ChainDistinct(levelFiles: seq<File>, r: seq<File>, from: nat)
    requires BoundaryChain(levelFiles, r, from) && Distinct(r[..from])
    ensures Distinct(r)
    decreases |r|
  {
    if from == |r| {
      assert r[..from] == r;
    } else {
      var n := |r| - 1;
      assert r[..n][..from] == r[..from];
      ChainDistinct(levelFiles, r[..n], from);
      var top := MaxKeyIsLargest(r[..n]);
      FileBounds(r[n], r[n].entries[0]);
      assert r[n] !in r[..n];
    }
  }

  /** For inputs above level 0, one set of files inside another of the same length is the same set. */
  lemma SameInputs(files: seq<File>, a: seq<File>, fromA: nat, b: seq<File>, fromB: nat)
    requires BoundaryChain(files, a, fromA) && Distinct(a[..fromA])
    requires BoundaryChain(files, b, fromB) && Distinct(b[..fromB])
    requires FileSet(a) <= FileSet(b)
    ensures |a| == |b| <==> FileSet(a) == FileSet(b)
  {
    ChainDistinct(files, a, fromA);
    ChainDistinct(files, b, fromB);
    DistinctSize(a);
    DistinctSize(b);
    if |a| == |b| {
      assert |FileSet(b) - FileSet(a)| == 0;
    }
  }

  lemma SelectDistinct(files: seq<File>, b: Option<UserKey>, e: Option<UserKey>)
    requires SortedDisjoint(files)
    ensures Distinct(Select(files, b, e))
  {
    SelectSorted(files, b, e);
    SortedIsDistinct(Select(files, b, e));
  }

  /** The second half of SetupOtherInputs: take all the files of the level in the range of both
      sets of inputs, if that stays below the limit and asks for no more of the next level. */
  method TryExpand(v: Version, level: nat, in0: seq<File>, in1: seq<File>, lo: UserKey, hi: UserKey, ghost from1: nat,
                   expandedLimit: nat)
    returns (out0: seq<File>, out1: seq<File>, ghost g: Growth)
    requires LevelsSorted(v) && Chosen(v, level, FileSet(in0), FileSet(in1)) && in1 != []
    requires forall f :: f in in0 ==> lo <= Lo(f) && Hi(f) <= hi
    requires (exists f :: f in in0 && Lo(f) == lo) && (exists f :: f in in0 && Hi(f) == hi)
    requires from1 <= |in1| && BoundaryChain(v[level + 1], in1, from1)
             && in1[..from1] == Select(v[level + 1], Some(lo), Some(hi))
    ensures Chosen(v, level, FileSet(out0), FileSet(out1))
    ensures FileSet(in0) <= FileSet(out0)
    ensures Linked(FileSet(in0) + FileSet(in1)) ==> Linked(FileSet(out0) + FileSet(out1))
    ensures FileSet(out1) == FileSet(in1)
    ensures g.base == in0 && g.met == in1 && GrowsTo(v, level, g, out0, expandedLimit)
  {
    hide Linked, BoundaryChain, Overlaps, Select, ClearOf, Less, SortedDisjoint, Bracketed, Closed, Fetched, Distinct;
    out0, out1 := in0, in1;
    var allLo, allHi := GetRange(in0 + in1);
    var expanded0; ghost var grown0, from0;
    expanded0, grown0, from0 := InputsInRange(v[level], level == 0, allLo, allHi);
    RangeInside(in0, in1, v[level], allLo, allHi, expanded0);
    RangeFetched(v[level], level == 0, in0 + in1, allLo, allHi, expanded0);
    g := Growth(in0, in1, expanded0, []);
    assert FileSet(in0 + in1) == FileSet(in0) + FileSet(in1);
    if |expanded0| > |in0| && TotalFileSize(in1) + TotalFileSize(expanded0) < expandedLimit {
      var newLo, newHi := GetRange(expanded0);
      var expanded1; ghost var grown2, from2;
      expanded1, grown2, from2 := InputsInRange(v[level + 1], false, newLo, newHi);
      RangeFetched(v[level + 1], false, expanded0, newLo, newHi, expanded1);
      g := g.(below := expanded1);
      NarrowerRange(in0, expanded0, lo, hi, newLo, newHi);
      ExpandedHolds(v[level + 1], lo, hi, newLo, newHi, in1, from1, expanded1, from2);
      SelectDistinct(v[level + 1], Some(lo), Some(hi));
      SelectDistinct(v[level + 1], Some(newLo), Some(newHi));
      assert in1[0] in FileSet(in1);
      SameInputs(v[level + 1], in1, from1, expanded1, from2);
      if |expanded1| == |in1| {
        BelowIsClear(v[level + 1], expanded0, newLo, newHi, expanded1, from2);
        if Linked(FileSet(in0) + FileSet(in1)) {
          ghost var all := FileSet(in0 + in1);
          assert FileSet(in0) + FileSet(in1) == all;
          InputsLinked(all, v[level], allLo, allHi, expanded0, grown0, from0);
          ExpandedLinked(all, in0, in1, expanded0, expanded1, newLo, newHi, v[level + 1], grown2, from2);
        }
        out0, out1 := expanded0, expanded1;
      }
    }
  }

  lemma NarrowerRange(in0: seq<File>, expanded0: seq<File>, lo: UserKey, hi: UserKey, lo': UserKey, hi': UserKey)
    requires FileSet(in0) <= FileSet(expanded0)
    requires (exists f :: f in in0 && Lo(f) == lo) && (exists f :: f in in0 && Hi(f) == hi)
    requires forall f :: f in expanded0 ==> lo' <= Lo(f) && Hi(f) <= hi'
    ensures lo' <= lo && hi <= hi'
  {
    var f :| f in in0 && Lo(f) == lo;
    var g :| g in in0 && Hi(g) == hi;
    assert f in FileSet(in0) && g in FileSet(in0);
  }

  lemma RangeInside(in0: seq<File>, in1: seq<File>, files: seq<File>, lo: UserKey, hi: UserKey, expanded0: seq<File>)
    requires FileSet(in0) <= FileSet(files)
    requires forall f :: f in in0 + in1 ==> lo <= Lo(f) && Hi(f) <= hi
    requires forall f :: f in files && Overlaps(f, Some(lo), Some(hi)) ==> f in expanded0
    ensures FileSet(in0) <= FileSet(expanded0)
  {
  }

  /** The grown range asks for no less of the next level. */
  lemma ExpandedHolds(files: seq<File>, lo: UserKey, hi: UserKey, lo': UserKey, hi': UserKey,
                      in1: seq<File>, from1: nat, expanded1: seq<File>, from2: nat)
    requires lo' <= lo && hi <= hi'
    requires in1 != [] && from1 <= |in1| && BoundaryChain(files, in1, from1)
             && in1[..from1] == Select(files, Some(lo), Some(hi))
    requires Bracketed(files, FileSet(expanded1)) && from2 <= |expanded1|
    requires expanded1[..from2] == Select(files, Some(lo'), Some(hi'))
    ensures FileSet(in1) <= FileSet(expanded1)
  {
    forall f | f in in1[..from1] ensures f in FileSet(expanded1) {
      assert Overlaps(f, Some(lo'), Some(hi'));
      assert f in expanded1[..from2];
    }
    ChainInside(files, in1, from1, FileSet(expanded1));
  }

  lemma ExpandedLinked(all: set<File>, in0: seq<File>, in1: seq<File>, expanded0: seq<File>, expanded1: seq<File>,
                       lo: UserKey, hi: UserKey, files: seq<File>, grown: seq<File>, from: nat)
    requires all == FileSet(in0) + FileSet(in1)
    requires FileSet(in0) <= FileSet(expanded0) && FileSet(in1) <= FileSet(expanded1)
    requires Linked(all + FileSet(expanded0))
    requires exists f :: f in expanded0 && Lo(f) == lo
    requires exists f :: f in expanded0 && Hi(f) == hi
    requires FileSet(grown) <= FileSet(expanded1) && FileSet(expanded1) <= FileSet(files)
             && GrowsStepwise(Some(lo), Some(hi), grown)
    requires from <= |expanded1| && (expanded1 != [] ==> BoundaryChain(files, expanded1, from))
    requires expanded1[..from] == Select(files, Grow(Some(lo), Some(hi), grown).0, Grow(Some(lo), Some(hi), grown).1)
    ensures Linked(FileSet(expanded0) + FileSet(expanded1))
  {
    var seed := all + FileSet(expanded0);
    assert forall f :: f in expanded0 ==> f in seed;
    assert Spans(seed, lo, hi);
    InputsLinked(seed, files, lo, hi, expanded1, grown, from);
    assert seed + FileSet(expanded1) == FileSet(expanded0) + FileSet(expanded1);
  }

  /** At level 0 the picked file brings along everything it overlaps, directly or through others. */
  method OverlappingLevelZero(files: seq<File>, f: File) returns (picked: seq<File>)
    requires f in files
    ensures f in picked && FileSet(picked) <= FileSet(files)
    ensures Closed(files, FileSet(picked)) && Linked(FileSet(picked))
  {
    hide Less, Grow, GrowsStepwise, Closed, Select;
    FileBounds(f, f.entries[0]);
    ghost var grown;
    picked, grown := GetOverlappingInputs(files, true, Some(Lo(f)), Some(Hi(f)));
    GrowWidens(Some(Lo(f)), Some(Hi(f)), grown);
    SelectionClosed(files, picked, Grow(Some(Lo(f)), Some(Hi(f)), grown).0, Grow(Some(Lo(f)), Some(Hi(f)), grown).1);
    OverlapsLink({f}, files, Lo(f), Hi(f), grown, picked);
    assert {f} + FileSet(grown) + FileSet(picked) == FileSet(picked);
  }

  predicate PastPointer(pointer: Option<IKey>, f: File) {
    pointer.None? || Less(pointer.value, Largest(f))
  }

  /** Without a pointer the first file.  With one, the first file whose largest key comes after the pointer, or the
      first file when every file ends at or before it. */
  ghost predicate IsNext(files: seq<File>, pointer: Option<IKey>, f: File) {
    match pointer
    case None => files != [] && f == files[0]
    case Some(key) =>
      exists i :: 0 <= i < |files| && f == files[i] &&
        if Less(key, Largest(f)) then forall j :: 0 <= j < i ==> AtMost(Largest(files[j]), key)
        else i == 0 && forall j :: 0 <= j < |files| ==> AtMost(Largest(files[j]), key)
  }

  /** The file after the one that the pointer has passed, and the first file again when the pointer has passed the
      last. */
  ghost predicate Rotates(files: seq<File>, key: IKey, f: File) {
    && files != []
    && (forall i, j :: 0 <= i < j < |files| && j == i + 1 ==>
          AtMost(Largest(files[i]), key) && Less(key, Largest(files[j])) ==> f == files[j])
    && (Less(key, Largest(files[0])) || AtMost(Largest(files[|files| - 1]), key) ==> f == files[0])
  }

  /** On a sorted level that is the next one. */
  lemma NextRotates(files: seq<File>, key: IKey, f: File)
    requires SortedDisjoint(files) && IsNext(files, Some(key), f)
    ensures Rotates(files, key, f)
  {
    forall a, b | 0 <= a < b < |files| ensures Less(Largest(files[a]), Largest(files[b])) {
      FileBounds(files[b], files[b].entries[0]);
    }
  }

  method NextToCompact(files: seq<File>, pointer: Option<IKey>) returns (f: File)
    requires files != []
    ensures f in files && IsNext(files, pointer, f)
  {
    for i := 0 to |files|
      invariant forall j :: 0 <= j < i ==> pointer.Some? && AtMost(Largest(files[j]), pointer.value)
    {
      if PastPointer(pointer, files[i]) {
        return files[i];
      }
    }
    return files[0];
  }

  /** The file that too many seeks went through, or the next one past the pointer. */
  method StartWith(v: Version, level: nat, pointer: Option<IKey>, seekFile: Option<File>) returns (f: File)
    requires LevelsSorted(v) && level < NUM_LEVELS && v[level] != []
    requires seekFile.Some? ==> seekFile.value in v[level]
    ensures f in v[level] && if seekFile.Some? then f == seekFile.value else IsNext(v[level], pointer, f)
    ensures level > 0 && seekFile.None? && pointer.Some? ==> Rotates(v[level], pointer.value, f)
  {
    hide IsNext, Rotates, Less;
    if seekFile.Some? {
      return seekFile.value;
    }
    f := NextToCompact(v[level], pointer);
    if level > 0 && pointer.Some? {
      NextRotates(v[level], pointer.value, f);
    }
  }

  /** PickCompaction: one file of the level (the next one past the compaction
      pointer, or the one too many seeks went through), completed. */
  method PickCompaction(v: Version, level: nat, pointer: Option<IKey>, seekFile: Option<File>, expandedLimit: nat)
    returns (in0: seq<File>, in1: seq<File>, ghost start: File)
    requires LevelsSorted(v) && level + 1 < NUM_LEVELS && v[level] != []
    requires seekFile.Some? ==> seekFile.value in v[level]
    ensures Chosen(v, level, FileSet(in0), FileSet(in1))
    ensures Linked(FileSet(in0) + FileSet(in1))
    ensures start in in0 && if seekFile.Some? then start == seekFile.value else IsNext(v[level], pointer, start)
    ensures level > 0 && seekFile.None? && pointer.Some? ==> Rotates(v[level], pointer.value, start)
  {
    hide IsNext, Rotates;
    var f := StartWith(v, level, pointer, seekFile);
    start := f;
    var picked := [f];
    FileBounds(f, f.entries[0]);
    assert FileSet([f]) == {f};
    if level == 0 {
      picked := OverlappingLevelZero(v[0], f);
    } else {
      forall g | g in v[level] && g != f ensures BeforeAll(g, {f}) || AfterAll(g, {f}) { SortedPair(v[level], f, g); }
    }
    assert f in FileSet(picked);
    ghost var g;
    in0, in1, g := SetupOtherInputs(v, level, picked, expandedLimit);
    assert f in FileSet(in0);
  }

  lemma {:induction false} SelectSorted(files: seq<File>, b: Option<UserKey>, e: Option<UserKey>)
    requires SortedDisjoint(files)
    ensures SortedDisjoint(Select(files, b, e))
  {
    if files != [] {
      var n := |files| - 1;
      SelectSorted(files[..n], b, e);
      var init := Select(files[..n], b, e);
      forall i | 0 <= i < |init| ensures Less(Largest(init[i]), Smallest(files[n])) {
        assert init[i] in files[..n];
      }
    }
  }

  /** Cutting a manual choice short leaves it a run of adjacent files. */
  lemma PrefixContiguous(files: seq<File>, inputs: seq<File>, n: nat)
    requires SortedDisjoint(inputs) && n <= |inputs|
    requires Contiguous(files, FileSet(inputs))
    ensures Contiguous(files, FileSet(inputs[..n]))
  {
  }

  lemma {:induction false} SizeSnoc(files: seq<File>, f: File)
    ensures TotalFileSize(files + [f]) == TotalFileSize(files) + f.size
  {
    if files == [] {
      assert files + [f] == [f];
    } else {
      SizeSnoc(files[1..], f);
      assert (files + [f])[1..] == files[1..] + [f];
    }
  }

  /** The shortest front of a list whose size reaches the limit, or all of it. */
  ghost predicate CutAt(files: seq<File>, limit: nat, front: seq<File>) {
    && front <= files && front != []
    && (front == files || TotalFileSize(front) >= limit)
    && (1 < |front| ==> TotalFileSize(front[..|front| - 1]) < limit)
  }

  method CutShort(files: seq<File>, limit: nat) returns (front: seq<File>)
    requires files != []
    ensures CutAt(files, limit, front)
  {
    var total := 0;
    for i := 0 to |files|
      invariant total == TotalFileSize(files[..i])
      invariant 0 < i ==> total < limit
      invariant 1 < i ==> TotalFileSize(files[..i - 1]) < limit
    {
      total := total + files[i].size;
      SizeSnoc(files[..i], files[i]);
      assert files[..i + 1] == files[..i] + [files[i]];
      if total >= limit {
        assert files[..i + 1][..i] == files[..i];
        return files[..i + 1];
      }
    }
    assert files[..|files|] == files;
    return files;
  }

  /** CompactRange: a manual compaction starts from everything in the range, cut
      short above level 0 once it is large enough.  Nothing makes its inputs linked. */
  method CompactRange(v: Version, level: nat, begin: Option<UserKey>, end: Option<UserKey>, maxFileSize: nat,
                      expandedLimit: nat)
    returns (found: bool, in0: seq<File>, in1: seq<File>, ghost front: seq<File>)
    requires LevelsSorted(v) && level + 1 < NUM_LEVELS
    ensures found ==> Chosen(v, level, FileSet(in0), FileSet(in1))
    ensures found <==> exists i :: 0 <= i < |v[level]| && Overlaps(v[level][i], begin, end)
    ensures found && level == 0 ==> FileSet(Select(v[0], begin, end)) <= FileSet(in0)
    ensures found && level > 0 ==>
              CutAt(Select(v[level], begin, end), maxFileSize, front) && FileSet(front) <= FileSet(in0)
  {
    hide Less, SortedDisjoint, Linked, Bracketed, ClearOf, TotalFileSize, GrowsStepwise, Select, Chosen;
    in0, in1, front := [], [], [];
    var inputs; ghost var grown;
    inputs, grown := GetOverlappingInputs(v[level], level == 0, begin, end);
    GrowWidens(begin, end, grown);
    found := inputs != [];
    SomethingFound(v[level], begin, end, grown, inputs);
    if found {
      if level > 0 {
        SelectSorted(v[level], begin, end);
        SelectionContiguous(v[level], begin, end);
        var cut := CutShort(inputs, maxFileSize);
        PrefixContiguous(v[level], inputs, |cut|);
        inputs, front := cut, cut;
      } else {
        SelectionClosed(v[0], inputs, Grow(begin, end, grown).0, Grow(begin, end, grown).1);
      }
      assert inputs[0] in FileSet(inputs);
      ghost var g;
      in0, in1, g := SetupOtherInputs(v, level, inputs, expandedLimit);
    }
  }

  lemma SomethingFound(files: seq<File>, begin: Option<UserKey>, end: Option<UserKey>, grown: seq<File>,
                       inputs: seq<File>)
    requires GrowsStepwise(begin, end, grown) && FileSet(grown) <= FileSet(files)
    requires inputs == Select(files, Grow(begin, end, grown).0, Grow(begin, end, grown).1)
    ensures inputs != [] <==> exists i :: 0 <= i < |files| && Overlaps(files[i], begin, end)
  {
    var (b, e) := Grow(begin, end, grown);
    assert Wider(begin, end, b, e) by { GrowWidens(begin, end, grown); }
    if i :| 0 <= i < |files| && Overlaps(files[i], begin, end) {
      assert Overlaps(files[i], b, e);
      assert files[i] in inputs;
    }
    if inputs != [] {
      assert inputs[0] in files;
      if grown != [] {
        FirstGrownOverlaps(begin, end, grown);
        assert grown[0] in FileSet(files);
      }
    }
  }

  lemma {:induction false} FirstGrownOverlaps(begin: Option<UserKey>, end: Option<UserKey>, grown: seq<File>)
    requires GrowsStepwise(begin, end, grown)
    ensures grown != [] ==> Overlaps(grown[0], begin, end)
  {
    if |grown| > 1 { FirstGrownOverlaps(begin, end, grown[..|grown| - 1]); }
  }
}
