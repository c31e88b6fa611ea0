/** Table files, versions and point lookups
    (leveldb/db/version_set.cc, leveldb/db/db_impl.cc, leveldb/db/memtable.cc). */
module Versions {
  import opened Options
  import opened InternalKeys
  import opened Reads

  const NUM_LEVELS := 7

  datatype FileData = FileData(number: nat, size: nat, entries: seq<Entry>)

  ghost predicate ValidFile(f: FileData) {
    |f.entries| > 0 && StrictlySorted(f.entries)
  }

  ghost const SAMPLE_FILE := FileData(0, 0, [Entry(IKey(0, 0, Value), "")])

  type File = f: FileData | ValidFile(f) ghost witness SAMPLE_FILE

  type Version = v: seq<seq<File>> | |v| == NUM_LEVELS ghost witness [[], [], [], [], [], [], []]

  function Smallest(f: File): IKey { f.entries[0].key }

  function Largest(f: File): IKey { f.entries[|f.entries| - 1].key }

  function Lo(f: File): UserKey { Smallest(f).user }

  function Hi(f: File): UserKey { Largest(f).user }

  lemma FileBounds(f: File, e: Entry)
    requires e in f.entries
    ensures AtMost(Smallest(f), e.key) && AtMost(e.key, Largest(f))
    ensures Lo(f) <= e.key.user <= Hi(f)
  {
  }

  ghost function Contents(files: seq<File>): set<Entry> {
    set f, e | f in files && e in f.entries :: e
  }

  ghost function FileSet(files: seq<File>): set<File> {
    set f | f in files
  }

  ghost function Elements(es: seq<Entry>): set<Entry> {
    set e | e in es
  }

  // ----- well-formed versions -----

  ghost predicate SortedDisjoint(files: seq<File>) {
    forall i, j :: 0 <= i < j < |files| ==> Less(Largest(files[i]), Smallest(files[j]))
  }

  ghost predicate NewerFile(f: File, g: File) {
    Newer(Elements(f.entries), Elements(g.entries))
  }

  /** Level 0: files may overlap; the file number tells their age. */
  ghost predicate AgedByNumber(files: seq<File>) {
    && (forall i, j :: 0 <= i < j < |files| ==> files[i].number != files[j].number)
    && (forall f, g {:trigger NewerFile(f, g)} :: f in files && g in files && f.number > g.number ==> NewerFile(f, g))
  }

  ghost predicate LevelsLayered(v: Version) {
    forall a, b :: 0 <= a < b < NUM_LEVELS ==> Newer(Contents(v[a]), Contents(v[b]))
  }

  ghost predicate WellFormed(v: Version) {
    && AgedByNumber(v[0])
    && (forall l :: 1 <= l < NUM_LEVELS ==> SortedDisjoint(v[l]))
    && LevelsLayered(v)
  }

  ghost function AllFiles(v: Version): set<Entry> {
    set l, e | 0 <= l < NUM_LEVELS && e in Contents(v[l]) :: e
  }

  // ----- searching one level -----

  /** FindFile: the first file whose largest key is at or after the target. */
  method FindFile(files: seq<File>, key: IKey) returns (index: nat)
    requires SortedDisjoint(files)
    ensures index <= |files|
    ensures forall i :: 0 <= i < index ==> Less(Largest(files[i]), key)
    ensures forall i :: index <= i < |files| ==> !Less(Largest(files[i]), key)
  {
    var left, right := 0, |files|;
    while left < right
      invariant 0 <= left <= right <= |files|
      invariant forall i :: 0 <= i < left ==> Less(Largest(files[i]), key)
      invariant forall i :: right <= i < |files| ==> !Less(Largest(files[i]), key)
    {
      var mid := (left + right) / 2;
      if Less(Largest(files[mid]), key) {
        forall i | 0 <= i < mid ensures Less(Largest(files[i]), key) { LargestAscends(files, i, mid); }
        left := mid + 1;
      } else {
        forall i | mid < i < |files| ensures !Less(Largest(files[i]), key) { LargestAscends(files, mid, i); }
        right := mid;
      }
    }
    index := right;
  }

  lemma LargestAscends(files: seq<File>, i: int, j: int)
    requires SortedDisjoint(files) && 0 <= i < j < |files|
    ensures Less(Largest(files[i]), Largest(files[j]))
    ensures Less(Smallest(files[i]), Smallest(files[j]))
    ensures Hi(files[i]) <= Lo(files[j])
  {
  }

  /** A missing bound stands for no bound on that side. */
  predicate Overlaps(f: File, begin: Option<UserKey>, end: Option<UserKey>) {
    && (begin.Some? ==> Hi(f) >= begin.value)
    && (end.Some? ==> Lo(f) <= end.value)
  }

  method SomeFileOverlapsRange(disjointSorted: bool, files: seq<File>, begin: Option<UserKey>, end: Option<UserKey>)
    returns (b: bool)
    requires disjointSorted ==> SortedDisjoint(files)
    ensures b <==> exists i :: 0 <= i < |files| && Overlaps(files[i], begin, end)
  {
    if !disjointSorted {
      for i := 0 to |files|
        invariant forall k :: 0 <= k < i ==> !Overlaps(files[k], begin, end)
      {
        if Overlaps(files[i], begin, end) {
          return true;
        }
      }
      return false;
    }
    var index := 0;
    if begin.Some? {
      index := FindFile(files, IKey(begin.value, MAX_SEQUENCE, Value));
    }
    assert forall i :: 0 <= i < index ==> !Overlaps(files[i], begin, end);
    if index >= |files| {
      return false;
    }
    b := end.None? || end.value >= Lo(files[index]);
    if b {
      assert Overlaps(files[index], begin, end);
    } else {
      forall i | index < i < |files| ensures Lo(files[index]) <= Lo(files[i]) { LargestAscends(files, index, i); }
    }
  }

  // ----- point lookups -----

  /** Seek to the lookup key in a sorted run; a hit is an entry of the same user key. */
  function SeekEntry(es: seq<Entry>, user: UserKey, snapshot: SeqNo): (r: Option<Entry>)
  {
    var i := SeekIndex(es, LookupKey(user, snapshot));
    if i < |es| && es[i].key.user == user then Some(es[i]) else None
  }

  lemma SeekEntryTop(es: seq<Entry>, user: UserKey, snapshot: SeqNo)
    requires StrictlySorted(es)
    ensures match SeekEntry(es, user, snapshot)
            case Some(e) => Top(Elements(es), user, snapshot, e)
            case None => Hidden(Elements(es), user, snapshot)
  {
  }

  /** The search of a level above 0: one file, found by binary search. */
  method LevelGet(files: seq<File>, user: UserKey, snapshot: SeqNo) returns (r: Option<Entry>)
    requires SortedDisjoint(files)
    ensures r.Some? ==> Top(Contents(files), user, snapshot, r.value)
    ensures r.None? ==> Hidden(Contents(files), user, snapshot)
  {
    r := None;
    var index := FindFile(files, LookupKey(user, snapshot));
    if index < |files| && !(user < Lo(files[index])) {
      r := SeekEntry(files[index].entries, user, snapshot);
      SeekEntryTop(files[index].entries, user, snapshot);
    }
    forall e | e in Contents(files) && e.key.user == user && e.key.seqno <= snapshot
      ensures r.Some? && e.key.seqno <= r.value.key.seqno
    {
      LevelGetComplete(files, index, user, snapshot, e, r);
    }
    if r.Some? {
      assert r.value in files[index].entries;
    }
  }

  /** A visible entry of the key beyond the file searched would be older than the hit in it. */
  lemma LevelGetComplete(files: seq<File>, index: nat, user: UserKey, snapshot: SeqNo, e: Entry, r: Option<Entry>)
    requires SortedDisjoint(files) && index <= |files|
    requires forall i :: 0 <= i < index ==> Less(Largest(files[i]), LookupKey(user, snapshot))
    requires index < |files| ==> !Less(Largest(files[index]), LookupKey(user, snapshot))
    requires e in Contents(files) && e.key.user == user && e.key.seqno <= snapshot
    requires index < |files| && !(user < Lo(files[index])) ==> r == SeekEntry(files[index].entries, user, snapshot)
    ensures r.Some? && e.key.seqno <= r.value.key.seqno
  {
  }

  function InsertNewestFirst(f: File, files: seq<File>): seq<File> {
    if files == [] || f.number > files[0].number then [f] + files
    else [files[0]] + InsertNewestFirst(f, files[1..])
  }

  ghost predicate NewestFirstOrder(files: seq<File>) {
    forall i, j :: 0 <= i < j < |files| ==> files[i].number >= files[j].number
  }

  lemma {:induction false} InsertPermutes(f: File, files: seq<File>)
    ensures multiset(InsertNewestFirst(f, files)) == multiset(files) + multiset{f}
  {
    if files != [] && f.number <= files[0].number {
      InsertPermutes(f, files[1..]);
      assert files == [files[0]] + files[1..];
    }
  }

  lemma {:induction false} InsertOrdered(f: File, files: seq<File>)
    requires NewestFirstOrder(files)
    ensures NewestFirstOrder(InsertNewestFirst(f, files))
  {
    if files != [] && f.number <= files[0].number {
      var rest := InsertNewestFirst(f, files[1..]);
      InsertOrdered(f, files[1..]);
      InsertPermutes(f, files[1..]);
      forall x | x in rest ensures x.number <= files[0].number {
        assert x in multiset(rest);
        assert x in multiset(files[1..]) || x == f;
      }
    }
  }

  /** std::sort with NewestFirst over the level-0 candidates. */
  function NewestFirst(files: seq<File>): seq<File> {
    if files == [] then [] else InsertNewestFirst(files[0], NewestFirst(files[1..]))
  }

  lemma {:induction false} NewestFirstSorts(files: seq<File>)
    ensures multiset(NewestFirst(files)) == multiset(files)
    ensures NewestFirstOrder(NewestFirst(files))
  {
    if files != [] {
      NewestFirstSorts(files[1..]);
      InsertPermutes(files[0], NewestFirst(files[1..]));
      InsertOrdered(files[0], NewestFirst(files[1..]));
      assert files == [files[0]] + files[1..];
    }
  }

  lemma NewestFirstMembers(files: seq<File>)
    ensures |NewestFirst(files)| == |files|
    ensures forall f :: f in files <==> f in NewestFirst(files)
  {
    var r := NewestFirst(files);
    NewestFirstSorts(files);
    assert |multiset(r)| == |multiset(files)|;
    forall f ensures f in files <==> f in r {
      assert f in files <==> f in multiset(files);
      assert f in r <==> f in multiset(r);
    }
  }

  /** Level 0 is searched file by file, newest first. */
  method LevelZeroGet(files: seq<File>, user: UserKey, snapshot: SeqNo) returns (r: Option<Entry>)
    requires AgedByNumber(files)
    ensures r.Some? ==> Top(Contents(files), user, snapshot, r.value)
    ensures r.None? ==> Hidden(Contents(files), user, snapshot)
  {
    hide Less;
    var tmp: seq<File> := [];
    for i := 0 to |files|
      invariant forall f :: f in tmp <==> f in files[..i] && Lo(f) <= user <= Hi(f)
    {
      if user >= Lo(files[i]) && user <= Hi(files[i]) {
        tmp := tmp + [files[i]];
      }
    }
    assert files[..|files|] == files;
    NewestFirstMembers(tmp);
    NewestFirstSorts(tmp);
    tmp := NewestFirst(tmp);
    forall e, f | f in files && e in f.entries && e.key.user == user ensures f in tmp { FileBounds(f, e); }
    for i := 0 to |tmp|
      invariant forall k :: 0 <= k < i ==> Hidden(Elements(tmp[k].entries), user, snapshot)
    {
      var hit := SeekEntry(tmp[i].entries, user, snapshot);
      SeekEntryTop(tmp[i].entries, user, snapshot);
      if hit.Some? {
        NewestFileWins(files, tmp, i, user, snapshot, hit.value);
        return hit;
      }
      assert forall e :: e in tmp[i].entries ==> e in Elements(tmp[i].entries);
    }
    return None;
  }

  lemma NewestFileWins(files: seq<File>, tmp: seq<File>, i: nat, user: UserKey, snapshot: SeqNo, hit: Entry)
    requires AgedByNumber(files) && NewestFirstOrder(tmp) && i < |tmp|
    requires forall f :: f in tmp ==> f in files
    requires forall e, f :: f in files && e in f.entries && e.key.user == user ==> f in tmp
    requires forall k :: 0 <= k < i ==> Hidden(Elements(tmp[k].entries), user, snapshot)
    requires Top(Elements(tmp[i].entries), user, snapshot, hit)
    ensures Top(Contents(files), user, snapshot, hit)
  {
    assert tmp[i] in files && hit in tmp[i].entries;
    forall x | x in Contents(files) && x.key.user == user && x.key.seqno <= snapshot
      ensures x.key.seqno <= hit.key.seqno
    {
      var f :| f in files && x in f.entries;
      var k :| 0 <= k < |tmp| && tmp[k] == f;
      assert x in Elements(f.entries);
      assert i <= k;
      OlderFileLoses(files, tmp[i], f, hit, x);
    }
  }

  lemma OlderFileLoses(files: seq<File>, g: File, f: File, hit: Entry, x: Entry)
    requires AgedByNumber(files) && f in files && g in files && g.number >= f.number
    requires hit in g.entries && x in f.entries && x.key.user == hit.key.user
    requires x in g.entries ==> x.key.seqno <= hit.key.seqno
    ensures x.key.seqno <= hit.key.seqno
  {
    if f.number == g.number {
      SameNumberSameFile(files, f, g);
    } else {
      assert NewerFile(g, f);
      assert hit in Elements(g.entries) && x in Elements(f.entries);
    }
  }

  lemma SameNumberSameFile(files: seq<File>, f: File, g: File)
    requires AgedByNumber(files) && f in files && g in files && f.number == g.number
    ensures f == g
  {
  }

  /** Version::Get: levels in order, stopping at the first hit. */
  method VersionGet(v: Version, user: UserKey, snapshot: SeqNo) returns (r: Option<Entry>)
    requires WellFormed(v)
    ensures r.Some? ==> Top(AllFiles(v), user, snapshot, r.value)
    ensures r.None? ==> Hidden(AllFiles(v), user, snapshot)
  {
    r := LevelZeroGet(v[0], user, snapshot);
    if r.Some? {
      FirstLevelWins(v, 0, user, snapshot, r.value);
      return;
    }
    for level := 1 to NUM_LEVELS
      invariant r.None?
      invariant forall l :: 0 <= l < level ==> Hidden(Contents(v[l]), user, snapshot)
    {
      if |v[level]| != 0 {
        r := LevelGet(v[level], user, snapshot);
        if r.Some? {
          FirstLevelWins(v, level, user, snapshot, r.value);
          return;
        }
      }
    }
  }

  lemma FirstLevelWins(v: Version, level: nat, user: UserKey, snapshot: SeqNo, hit: Entry)
    requires LevelsLayered(v) && level < NUM_LEVELS
    requires forall l :: 0 <= l < level ==> Hidden(Contents(v[l]), user, snapshot)
    requires Top(Contents(v[level]), user, snapshot, hit)
    ensures Top(AllFiles(v), user, snapshot, hit)
  {
  }

  ghost function ImmEntries(imm: Option<seq<Entry>>): set<Entry> {
    if imm.Some? then Elements(imm.value) else {}
  }

  ghost function AllEntries(mem: seq<Entry>, imm: Option<seq<Entry>>, v: Version): set<Entry> {
    Elements(mem) + (ImmEntries(imm) + AllFiles(v))
  }

  /** DBImpl::Get: memtable, then the one being flushed, then the files. */
  method Get(mem: seq<Entry>, imm: Option<seq<Entry>>, v: Version, user: UserKey, snapshot: SeqNo,
             ghost history: seq<Entry>)
    returns (r: Option<string>)
    requires StrictlySorted(mem) && (imm.Some? ==> StrictlySorted(imm.value)) && WellFormed(v)
    requires Newer(Elements(mem), ImmEntries(imm) + AllFiles(v)) && Newer(ImmEntries(imm), AllFiles(v))
    requires AllWritten(history, AllEntries(mem, imm, v))
    ensures Answers(AllEntries(mem, imm, v), user, snapshot, r)
  {
    ghost var older := ImmEntries(imm) + AllFiles(v);
    var hit := SeekEntry(mem, user, snapshot);
    SeekEntryTop(mem, user, snapshot);
    if hit.Some? {
      HitAbove(Elements(mem), older, user, snapshot, hit.value);
    } else {
      MissAbove(Elements(mem), older, user, snapshot);
      hit := ImmGet(imm, user, snapshot);
      if hit.Some? {
        HitAbove(ImmEntries(imm), AllFiles(v), user, snapshot, hit.value);
      } else {
        MissAbove(ImmEntries(imm), AllFiles(v), user, snapshot);
        hit := VersionGet(v, user, snapshot);
      }
    }
    if hit.Some? {
      TopAnswers(history, AllEntries(mem, imm, v), user, snapshot, hit.value);
      r := if hit.value.key.kind.Value? then Some(hit.value.value) else None;
    } else {
      r := None;
    }
  }

  method ImmGet(imm: Option<seq<Entry>>, user: UserKey, snapshot: SeqNo) returns (hit: Option<Entry>)
    requires imm.Some? ==> StrictlySorted(imm.value)
    ensures hit.Some? ==> Top(ImmEntries(imm), user, snapshot, hit.value)
    ensures hit.None? ==> Hidden(ImmEntries(imm), user, snapshot)
  {
    hit := None;
    if imm.Some? {
      hit := SeekEntry(imm.value, user, snapshot);
      SeekEntryTop(imm.value, user, snapshot);
    }
  }
}
