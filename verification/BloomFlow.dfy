/** Searching stored values with and without the hierarchy (bloom_hierarchy/dbOperation.cpp, main.cpp).
    A table's records are a function of its name; directory listings and their orders are parameters. */
module BloomFlow {
  import opened BloomValues
  import opened BloomTrees

  const BLOOM_EXT := ".bloom"
  const DATA_EXT := ".ldb"

  /** The values in a dumped table. */
  type Dump = string -> seq<string>

  function TransformFileName(name: string, from: string, to: string): string {
    (if |from| <= |name| then name[..|name| - |from|] else name) + to
  }

  predicate EndsWith(name: string, ext: string) {
    |ext| <= |name| && name[|name| - |ext|..] == ext
  }

  function BloomName(data: string): string { TransformFileName(data, DATA_EXT, BLOOM_EXT) }

  function DataName(bloom: string): string { TransformFileName(bloom, BLOOM_EXT, DATA_EXT) }

  lemma NamesRoundTrip(data: string)
    requires EndsWith(data, DATA_EXT)
    ensures DataName(BloomName(data)) == data && EndsWith(BloomName(data), BLOOM_EXT)
    ensures BloomName(data) != MEMORY
  {
    var stem := data[..|data| - |DATA_EXT|];
    var b := BloomName(data);
    assert b == stem + BLOOM_EXT;
    assert b[..|b| - |BLOOM_EXT|] == stem;
    assert data == stem + DATA_EXT;
    assert b[|b| - 1] == 'm';
  }

  // ----- sums over listings -----

  function Sum(names: seq<string>, f: string -> nat): nat {
    if names == [] then 0 else f(names[0]) + Sum(names[1..], f)
  }

  lemma {:induction false} SumConcat(a: seq<string>, b: seq<string>, f: string -> nat)
    ensures Sum(a + b, f) == Sum(a, f) + Sum(b, f)
  {
    if a == [] {
      assert a + b == b;
    } else {
      SumConcat(a[1..], b, f);
      assert (a + b)[1..] == a[1..] + b;
    }
  }

  lemma WithoutOne(b: seq<string>, i: nat)
    requires i < |b|
    ensures multiset(b[..i] + b[i + 1..]) == multiset(b) - multiset{b[i]}
  {
    assert b == b[..i] + [b[i]] + b[i + 1..];
  }

  lemma SumWithout(b: seq<string>, i: nat, f: string -> nat)
    requires i < |b|
    ensures Sum(b, f) == f(b[i]) + Sum(b[..i] + b[i + 1..], f)
  {
    SumConcat(b[..i], b[i + 1..], f);
    SumConcat(b[..i], [b[i]] + b[i + 1..], f);
    assert ([b[i]] + b[i + 1..])[1..] == b[i + 1..];
    assert b == b[..i] + ([b[i]] + b[i + 1..]);
  }

  /** The order of a listing does not matter. */
  lemma {:induction false} SumPermuted(a: seq<string>, b: seq<string>, f: string -> nat)
    requires multiset(a) == multiset(b)
    ensures Sum(a, f) == Sum(b, f)
  {
    hide *;
    if a == [] {
      assert |b| == |multiset(b)| == 0;
    } else {
      assert a[0] in multiset(b);
      var i :| 0 <= i < |b| && b[i] == a[0];
      WithoutOne(a, 0);
      WithoutOne(b, i);
      SumWithout(a, 0, f);
      SumWithout(b, i, f);
      SumPermuted(a[..0] + a[1..], b[..i] + b[i + 1..], f);
    }
  }

  // ----- filters on disk -----

  type Disk = map<string, FileBytes>

  ghost predicate LoadsAs(file: FileBytes, b: Bits) {
    forall p | 0 <= p < BITS :: b[p] == (|file| >= HEADER && BitOf(file[HEADER..], p))
  }

  lemma LoadsOneWay(file: FileBytes, a: Bits, b: Bits)
    requires LoadsAs(file, a) && LoadsAs(file, b)
    ensures a == b
  {
  }

  /** Whether the filter stored under a name accepts the value. */
  ghost predicate Passes(hash: Hash, disk: Disk, value: string, name: string) {
    name in disk && exists b: Bits :: LoadsAs(disk[name], b) && Accepts(hash, b, value)
  }

  ghost function Hit(hash: Hash, disk: Disk, value: string): string -> nat {
    name => if Passes(hash, disk, value, name) then 1 else 0
  }

  function Occurrences(dump: Dump, value: string): string -> nat {
    file => multiset(dump(file))[value]
  }

  ghost function HitOccurrences(hash: Hash, disk: Disk, dump: Dump, value: string): string -> nat {
    name => if Passes(hash, disk, value, name) then multiset(dump(DataName(name)))[value] else 0
  }

  function Values(records: seq<string>): set<string> { set v | v in records }

  /** The file named for a table holds a filter of exactly that table's values. */
  ghost predicate Described(hash: Hash, disk: Disk, dump: Dump, data: string) {
    BloomName(data) in disk && FilterOf(hash, disk[BloomName(data)], Values(dump(data)))
  }

  ghost predicate FilterOf(hash: Hash, file: FileBytes, values: set<string>) {
    exists b: Bits :: LoadsAs(file, b) && Holds(hash, b, values)
  }

  /** The names of the filters of some tables. */
  function BloomNames(files: seq<string>): seq<string> {
    seq(|files|, i requires 0 <= i < |files| => BloomName(files[i]))
  }

  class Flow {
    const hash: Hash
    const dump: Dump
    var disk: Disk
    var foundInLeafBloom: nat
    var foundInSSTable: nat

    constructor (hash: Hash, dump: Dump)
      ensures this.hash == hash && this.dump == dump && disk == map[]
    {
      this.hash, this.dump := hash, dump;
      disk, foundInLeafBloom, foundInSSTable := map[], 0, 0;
    }

    /** Writes one filter file per table. */
    method CreateBloomValue(files: seq<string>)
      requires forall f | f in files :: EndsWith(f, DATA_EXT)
      modifies this`disk
      ensures forall f | f in files :: Described(hash, disk, dump, f)
    {
      for i := 0 to |files|
        invariant forall f | f in files[..i] :: Described(hash, disk, dump, f)
      {
        var file := FilterFile(files[i]);
        ghost var before := disk;
        disk := disk[BloomName(files[i]) := file];
        forall f | f in files[..i + 1] ensures Described(hash, disk, dump, f) {
          NamesRoundTrip(f);
          NamesRoundTrip(files[i]);
          if f != files[i] {
            assert f in files[..i];
            assert Described(hash, before, dump, f);
          }
        }
      }
      assert files[..|files|] == files;
    }

    method FilterFile(data: string) returns (file: FileBytes)
      ensures FilterOf(hash, file, Values(dump(data)))
    {
      var filter := new BloomValue(hash);
      var records := dump(data);
      for i := 0 to |records|
        invariant filter.hash == hash
        invariant Holds(hash, filter.bitArray, Values(records[..i]))
      {
        filter.Insert(records[i], Values(records[..i]));
        assert Values(records[..i + 1]) == Values(records[..i]) + {records[i]};
      }
      assert records[..|records|] == records;
      file := filter.SaveToFile();
      assert LoadsAs(file, filter.bitArray);
    }

    method RetrieveFromSStable(file: string, value: string) returns (found: nat)
      ensures found == Occurrences(dump, value)(file)
    {
      found := 0;
      var records := dump(file);
      for i := 0 to |records|
        invariant found == multiset(records[..i])[value]
      {
        assert records[..i + 1] == records[..i] + [records[i]];
        if records[i] == value {
          found := found + 1;
        }
      }
      assert records[..|records|] == records;
    }

    method ScanningWithoutBloom(files: seq<string>, value: string) returns (found: nat)
      ensures found == Sum(files, Occurrences(dump, value))
    {
      found := 0;
      for i := 0 to |files|
        invariant found == Sum(files[..i], Occurrences(dump, value))
      {
        var n := RetrieveFromSStable(files[i], value);
        found := found + n;
        SumSnoc(files, i, Occurrences(dump, value));
      }
      assert files[..|files|] == files;
    }

    /** Consults one filter, and the table behind it if the filter passes. */
    method ScanFile(name: string, value: string) returns (hit: nat, found: nat)
      requires name in disk
      ensures hit == Hit(hash, disk, value)(name) && found == HitOccurrences(hash, disk, dump, value)(name)
    {
      var filter := BloomValue.LoadFromFile(hash, disk[name]);
      var passes := filter.Exists(value);
      PassesIff(hash, disk, value, name, filter.bitArray);
      hit, found := 0, 0;
      if passes {
        hit := 1;
        found := RetrieveFromSStable(TransformFileName(name, BLOOM_EXT, DATA_EXT), value);
        assert found == multiset(dump(DataName(name)))[value];
      }
    }

    /** Stops, leaving the result as it was, at the first filter file that is missing. */
    method ScanningInBloomFiles(names: seq<string>, value: string) returns (threw: bool)
      modifies this`foundInLeafBloom, this`foundInSSTable
      ensures threw <==> exists i :: 0 <= i < |names| && names[i] !in disk
      ensures threw ==> foundInLeafBloom == old(foundInLeafBloom) && foundInSSTable == old(foundInSSTable)
      ensures !threw ==> foundInLeafBloom == Sum(names, Hit(hash, disk, value))
      ensures !threw ==> foundInSSTable == Sum(names, HitOccurrences(hash, disk, dump, value))
    {
      var hits, total := 0, 0;
      for i := 0 to |names|
        invariant foundInLeafBloom == old(foundInLeafBloom) && foundInSSTable == old(foundInSSTable)
        invariant forall j | 0 <= j < i :: names[j] in disk
        invariant hits == Sum(names[..i], Hit(hash, disk, value))
        invariant total == Sum(names[..i], HitOccurrences(hash, disk, dump, value))
      {
        if names[i] !in disk {
          return true;
        }
        var hit, n := ScanFile(names[i], value);
        hits, total := hits + hit, total + n;
        SumSnoc(names, i, Hit(hash, disk, value));
        SumSnoc(names, i, HitOccurrences(hash, disk, dump, value));
        assert names[..i + 1] == names[..i] + [names[i]];
      }
      assert names[..|names|] == names;
      foundInLeafBloom, foundInSSTable := hits, total;
      return false;
    }

    /** Loads every listed filter into the tree's leaves; stops at the first missing file. */
    method CreateLeafHierarchyLevel(listing: seq<string>, tree: BloomTree) returns (threw: bool)
      requires tree.leafNodes == []
      modifies tree`leafNodes
      ensures threw <==> exists i :: 0 <= i < |listing| && listing[i] !in disk
      ensures !threw ==> LoadedLeaves(disk, listing, tree.leafNodes)
    {
      for i := 0 to |listing|
        invariant forall j | 0 <= j < i :: listing[j] in disk
        invariant LoadedLeaves(disk, listing[..i], tree.leafNodes)
      {
        if listing[i] !in disk {
          return true;
        }
        var filter := BloomValue.LoadFromFile(hash, disk[listing[i]]);
        assert LoadsAs(disk[listing[i]], filter.bitArray);
        tree.CreateLeafLevel(filter.bitArray, listing[i]);
      }
      assert listing[..|listing|] == listing;
      return false;
    }

    /** When no file is returned the result keeps the values it had. */
    method CheckInHierarchy(tree: BloomTree, value: string) returns (threw: bool)
      modifies this`foundInLeafBloom, this`foundInSSTable, tree`bloomNames, tree`foundInHierarchy
      ensures var names := old(tree.bloomNames) + Names(Found(tree.hash, tree.root, value));
              && tree.bloomNames == names
              && (threw <==> exists i :: 0 <= i < |names| && names[i] !in disk)
              && (names == [] ==> foundInLeafBloom == old(foundInLeafBloom) && foundInSSTable == old(foundInSSTable))
              && (names != [] && !threw ==>
                    && foundInLeafBloom == Sum(names, Hit(hash, disk, value))
                    && foundInSSTable == Sum(names, HitOccurrences(hash, disk, dump, value)))
    {
      var names := tree.CheckExistance(value);
      threw := false;
      if names != [] {
        threw := ScanningInBloomFiles(names, value);
      }
    }
  }

  ghost predicate Loaded(disk: Disk, n: Node) {
    n.filename in disk && LoadsAs(disk[n.filename], n.filter)
  }

  ghost predicate LoadedLeaves(disk: Disk, listing: seq<string>, leaves: seq<Node>) {
    && |leaves| == |listing|
    && forall i | 0 <= i < |leaves| :: leaves[i].filename == listing[i] && leaves[i].children == []
        && Loaded(disk, leaves[i])
  }

  lemma PassesIff(hash: Hash, disk: Disk, value: string, name: string, b: Bits)
    requires name in disk && LoadsAs(disk[name], b)
    ensures Passes(hash, disk, value, name) <==> Accepts(hash, b, value)
  {
    if Passes(hash, disk, value, name) {
      var c: Bits :| LoadsAs(disk[name], c) && Accepts(hash, c, value);
      LoadsOneWay(disk[name], b, c);
    }
  }

  lemma SumSnoc(names: seq<string>, i: nat, f: string -> nat)
    requires i < |names|
    ensures Sum(names[..i + 1], f) == Sum(names[..i], f) + f(names[i])
  {
    SumConcat(names[..i], [names[i]], f);
    assert names[..i + 1] == names[..i] + [names[i]];
  }

  lemma {:induction false} LeavesAreFiles(ns: seq<Node>)
    requires forall n | n in ns :: n.filename != MEMORY
    ensures ForestFiles(ns) == ns
  {
    if ns != [] {
      LeavesAreFiles(ns[1..]);
    }
  }

  lemma {:induction false} FoundAreFiles(hash: Hash, n: Node, value: string)
    ensures forall x | x in Found(hash, n, value) :: x in Files(n)
    decreases n, 1
  {
    if n.filename == MEMORY {
      ForestFoundAreFiles(hash, n.children, value);
    }
  }

  lemma {:induction false} ForestFoundAreFiles(hash: Hash, ns: seq<Node>, value: string)
    ensures forall x | x in ForestFound(hash, ns, value) :: x in ForestFiles(ns)
    decreases ns, 0
  {
    if ns != [] {
      FoundAreFiles(hash, ns[0], value);
      ForestFoundAreFiles(hash, ns[1..], value);
    }
  }

  /** A sum that only counts passing files is a sum over the files whose filter accepts. */
  lemma {:induction false} SumOfHits(hash: Hash, disk: Disk, ns: seq<Node>, value: string, f: string -> nat)
    requires forall n | n in ns :: Loaded(disk, n)
    requires forall name | !Passes(hash, disk, value, name) :: f(name) == 0
    ensures Sum(Names(ns), f) == Sum(Names(Hits(hash, ns, value)), f)
  {
    hide Passes, LoadsAs, Accepts;
    if ns != [] {
      SumOfHits(hash, disk, ns[1..], value, f);
      assert Loaded(disk, ns[0]);
      PassesIff(hash, disk, value, ns[0].filename, ns[0].filter);
      assert Names(ns)[1..] == Names(ns[1..]);
      var rest := Hits(hash, ns[1..], value);
      if Accepts(hash, ns[0].filter, value) {
        assert Hits(hash, ns, value) == [ns[0]] + rest;
        assert Names([ns[0]] + rest)[1..] == Names(rest);
      } else {
        assert f(ns[0].filename) == 0;
        assert Hits(hash, ns, value) == [] + rest == rest;
      }
    }
  }

  /** The pruned search and the linear scan give the same sums. */
  lemma SearchesAgree(hash: Hash, disk: Disk, root: Node, value: string, f: string -> nat)
    requires OrTree(root) && forall n | n in Files(root) :: Loaded(disk, n)
    requires forall name | !Passes(hash, disk, value, name) :: f(name) == 0
    ensures Sum(Names(Found(hash, root, value)), f) == Sum(Names(Files(root)), f)
  {
    hide *;
    FoundAreFiles(hash, root, value);
    HitsKept(hash, root, value);
    SumOfHits(hash, disk, Found(hash, root, value), value, f);
    SumOfHits(hash, disk, Files(root), value, f);
  }

  /** A table whose filter rejects the value does not hold it. */
  lemma NoOccurrenceMissed(hash: Hash, disk: Disk, dump: Dump, value: string, data: string)
    requires EndsWith(data, DATA_EXT) && Described(hash, disk, dump, data)
    ensures HitOccurrences(hash, disk, dump, value)(BloomName(data)) == Occurrences(dump, value)(data)
  {
    NamesRoundTrip(data);
    if value in dump(data) {
      var b: Bits :| LoadsAs(disk[BloomName(data)], b) && Holds(hash, b, Values(dump(data)));
      HeldIsAccepted(hash, b, Values(dump(data)), value);
      assert Passes(hash, disk, value, BloomName(data));
    } else {
      assert multiset(dump(data))[value] == 0;
    }
  }

  lemma {:induction false} NoOccurrencesMissed(hash: Hash, disk: Disk, dump: Dump, value: string, files: seq<string>)
    requires forall f | f in files :: EndsWith(f, DATA_EXT) && Described(hash, disk, dump, f)
    ensures Sum(BloomNames(files), HitOccurrences(hash, disk, dump, value)) == Sum(files, Occurrences(dump, value))
  {
    if files != [] {
      NoOccurrencesMissed(hash, disk, dump, value, files[1..]);
      NoOccurrenceMissed(hash, disk, dump, value, files[0]);
      assert BloomNames(files)[1..] == BloomNames(files[1..]);
    }
  }

  /** One for each table that holds the value. */
  function Holding(dump: Dump, value: string): string -> nat {
    file => if value in dump(file) then 1 else 0
  }

  /** Every table that holds the value is among the hits. */
  lemma {:induction false} HoldersHit(hash: Hash, disk: Disk, dump: Dump, value: string, files: seq<string>)
    requires forall f | f in files :: EndsWith(f, DATA_EXT) && Described(hash, disk, dump, f)
    ensures Sum(files, Holding(dump, value)) <= Sum(BloomNames(files), Hit(hash, disk, value)) <= |files|
  {
    if files != [] {
      HoldersHit(hash, disk, dump, value, files[1..]);
      NoOccurrenceMissed(hash, disk, dump, value, files[0]);
      assert value in dump(files[0]) ==> multiset(dump(files[0]))[value] > 0;
      assert BloomNames(files)[1..] == BloomNames(files[1..]);
    }
  }

  /** A table's filter hits for a value exactly when the value collides with those that the table holds. */
  ghost function Colliding(hash: Hash, dump: Dump, value: string): string -> nat {
    file => if Collides(hash, Values(dump(file)), value) then 1 else 0
  }

  lemma {:induction false} HitsCollide(hash: Hash, disk: Disk, dump: Dump, value: string, files: seq<string>)
    requires forall f | f in files :: Described(hash, disk, dump, f)
    ensures Sum(BloomNames(files), Hit(hash, disk, value)) == Sum(files, Colliding(hash, dump, value))
  {
    hide Collides;
    if files != [] {
      HitsCollide(hash, disk, dump, value, files[1..]);
      HitCollides(hash, disk, dump, value, files[0]);
      assert BloomNames(files)[1..] == BloomNames(files[1..]);
    }
  }

  lemma HitCollides(hash: Hash, disk: Disk, dump: Dump, value: string, f: string)
    requires Described(hash, disk, dump, f)
    ensures Passes(hash, disk, value, BloomName(f)) <==> Collides(hash, Values(dump(f)), value)
  {
    hide Collides, Holds, Accepts, LoadsAs;
    var b: Bits :| LoadsAs(disk[BloomName(f)], b) && Holds(hash, b, Values(dump(f)));
    AcceptsExactly(hash, b, Values(dump(f)), value);
    if Passes(hash, disk, value, BloomName(f)) {
      var b': Bits :| LoadsAs(disk[BloomName(f)], b') && Accepts(hash, b', value);
      LoadsOneWay(disk[BloomName(f)], b, b');
    }
  }

  lemma ListingNames(hash: Hash, disk: Disk, dump: Dump, files: seq<string>, listing: seq<string>)
    requires forall f | f in files :: EndsWith(f, DATA_EXT) && Described(hash, disk, dump, f)
    requires multiset(listing) == multiset(BloomNames(files))
    ensures |listing| == |files|
    ensures forall i | 0 <= i < |listing| :: listing[i] in disk && listing[i] != MEMORY
  {
    assert |listing| == |multiset(listing)| == |BloomNames(files)|;
    forall i | 0 <= i < |listing| ensures listing[i] in disk && listing[i] != MEMORY {
      assert listing[i] in multiset(listing);
      var j :| 0 <= j < |files| && BloomNames(files)[j] == listing[i];
      assert files[j] in files;
      NamesRoundTrip(files[j]);
    }
  }

  lemma LeavesHaveNone(disk: Disk, listing: seq<string>, leaves: seq<Node>)
    requires LoadedLeaves(disk, listing, leaves)
    ensures |leaves| == |listing| && forall n | n in leaves :: n.children == []
  {
  }

  lemma NonPassing(hash: Hash, disk: Disk, dump: Dump, value: string)
    ensures forall name | !Passes(hash, disk, value, name) :: Hit(hash, disk, value)(name) == 0
    ensures forall name | !Passes(hash, disk, value, name) :: HitOccurrences(hash, disk, dump, value)(name) == 0
    ensures Sum([], Hit(hash, disk, value)) == 0 && Sum([], HitOccurrences(hash, disk, dump, value)) == 0
  {
  }

  /** The search that MainFlow makes through a fresh hierarchy, after the linear scan of the same files. */
  lemma HierarchyAgrees(hash: Hash, disk: Disk, root: Node, leaves: seq<Node>, listing: seq<string>,
                        scanned: seq<string>,
                        value: string, f: string -> nat)
    requires OrTree(root) && Files(root) == ForestFiles(leaves)
    requires LoadedLeaves(disk, listing, leaves) && forall n | n in listing :: n != MEMORY
    requires multiset(listing) == multiset(scanned)
    requires forall name | !Passes(hash, disk, value, name) :: f(name) == 0
    ensures Sum(Names(Found(hash, root, value)), f) == Sum(scanned, f)
    ensures forall i | 0 <= i < |Found(hash, root, value)| :: Found(hash, root, value)[i].filename in disk
  {
    hide Found, Files, ForestFiles, OrTree, Sum, Passes;
    assert forall n | n in leaves :: n.filename != MEMORY by {
      assert forall i | 0 <= i < |leaves| :: leaves[i].filename in listing;
    }
    LeavesAreFiles(leaves);
    assert Names(leaves) == listing;
    assert forall n | n in Files(root) :: Loaded(disk, n);
    SearchesAgree(hash, disk, root, value, f);
    SumPermuted(listing, scanned, f);
    FoundAreFiles(hash, root, value);
    var found := Found(hash, root, value);
    assert forall i | 0 <= i < |found| :: found[i] in found;
  }

  lemma ResultAgrees(hash: Hash, disk: Disk, dump: Dump, root: Node, leaves: seq<Node>, listing: seq<string>,
                     scanned: seq<string>, value: string)
    requires OrTree(root) && Files(root) == ForestFiles(leaves) && LoadedLeaves(disk, listing, leaves)
    requires forall i | 0 <= i < |listing| :: listing[i] != MEMORY
    requires multiset(listing) == multiset(scanned)
    ensures var names := Names(Found(hash, root, value));
            && (forall i | 0 <= i < |names| :: names[i] in disk)
            && Sum(names, Hit(hash, disk, value)) == Sum(scanned, Hit(hash, disk, value))
            && Sum(names, HitOccurrences(hash, disk, dump, value))
                == Sum(scanned, HitOccurrences(hash, disk, dump, value))
  {
    hide *;
    NonPassing(hash, disk, dump, value);
    assert forall n | n in listing :: n != MEMORY;
    HierarchyAgrees(hash, disk, root, leaves, listing, scanned, value, Hit(hash, disk, value));
    HierarchyAgrees(hash, disk, root, leaves, listing, scanned, value, HitOccurrences(hash, disk, dump, value));
  }

  lemma {:induction false} SumIsZero(names: seq<string>, f: string -> nat)
    ensures Sum(names, f) == 0 <==> forall i | 0 <= i < |names| :: f(names[i]) == 0
  {
    if names != [] {
      SumIsZero(names[1..], f);
      assert forall i | 0 <= i < |names[1..]| :: names[1..][i] == names[i + 1];
      assert forall i | 1 <= i < |names| :: names[i] == names[1..][i - 1];
    }
  }

  /** A tree over the filters listed. */
  ghost predicate TreeOver(flow: Flow, listing: seq<string>, tree: BloomTree)
    reads flow, tree
  {
    && tree.hash == flow.hash && LoadedLeaves(flow.disk, listing, tree.leafNodes)
    && OrTree(tree.root) && Files(tree.root) == ForestFiles(tree.leafNodes)
    && forall i | 0 <= i < |listing| :: listing[i] in flow.disk && listing[i] != MEMORY
  }

  /** A search in a tree that may have been searched before, after the linear scan of the same files.  The names that
      earlier searches left are scanned again; the number of hits is that of the linear scan exactly when none of
      them has a filter that accepts the value, and the number of records exactly when none has such a record. */
  method SearchAgain(flow: Flow, tree: BloomTree, listing: seq<string>, ghost scanned: seq<string>, value: string)
    requires TreeOver(flow, listing, tree) && multiset(listing) == multiset(scanned)
    requires forall i | 0 <= i < |tree.bloomNames| :: tree.bloomNames[i] in flow.disk
    requires flow.foundInLeafBloom == Sum(scanned, Hit(flow.hash, flow.disk, value))
    requires flow.foundInSSTable == Sum(scanned, HitOccurrences(flow.hash, flow.disk, flow.dump, value))
    modifies flow`foundInLeafBloom, flow`foundInSSTable, tree`bloomNames, tree`foundInHierarchy
    ensures TreeOver(flow, listing, tree)
    ensures tree.bloomNames == old(tree.bloomNames) + Names(Found(flow.hash, tree.root, value))
    ensures forall i | 0 <= i < |tree.bloomNames| :: tree.bloomNames[i] in flow.disk
    ensures flow.foundInLeafBloom ==
            old(flow.foundInLeafBloom) + Sum(old(tree.bloomNames), Hit(flow.hash, flow.disk, value))
    ensures flow.foundInLeafBloom == old(flow.foundInLeafBloom) <==>
            forall i | 0 <= i < |old(tree.bloomNames)| :: !Passes(flow.hash, flow.disk, value, old(tree.bloomNames)[i])
    ensures flow.foundInSSTable == old(flow.foundInSSTable) <==>
            forall i | 0 <= i < |old(tree.bloomNames)| ::
              HitOccurrences(flow.hash, flow.disk, flow.dump, value)(old(tree.bloomNames)[i]) == 0
  {
    hide LoadedLeaves, OrTree, Files, ForestFiles, Sum, Names, Found, Passes;
    ghost var earlier, names := tree.bloomNames, Names(Found(flow.hash, tree.root, value));
    ghost var hit, seen := Hit(flow.hash, flow.disk, value), HitOccurrences(flow.hash, flow.disk, flow.dump, value);
    ResultAgrees(flow.hash, flow.disk, flow.dump, tree.root, tree.leafNodes, listing, scanned, value);
    NonPassing(flow.hash, flow.disk, flow.dump, value);
    SumConcat(earlier, names, hit);
    SumConcat(earlier, names, seen);
    SumIsZero(earlier, hit);
    SumIsZero(earlier, seen);
    var threw := flow.CheckInHierarchy(tree, value);
    assert earlier + names == [] ==> earlier == [] && names == [];
  }

  /** A first search, whatever the result held before: it ends up right exactly when some leaf has only ancestors that
      accept the value, so that the result is written, or the old numbers were zero. */
  method SearchOnce(flow: Flow, tree: BloomTree, listing: seq<string>, value: string)
    requires TreeOver(flow, listing, tree) && tree.bloomNames == []
    modifies flow`foundInLeafBloom, flow`foundInSSTable, tree`bloomNames, tree`foundInHierarchy
    ensures flow.foundInLeafBloom == Sum(listing, Hit(flow.hash, flow.disk, value)) <==>
            SomeOpen(flow.hash, tree.root, value) || old(flow.foundInLeafBloom) == 0
    ensures flow.foundInSSTable == Sum(listing, HitOccurrences(flow.hash, flow.disk, flow.dump, value)) <==>
            SomeOpen(flow.hash, tree.root, value) || old(flow.foundInSSTable) == 0
  {
    hide LoadedLeaves, OrTree, Files, ForestFiles, Sum, Names, Found, Passes, SomeOpen;
    FindsIfOpen(flow.hash, tree.root, value);
    ghost var names := Names(Found(flow.hash, tree.root, value));
    ResultAgrees(flow.hash, flow.disk, flow.dump, tree.root, tree.leafNodes, listing, listing, value);
    NonPassing(flow.hash, flow.disk, flow.dump, value);
    assert [] + names == names;
    var threw := flow.CheckInHierarchy(tree, value);
  }

  /** The hierarchical half of MainFlow: it gives the result of the linear scan that filled the result before it. */
  method SearchTree(flow: Flow, listing: seq<string>, ghost scanned: seq<string>, ratio: nat, value: string)
    requires forall i | 0 <= i < |listing| :: listing[i] in flow.disk && listing[i] != MEMORY
    requires multiset(listing) == multiset(scanned)
    requires ratio >= 1 && (ratio >= 3 || |listing| < ratio)
    requires flow.foundInLeafBloom == Sum(scanned, Hit(flow.hash, flow.disk, value))
    requires flow.foundInSSTable == Sum(scanned, HitOccurrences(flow.hash, flow.disk, flow.dump, value))
    modifies flow`foundInLeafBloom, flow`foundInSSTable
    ensures flow.foundInLeafBloom == old(flow.foundInLeafBloom) && flow.foundInSSTable == old(flow.foundInSSTable)
  {
    var tree := BuildTree(flow, listing, ratio);
    hide LoadedLeaves, OrTree, Files, ForestFiles, Sum, Names, Found, Passes, Hit, HitOccurrences;
    SearchAgain(flow, tree, listing, scanned, value);
  }

  method BuildTree(flow: Flow, listing: seq<string>, ratio: nat) returns (tree: BloomTree)
    requires forall i | 0 <= i < |listing| :: listing[i] in flow.disk
    requires ratio >= 1 && (ratio >= 3 || |listing| < ratio)
    ensures fresh(tree) && tree.hash == flow.hash && tree.bloomNames == []
    ensures LoadedLeaves(flow.disk, listing, tree.leafNodes)
    ensures OrTree(tree.root) && Files(tree.root) == ForestFiles(tree.leafNodes)
  {
    hide *;
    tree := new BloomTree(flow.hash, ratio);
    var threw := flow.CreateLeafHierarchyLevel(listing, tree);
    LeavesHaveNone(flow.disk, listing, tree.leafNodes);
    tree.CreateTree();
  }

  /** MainFlow: with or without the hierarchy the same number of records are found, and that is the number of records
      holding the value; the same number of filters hit, and these are those of the tables that hold the value or
      values with which it collides. */
  method MainFlow(hash: Hash, dump: Dump, files: seq<string>, bloomListing: seq<string>, leafListing: seq<string>,
                  dataListing: seq<string>, ratio: nat, value: string)
    returns (leafFlat: nat, tableFlat: nat, leafTree: nat, tableTree: nat, plain: nat)
    requires forall f | f in files :: EndsWith(f, DATA_EXT)
    requires multiset(bloomListing) == multiset(leafListing) == multiset(BloomNames(files))
    requires multiset(dataListing) == multiset(files)
    requires ratio >= 1 && (ratio >= 3 || |files| < ratio)
    ensures leafTree == leafFlat && tableTree == tableFlat == plain == Sum(files, Occurrences(dump, value))
    ensures leafFlat == Sum(files, Colliding(hash, dump, value))
    ensures Sum(files, Holding(dump, value)) <= leafFlat <= |files|
  {
    hide *;
    var flow := new Flow(hash, dump);
    flow.CreateBloomValue(files);
    ListingNames(hash, flow.disk, dump, files, bloomListing);
    ListingNames(hash, flow.disk, dump, files, leafListing);
    var threw := flow.ScanningInBloomFiles(bloomListing, value);
    leafFlat, tableFlat := flow.foundInLeafBloom, flow.foundInSSTable;
    plain := flow.ScanningWithoutBloom(dataListing, value);
    SearchTree(flow, leafListing, bloomListing, ratio, value);
    leafTree, tableTree := flow.foundInLeafBloom, flow.foundInSSTable;
    SumPermuted(bloomListing, BloomNames(files), HitOccurrences(hash, flow.disk, dump, value));
    SumPermuted(bloomListing, BloomNames(files), Hit(hash, flow.disk, value));
    HoldersHit(hash, flow.disk, dump, value, files);
    HitsCollide(hash, flow.disk, dump, value, files);
    SumPermuted(dataListing, files, Occurrences(dump, value));
    NoOccurrencesMissed(hash, flow.disk, dump, value, files);
  }

  lemma IsTreeOver(flow: Flow, listing: seq<string>, tree: BloomTree)
    requires tree.hash == flow.hash && LoadedLeaves(flow.disk, listing, tree.leafNodes)
    requires OrTree(tree.root) && Files(tree.root) == ForestFiles(tree.leafNodes)
    requires forall i | 0 <= i < |listing| :: listing[i] in flow.disk && listing[i] != MEMORY
    ensures TreeOver(flow, listing, tree)
  {
  }

  lemma OneTable(dump: Dump)
    requires dump("a.ldb") == ["x"]
    ensures EndsWith("a.ldb", DATA_EXT) && BloomNames(["a.ldb"]) == ["a.bloom"]
            && Sum(["a.ldb"], Holding(dump, "x")) == 1
  {
    assert "a.ldb" == "a" + DATA_EXT && "a.bloom" == "a" + BLOOM_EXT;
    assert BloomName("a.ldb") == "a.bloom";
    assert ["a.ldb"][1..] == [];
  }

  lemma SumOfNone(f: string -> nat)
    ensures Sum([], f) == 0
  {
  }

  /** Searching twice for a value through one tree finds every hit twice the second time. */
  method SearchTwice(flow: Flow, listing: seq<string>, ratio: nat, value: string) returns (first: nat, second: nat)
    requires forall i | 0 <= i < |listing| :: listing[i] in flow.disk && listing[i] != MEMORY
    requires ratio >= 1 && (ratio >= 3 || |listing| < ratio)
    requires flow.foundInLeafBloom == Sum(listing, Hit(flow.hash, flow.disk, value))
    requires flow.foundInSSTable == Sum(listing, HitOccurrences(flow.hash, flow.disk, flow.dump, value))
    modifies flow`foundInLeafBloom, flow`foundInSSTable
    ensures first == old(flow.foundInLeafBloom) && second == 2 * first
  {
    hide *;
    var tree := BuildTree(flow, listing, ratio);
    IsTreeOver(flow, listing, tree);
    SumOfNone(Hit(flow.hash, flow.disk, value));
    SearchAgain(flow, tree, listing, listing, value);
    first := flow.foundInLeafBloom;
    assert tree.bloomNames == Names(Found(flow.hash, tree.root, value));
    ResultAgrees(flow.hash, flow.disk, flow.dump, tree.root, tree.leafNodes, listing, listing, value);
    SearchAgain(flow, tree, listing, listing, value);
    second := flow.foundInLeafBloom;
  }

  /** One table that holds only "x", searched twice for "x" through the same tree: the flat scan and the first search
      find one hit, the second search two. */
  method SecondSearchDiffers(hash: Hash) returns (flat: nat, first: nat, second: nat)
    ensures flat == 1 && first == 1 && second == 2
  {
    hide *;
    var dump: Dump := _ => ["x"];
    var files, listing := ["a.ldb"], ["a.bloom"];
    OneTable(dump);
    var flow := new Flow(hash, dump);
    flow.CreateBloomValue(files);
    ListingNames(hash, flow.disk, dump, files, listing);
    HoldersHit(hash, flow.disk, dump, "x", files);
    var threw := flow.ScanningInBloomFiles(listing, "x");
    flat := flow.foundInLeafBloom;
    first, second := SearchTwice(flow, listing, 3, "x");
  }
}
