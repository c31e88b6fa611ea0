/** Table files: data blocks, an index of separators, and filters
    (leveldb/table/table_builder.cc, leveldb/table/table.cc).  Blocks appear as their entries; how they are
    encoded is the subject of Blocks and BlockIterators. */
module Tables {
  import opened Sequences
  import opened Options
  import opened Coding
  import opened Comparators
  import opened BloomFilters
  import opened FilterBlocks

  datatype Entry = Entry(key: InternalKey, value: Bytes)

  datatype IndexEntry = IndexEntry(key: InternalKey, offset: nat)

  ghost predicate Sorted(es: seq<Entry>) {
    forall i, j | 0 <= i < j < |es| :: KeyLess(es[i].key, es[j].key)
  }

  /** What a seek in a sorted block finds. */
  function FirstAtLeast(es: seq<Entry>, k: InternalKey): (n: nat)
    ensures n <= |es| && (forall i | 0 <= i < n :: KeyLess(es[i].key, k)) && (n < |es| ==> !KeyLess(es[n].key, k))
  {
    if es == [] || !KeyLess(es[0].key, k) then 0 else 1 + FirstAtLeast(es[1..], k)
  }

  function FirstIndex(index: seq<IndexEntry>, k: InternalKey): (n: nat)
    ensures n <= |index| && (forall i | 0 <= i < n :: KeyLess(index[i].key, k))
            && (n < |index| ==> !KeyLess(index[n].key, k))
  {
    if index == [] || !KeyLess(index[0].key, k) then 0 else 1 + FirstIndex(index[1..], k)
  }

  // ----- what the index says -----

  /** The separator of a block: at or after its last key, before everything later, and either that last key
      or a user key that nothing later has. */
  ghost predicate Separates(sep: InternalKey, block: seq<Entry>, later: seq<Entry>) {
    && block != [] && KeyAtMost(block[|block| - 1].key, sep)
    && (forall i | 0 <= i < |later| :: KeyLess(sep, later[i].key))
    && (sep == block[|block| - 1].key || forall i | 0 <= i < |later| :: Less(sep.user, later[i].key.user))
  }

  /** Everything after block i. */
  ghost function Later(blocks: seq<seq<Entry>>, i: nat, current: seq<Entry>): seq<Entry>
    requires i < |blocks|
  {
    Concat(blocks[i + 1..]) + current
  }

  ghost predicate IndexOk(index: seq<IndexEntry>, blocks: seq<seq<Entry>>, offsets: seq<nat>, current: seq<Entry>) {
    && |index| <= |blocks| == |offsets|
    && forall i | 0 <= i < |index| ::
        index[i].offset == offsets[i] && Separates(index[i].key, blocks[i], Later(blocks, i, current))
  }

  /** Every block is stored at its offset. */
  ghost predicate FileOk(file: map<nat, seq<Entry>>, blocks: seq<seq<Entry>>, offsets: seq<nat>, end: nat) {
    && |blocks| == |offsets|
    && (forall i | 0 <= i < |blocks| :: offsets[i] in file && file[offsets[i]] == blocks[i] && offsets[i] < end)
    && (forall i, j | 0 <= i < j < |offsets| :: offsets[i] < offsets[j])
  }

  /** The user keys of a block at an offset are in the filter of that offset, or waiting to be. */
  ghost predicate KeysFiltered(block: seq<Entry>, offset: nat, groups: seq<seq<Bytes>>, pending: seq<Bytes>) {
    forall j | 0 <= j < |block| ::
      if offset / BASE < |groups| then block[j].key.user in groups[offset / BASE]
      else offset / BASE == |groups| && block[j].key.user in pending
  }

  ghost predicate AllFiltered(blocks: seq<seq<Entry>>, offsets: seq<nat>, groups: seq<seq<Bytes>>, pending: seq<Bytes>)
    requires |blocks| == |offsets|
  {
    forall i | 0 <= i < |blocks| :: KeysFiltered(blocks[i], offsets[i], groups, pending)
  }

  // ----- looking up -----

  lemma FirstUnique(es: seq<Entry>, k: InternalKey, n: nat)
    requires n <= |es| && (forall i | 0 <= i < n :: KeyLess(es[i].key, k)) && (n < |es| ==> !KeyLess(es[n].key, k))
    ensures n == FirstAtLeast(es, k)
  {
    hide FirstAtLeast, KeyLess;
  }

  lemma {:induction false} JoinedConcat(a: seq<seq<Entry>>, b: seq<seq<Entry>>)
    ensures Concat(a + b) == Concat(a) + Concat(b)
  {
    if b == [] {
      assert a + b == a;
    } else {
      JoinedConcat(a, b[..|b| - 1]);
      assert (a + b)[..|a + b| - 1] == a + b[..|b| - 1];
    }
  }

  lemma JoinedOne(block: seq<Entry>)
    ensures Concat([block]) == block && Concat<Entry>([]) == []
  {
    assert Concat([block]) == Concat([]) + block;
  }

  lemma JoinedSplit(blocks: seq<seq<Entry>>, i: nat)
    requires i < |blocks|
    ensures Concat(blocks) == Concat(blocks[..i]) + blocks[i] + Concat(blocks[i + 1..])
    ensures Concat(blocks[..i + 1]) == Concat(blocks[..i]) + blocks[i]
  {
    hide Concat;
    JoinedConcat(blocks[..i], [blocks[i]]);
    JoinedOne(blocks[i]);
    assert blocks[..i + 1] == blocks[..i] + [blocks[i]];
    assert blocks == blocks[..i + 1] + blocks[i + 1..];
    JoinedConcat(blocks[..i + 1], blocks[i + 1..]);
  }

  ghost predicate AllBefore(es: seq<Entry>, k: InternalKey) {
    forall i | 0 <= i < |es| :: KeyLess(es[i].key, k)
  }

  lemma BlockBefore(block: seq<Entry>, sep: InternalKey, later: seq<Entry>, k: InternalKey)
    requires Sorted(block) && Separates(sep, block, later) && KeyLess(sep, k)
    ensures AllBefore(block, k)
  {
    hide KeyLess, Less;
    var last := block[|block| - 1].key;
    forall i | 0 <= i < |block| ensures KeyLess(block[i].key, k) {
      assert i < |block| - 1 ==> KeyLess(block[i].key, last);
      KeyOrder(block[i].key, last, k);
      KeyOrder(last, sep, k);
    }
  }

  /** Everything in the blocks that the index passes over is before the key. */
  lemma {:induction false} SkippedBefore(index: seq<IndexEntry>, blocks: seq<seq<Entry>>, offsets: seq<nat>,
                                         k: InternalKey, i: nat)
    requires IndexOk(index, blocks, offsets, []) && i <= |index| && (forall j | 0 <= j < |blocks| :: Sorted(blocks[j]))
    requires forall j | 0 <= j < i :: KeyLess(index[j].key, k)
    ensures AllBefore(Concat(blocks[..i]), k)
  {
    hide KeyLess, Less, Separates, Sorted;
    if i > 0 {
      SkippedBefore(index, blocks, offsets, k, i - 1);
      BlockBefore(blocks[i - 1], index[i - 1].key, Later(blocks, i - 1, []), k);
      JoinedSplit(blocks, i - 1);
    }
  }

  function At(es: seq<Entry>, n: nat): Option<Entry> { if n < |es| then Some(es[n]) else None }

  /** A result as the callback sees it: only an entry of the looked-up user key counts. */
  function ForUser(r: Option<Entry>, user: Bytes): Option<Entry> {
    if r.Some? && r.value.key.user == user then r else None
  }

  /** What a lookup must find: the first entry at or after the key, if it is of that user key. */
  ghost function Expected(blocks: seq<seq<Entry>>, k: InternalKey): Option<Entry> {
    ForUser(At(Concat(blocks), FirstAtLeast(Concat(blocks), k)), k.user)
  }

  /** The lookup returns the first entry at or after the key whenever that is of its user key, and otherwise none of
      that user key. */
  ghost predicate Finds(all: seq<Entry>, k: InternalKey, r: Option<Entry>) {
    && (forall i | 0 <= i < |all| && (forall j | 0 <= j < i :: KeyLess(all[j].key, k)) && !KeyLess(all[i].key, k) ::
          if all[i].key.user == k.user then r == Some(all[i]) else r.None? || r.value.key.user != k.user)
    && ((forall i | 0 <= i < |all| :: KeyLess(all[i].key, k)) ==> r.None? || r.value.key.user != k.user)
  }

  /** Of the entries of the user key that are not newer than asked for, the newest; and if there is none, none of that
      user key. */
  ghost predicate Newest(all: seq<Entry>, k: InternalKey, r: Option<Entry>) {
    && (r.Some? && r.value.key.user == k.user ==>
          && r.value in all && r.value.key.tag <= k.tag
          && forall e | e in all && e.key.user == k.user && e.key.tag <= k.tag :: e.key.tag <= r.value.key.tag)
    && (r.None? || r.value.key.user != k.user ==> forall e | e in all && e.key.user == k.user :: e.key.tag > k.tag)
  }

  lemma FoundIsNewest(all: seq<Entry>, k: InternalKey, r: Option<Entry>)
    requires Sorted(all) && ForUser(r, k.user) == ForUser(At(all, FirstAtLeast(all, k)), k.user)
    ensures Newest(all, k, r)
  {
    var n := FirstAtLeast(all, k);
    forall e | e in all && e.key.user == k.user && e.key.tag <= k.tag
      ensures n < |all| && all[n].key.user == k.user && e.key.tag <= all[n].key.tag
    {
      var i :| 0 <= i < |all| && all[i] == e;
      KeyOrder(e.key, k, k);
      assert n <= i;
      FirstOfUser(all[n].key, e.key, k);
    }
    if n < |all| {
      assert all[n] in all;
    }
  }

  /** A key at or after k, and at or before one of its user key, is of that user key too. */
  lemma FirstOfUser(a: InternalKey, e: InternalKey, k: InternalKey)
    requires !KeyLess(a, k) && KeyAtMost(a, e) && e.user == k.user
    ensures a.user == k.user && e.tag <= a.tag
  {
    hide Less;
    Total(a.user, k.user);
    Antisymmetric(a.user, k.user);
  }

  lemma Antisymmetric(a: Bytes, b: Bytes)
    ensures !(Less(a, b) && Less(b, a))
  {
    hide Less;
    if Less(a, b) && Less(b, a) {
      Transitive(a, b, a);
      Irreflexive(a);
    }
  }

  lemma ExpectedIsFound(blocks: seq<seq<Entry>>, k: InternalKey, r: Option<Entry>)
    requires ForUser(r, k.user) == Expected(blocks, k)
    ensures Finds(Concat(blocks), k, r) && (Sorted(Concat(blocks)) ==> Newest(Concat(blocks), k, r))
  {
    hide KeyLess, Concat, Newest;
    if Sorted(Concat(blocks)) {
      FoundIsNewest(Concat(blocks), k, r);
    }
  }

  /** The block that the index routes a key to is the only one that can answer. */
  lemma RoutedRight(index: seq<IndexEntry>, blocks: seq<seq<Entry>>, offsets: seq<nat>, k: InternalKey)
    requires IndexOk(index, blocks, offsets, []) && |index| == |blocks|
    requires forall j | 0 <= j < |blocks| :: Sorted(blocks[j])
    ensures var i := FirstIndex(index, k);
            Expected(blocks, k) ==
            if i < |blocks| then ForUser(At(blocks[i], FirstAtLeast(blocks[i], k)), k.user) else None
  {
    hide KeyLess, Less, FirstAtLeast, FirstIndex, Separates, Sorted, Concat;
    var i, all := FirstIndex(index, k), Concat(blocks);
    SkippedBefore(index, blocks, offsets, k, i);
    if i == |blocks| {
      assert blocks[..i] == blocks;
      FirstUnique(all, k, |all|);
    } else {
      JoinedSplit(blocks, i);
      assert Separates(index[i].key, blocks[i], Later(blocks, i, []));
      assert Later(blocks, i, []) == Concat(blocks[i + 1..]);
      RoutedTo(Concat(blocks[..i]), blocks[i], Concat(blocks[i + 1..]), index[i].key, k);
    }
  }

  lemma RoutedTo(before: seq<Entry>, block: seq<Entry>, later: seq<Entry>, sep: InternalKey, k: InternalKey)
    requires AllBefore(before, k) && Separates(sep, block, later) && !KeyLess(sep, k)
    ensures var all := before + block + later;
            ForUser(At(all, FirstAtLeast(all, k)), k.user) == ForUser(At(block, FirstAtLeast(block, k)), k.user)
  {
    hide KeyLess, Less, FirstAtLeast;
    var all, m := before + block + later, FirstAtLeast(block, k);
    assert forall i | 0 <= i < |before| :: all[i] == before[i];
    assert forall i | 0 <= i < |block| :: all[|before| + i] == block[i];
    if m < |block| {
      FirstUnique(all, k, |before| + m);
    } else {
      var n := FirstAtLeast(all, k);
      assert n >= |before| + |block|;
      if n < |all| {
        var e := all[n];
        assert e == later[n - |before| - |block|];
        NotThisUser(block[|block| - 1].key, sep, k, e);
      }
    }
  }

  lemma NotThisUser(last: InternalKey, sep: InternalKey, k: InternalKey, e: Entry)
    requires KeyLess(last, k) && !KeyLess(sep, k) && (sep == last || Less(sep.user, e.key.user))
    ensures e.key.user != k.user
  {
    hide Less;
    KeyOrder(sep, k, k);
    Irreflexive(k.user);
    if Less(k.user, sep.user) && Less(sep.user, k.user) { Transitive(k.user, sep.user, k.user); }
  }

  // ----- building -----

  ghost predicate OrderOk(blocks: seq<seq<Entry>>, current: seq<Entry>, lastKey: InternalKey) {
    && (forall i | 0 <= i < |blocks| :: Sorted(blocks[i]) && blocks[i] != [])
    && var all := Concat(blocks) + current; Sorted(all) && (all != [] ==> lastKey == all[|all| - 1].key)
  }

  ghost predicate FilteredOk(blocks: seq<seq<Entry>>, offsets: seq<nat>, current: seq<Entry>, offset: nat,
                             groups: seq<seq<Bytes>>, pending: seq<Bytes>) {
    && |blocks| == |offsets| && |groups| == offset / BASE
    && AllFiltered(blocks, offsets, groups, pending) && KeysFiltered(current, offset, groups, pending)
  }

  class TableBuilder {
    const full: seq<Entry> -> bool        // whether a data block has reached its size limit
    const stored: seq<Entry> -> nat       // the size of a block as written, after compression
    const filter: FilterBlockBuilder
    var dataBlock: seq<Entry>
    var index: seq<IndexEntry>
    var pendingIndexEntry: bool
    var pendingOffset: nat
    var lastKey: InternalKey
    var offset: nat
    var file: map<nat, seq<Entry>>
    ghost var blocks: seq<seq<Entry>>
    ghost var offsets: seq<nat>

    ghost function Entries(): seq<Entry>
      reads this
    {
      Concat(blocks) + dataBlock
    }

    ghost predicate Valid()
      reads this, filter
    {
      && filter.Valid()
      && IndexOk(index, blocks, offsets, dataBlock)
      && OrderOk(blocks, dataBlock, lastKey)
      && FileOk(file, blocks, offsets, offset)
      && FilteredOk(blocks, offsets, dataBlock, offset, filter.groups, filter.pending)
      && (if pendingIndexEntry then |index| + 1 == |blocks| == |offsets| && dataBlock == []
          && pendingOffset == offsets[|index|]
          else |index| == |blocks| && (blocks != [] ==> dataBlock != []))
    }

    constructor (policy: BloomFilterPolicy, full: seq<Entry> -> bool, stored: seq<Entry> -> nat)
      requires 1 <= policy.k <= 30
      ensures Valid() && fresh(filter) && filter.policy == policy && Entries() == []
    {
      this.full, this.stored := full, stored;
      filter := new FilterBlockBuilder(policy);
      dataBlock, index, pendingIndexEntry, pendingOffset := [], [], false, 0;
      lastKey, offset, file := InternalKey([], 0), 0, map[];
      blocks, offsets := [], [];
      new;
      filter.StartBlock(0);
    }

    /** Adds an entry after all others; the separator of a finished block is made when the next key is known. */
    method Add(key: InternalKey, value: Bytes)
      requires Valid() && (Entries() != [] ==> KeyLess(lastKey, key))
      modifies this, filter
      ensures Valid() && Entries() == old(Entries()) + [Entry(key, value)]
      ensures var block := old(dataBlock) + [Entry(key, value)]; dataBlock == if full(block) then [] else block
    {
      hide IndexOk, OrderOk, FileOk, FilteredOk, Concat, Less, KeyLess, FiltersOk, FilterBlocks.Starts;
      ghost var e := Entry(key, value);
      LastOfCurrent(blocks, dataBlock, lastKey);
      if pendingIndexEntry {
        AddSeparator(key, e);
        assert dataBlock + [e] == [e];
      } else {
        LaterGrows(index, blocks, offsets, dataBlock, e);
      }
      OrderGrows(blocks, dataBlock, lastKey, e);
      FilterGrows(blocks, offsets, dataBlock, offset, filter.groups, filter.pending, e);
      assert Concat(blocks) + (dataBlock + [e]) == Entries() + [e];
      filter.AddKey(key.user);
      lastKey := key;
      dataBlock := dataBlock + [Entry(key, value)];
      if full(dataBlock) {
        Flush();
      }
    }

    /** The index entry of the block that was finished before this key. */
    method AddSeparator(key: InternalKey, ghost e: Entry)
      requires Valid() && pendingIndexEntry && KeyLess(lastKey, key) && e.key == key
      modifies this`index, this`pendingIndexEntry
      ensures IndexOk(index, blocks, offsets, [e]) && |index| == |blocks| && !pendingIndexEntry
    {
      hide FileOk, FilteredOk, Concat, Less, KeyLess, KeyAtMost, ShortensBetween;
      var sep := InternalSeparator(lastKey, key);
      LastBlockEnds(blocks);
      assert Concat(blocks) + [] == Concat(blocks);
      IndexGrows(index, blocks, offsets, IndexEntry(sep, pendingOffset), e);
      index := index + [IndexEntry(sep, pendingOffset)];
      pendingIndexEntry := false;
    }

    /** Writes the last block, the filters and the last index entry. */
    method Finish() returns (t: Table)
      requires Valid()
      modifies this, filter
      ensures Concat(blocks) == old(Entries())
      ensures |filter.result| < TWO_32 ==>
                TableOk(t, filter.policy.hash, blocks, offsets, filter.result, filter.offsets, filter.groups)
    {
      hide IndexOk, OrderOk, FileOk, FilteredOk, Concat, FiltersOk, FilterBlocks.Starts, Less, KeyLess;
      Flush();
      assert Concat(blocks) + [] == Concat(blocks);
      ghost var groups, pending := filter.groups, filter.pending;
      var contents := filter.Finish();
      FilterFinished(blocks, offsets, offset, groups, pending, filter.groups);
      if pendingIndexEntry {
        AddSuccessor();
      }
      t := Table(index, file, contents);
      Facts(file, blocks, offsets, offset, lastKey);
    }

    method AddSuccessor()
      requires pendingIndexEntry && |index| + 1 == |blocks| == |offsets| && pendingOffset == offsets[|index|]
      requires IndexOk(index, blocks, offsets, []) && OrderOk(blocks, [], lastKey)
      modifies this`index, this`pendingIndexEntry
      ensures IndexOk(index, blocks, offsets, []) && |index| == |blocks| && !pendingIndexEntry
    {
      hide Concat, Less, KeyLess, KeyAtMost, IndexOk, ShortensAfter;
      var sep := InternalSuccessor(lastKey);
      LastBlockEnds(blocks);
      assert Concat(blocks) + [] == Concat(blocks);
      IndexCloses(index, blocks, offsets, IndexEntry(sep, pendingOffset));
      index := index + [IndexEntry(sep, pendingOffset)];
      pendingIndexEntry := false;
    }

    method Flush()
      requires Valid()
      modifies this, filter
      ensures Valid() && Entries() == old(Entries()) && dataBlock == []
      ensures blocks == (if old(dataBlock) == [] then old(blocks) else old(blocks) + [old(dataBlock)])
    {
      hide IndexOk, OrderOk, FileOk, FilteredOk, Concat, FiltersOk, FilterBlocks.Starts;
      if dataBlock == [] {
        return;
      }
      BlockClosed(index, blocks, offsets, dataBlock, offset);
      OrderClosed(blocks, dataBlock, lastKey);
      FileClosed(file, blocks, offsets, offset, dataBlock, stored(dataBlock) + 5);
      ghost var groups, pending := filter.groups, filter.pending;
      ghost var before, at, block := blocks, offsets, dataBlock;
      pendingOffset := offset;
      file := file[offset := dataBlock];
      blocks, offsets := blocks + [dataBlock], offsets + [offset];
      var next := offset + stored(dataBlock) + 5;
      FilterAt(before, at, block, offset, groups, pending);
      offset := next;
      dataBlock := [];
      pendingIndexEntry := true;
      filter.SameLength();
      filter.StartBlock(offset);
      FilterClosed(before, at, block, pendingOffset, offset, groups, pending, filter.groups, filter.pending);
    }
  }

  /** A finished table. */
  datatype Table = Table(index: seq<IndexEntry>, file: map<nat, seq<Entry>>, filter: Bytes)

  /** A table over these blocks; its filters were made from these groups of user keys. */
  ghost predicate TableOk(t: Table, hash: Hash, blocks: seq<seq<Entry>>, offsets: seq<nat>,
                          filters: Bytes, starts: seq<nat>, groups: seq<seq<Bytes>>) {
    && |t.index| == |blocks| == |offsets| && IndexOk(t.index, blocks, offsets, [])
    && (forall i | 0 <= i < |blocks| :: Sorted(blocks[i])) && Sorted(Concat(blocks))
    && (forall i | 0 <= i < |blocks| :: offsets[i] in t.file && t.file[offsets[i]] == blocks[i])
    && AllFiltered(blocks, offsets, groups, [])
    && FiltersOk(hash, filters, starts, groups) && |filters| < TWO_32 && AllFit(starts)
        && t.filter == Contents(filters, starts)
  }

  /** Table::InternalGet, with the table's filter or without one. */
  method InternalGet(t: Table, filtered: bool, policy: BloomFilterPolicy, k: InternalKey, ghost blocks: seq<seq<Entry>>,
                     ghost offsets: seq<nat>, ghost filters: Bytes, ghost starts: seq<nat>,
                         ghost groups: seq<seq<Bytes>>)
    returns (r: Option<Entry>)
    requires TableOk(t, policy.hash, blocks, offsets, filters, starts, groups)
    ensures ForUser(r, k.user) == Expected(blocks, k)
    ensures Finds(Concat(blocks), k, r)
    ensures Newest(Concat(blocks), k, r)
  {
    hide Newest, IndexOk, Expected, Finds, FirstIndex, FirstAtLeast, Sorted, FiltersOk, Contents, AllFiltered;
    RoutedRight(t.index, blocks, offsets, k);
    var i := FirstIndex(t.index, k);
    if i == |t.index| {
      ExpectedIsFound(blocks, k, None);
      return None;
    }
    assert t.index[i].offset == offsets[i] by { IndexOffset(t.index, blocks, offsets, i); }
    var offset := t.index[i].offset;
    if filtered {
      var may := MayMatch(policy, t.filter, offset, k.user, filters, starts, groups);
      if !may {
        NotInBlock(blocks, offsets, groups, i, k);
        ExpectedIsFound(blocks, k, None);
        return None;
      }
    }
    var block := t.file[offset];
    var n := FirstAtLeast(block, k);
    r := At(block, n);
    ExpectedIsFound(blocks, k, r);
  }

  /** A key in the filter of an offset always passes. */
  method MayMatch(policy: BloomFilterPolicy, contents: Bytes, offset: nat, user: Bytes,
                  ghost filters: Bytes, ghost starts: seq<nat>, ghost groups: seq<seq<Bytes>>) returns (may: bool)
    requires FiltersOk(policy.hash, filters, starts, groups) && |filters| < TWO_32 && AllFit(starts)
    requires contents == Contents(filters, starts)
    ensures offset / BASE < |groups| && user in groups[offset / BASE] ==> may
  {
    hide Covered, Contents;
    var reader := new FilterBlockReader(policy, contents, filters, starts);
    may := reader.KeyMayMatch(offset, user);
    reader.FindsFilter(offset, filters, starts);
    if offset / BASE < |groups| && user in groups[offset / BASE] {
      var i := offset / BASE;
      assert FilterOk(policy.hash, filters, starts[i], EndOf(starts, |filters|, i), groups[i]);
    }
  }

  lemma IndexOffset(index: seq<IndexEntry>, blocks: seq<seq<Entry>>, offsets: seq<nat>, i: nat)
    requires IndexOk(index, blocks, offsets, []) && i < |index|
    ensures i < |offsets| && index[i].offset == offsets[i]
  {
  }

  /** A user key that is not in a block's filter is not in the block. */
  lemma NotInBlock(blocks: seq<seq<Entry>>, offsets: seq<nat>, groups: seq<seq<Bytes>>, i: nat, k: InternalKey)
    requires |blocks| == |offsets| && AllFiltered(blocks, offsets, groups, []) && i < |blocks|
    requires !(offsets[i] / BASE < |groups| && k.user in groups[offsets[i] / BASE])
    ensures forall n: nat :: ForUser(At(blocks[i], n), k.user) == None
  {
    assert KeysFiltered(blocks[i], offsets[i], groups, []);
  }

  lemma EntriesGrow(es: seq<Entry>, e: Entry)
    requires Sorted(es) && (es != [] ==> KeyLess(es[|es| - 1].key, e.key))
    ensures Sorted(es + [e])
  {
    hide KeyLess;
    forall i | 0 <= i < |es| ensures KeyLess(es[i].key, e.key) {
      assert i < |es| - 1 ==> KeyLess(es[i].key, es[|es| - 1].key);
      KeyOrder(es[i].key, es[|es| - 1].key, e.key);
    }
  }

  lemma LastBlockEnds(blocks: seq<seq<Entry>>)
    requires blocks != [] && blocks[|blocks| - 1] != []
    ensures var b := blocks[|blocks| - 1];
            Concat(blocks) != [] && Concat(blocks)[|Concat(blocks)| - 1] == b[|b| - 1]
  {
  }

  lemma LaterLast(blocks: seq<seq<Entry>>, i: nat, current: seq<Entry>)
    requires i < |blocks| && (current != [] || (i + 1 < |blocks| && blocks[|blocks| - 1] != []))
    ensures var later := Later(blocks, i, current);
            later != [] && later[|later| - 1] == if current != [] then current[|current| - 1]
                                                 else blocks[|blocks| - 1][|blocks[|blocks| - 1]| - 1]
  {
    if current == [] {
      assert blocks[i + 1..][|blocks[i + 1..]| - 1] == blocks[|blocks| - 1];
      LastBlockEnds(blocks[i + 1..]);
    }
  }

  lemma AddLater(sep: InternalKey, block: seq<Entry>, later: seq<Entry>, e: Entry)
    requires Separates(sep, block, later) && later != [] && KeyLess(later[|later| - 1].key, e.key)
    ensures Separates(sep, block, later + [e])
  {
    hide Less, KeyAtMost;
    var last := later[|later| - 1].key;
    KeyOrder(sep, last, e.key);
    if Less(sep.user, last.user) && Less(last.user, e.key.user) { Transitive(sep.user, last.user, e.key.user); }
  }

  lemma LaterGrows(index: seq<IndexEntry>, blocks: seq<seq<Entry>>, offsets: seq<nat>, current: seq<Entry>, e: Entry)
    requires IndexOk(index, blocks, offsets, current) && (blocks != [] ==> current != [])
    requires current != [] ==> KeyLess(current[|current| - 1].key, e.key)
    ensures IndexOk(index, blocks, offsets, current + [e])
  {
    hide Separates, Concat, KeyLess;
    forall i | 0 <= i < |index| ensures Separates(index[i].key, blocks[i], Later(blocks, i, current + [e])) {
      LaterLast(blocks, i, current);
      AddLater(index[i].key, blocks[i], Later(blocks, i, current), e);
      assert Later(blocks, i, current + [e]) == Later(blocks, i, current) + [e];
    }
  }

  lemma IndexGrows(index: seq<IndexEntry>, blocks: seq<seq<Entry>>, offsets: seq<nat>, ie: IndexEntry, e: Entry)
    requires IndexOk(index, blocks, offsets, []) && |index| + 1 == |blocks| && blocks[|index|] != []
    requires ie.offset == offsets[|index|] && Separates(ie.key, blocks[|index|], [e])
    requires KeyLess(blocks[|index|][|blocks[|index|]| - 1].key, e.key)
    ensures IndexOk(index + [ie], blocks, offsets, [e])
  {
    hide Separates, Concat, KeyLess;
    var n := |index|;
    forall i | 0 <= i <= n ensures Separates((index + [ie])[i].key, blocks[i], Later(blocks, i, [e])) {
      if i < n {
        LaterLast(blocks, i, []);
        AddLater(index[i].key, blocks[i], Later(blocks, i, []), e);
        assert Later(blocks, i, [e]) == Later(blocks, i, []) + [e];
      } else {
        assert blocks[n + 1..] == [];
        JoinedOne([]);
        assert Later(blocks, n, [e]) == [e];
      }
    }
  }

  /** The last block may be indexed by any key at or after its own last. */
  lemma IndexCloses(index: seq<IndexEntry>, blocks: seq<seq<Entry>>, offsets: seq<nat>, ie: IndexEntry)
    requires IndexOk(index, blocks, offsets, []) && |index| + 1 == |blocks| && blocks[|index|] != []
    requires ie.offset == offsets[|index|] && KeyAtMost(blocks[|index|][|blocks[|index|]| - 1].key, ie.key)
    ensures IndexOk(index + [ie], blocks, offsets, [])
  {
    hide Concat, Less, KeyLess, KeyAtMost;
    assert blocks[|index| + 1..] == [];
    JoinedOne([]);
    assert Later(blocks, |index|, []) == [];
  }

  lemma BlockClosed(index: seq<IndexEntry>, blocks: seq<seq<Entry>>, offsets: seq<nat>, current: seq<Entry>,
                    offset: nat)
    requires IndexOk(index, blocks, offsets, current)
    ensures IndexOk(index, blocks + [current], offsets + [offset], [])
    ensures Concat(blocks + [current]) == Concat(blocks) + current
  {
    hide Separates, Concat;
    var blocks' := blocks + [current];
    JoinedConcat(blocks, [current]);
    JoinedOne(current);
    forall i | 0 <= i < |index| ensures Later(blocks', i, []) == Later(blocks, i, current) {
      assert blocks'[i + 1..] == blocks[i + 1..] + [current];
      JoinedConcat(blocks[i + 1..], [current]);
    }
  }

  /** Starting the next block keeps every key in the filter of its block's offset. */
  lemma FilteredAfterStart(block: seq<Entry>, offset: nat, groups: seq<seq<Bytes>>, pending: seq<Bytes>,
                           groups': seq<seq<Bytes>>, pending': seq<Bytes>)
    requires KeysFiltered(block, offset, groups, pending) && groups <= groups'
    requires |groups| == |groups'| ==> pending' == pending
    requires |groups| < |groups'| ==> groups'[|groups|] == pending
    ensures KeysFiltered(block, offset, groups', pending')
  {
  }

  lemma LastOfCurrent(blocks: seq<seq<Entry>>, current: seq<Entry>, lastKey: InternalKey)
    requires OrderOk(blocks, current, lastKey)
    ensures current != [] ==> current[|current| - 1].key == lastKey
    ensures current != [] || blocks != [] ==> Concat(blocks) + current != []
  {
    if blocks != [] {
      LastBlockEnds(blocks);
    }
  }

  lemma OrderGrows(blocks: seq<seq<Entry>>, current: seq<Entry>, lastKey: InternalKey, e: Entry)
    requires OrderOk(blocks, current, lastKey) && (Concat(blocks) + current != [] ==> KeyLess(lastKey, e.key))
    ensures OrderOk(blocks, current + [e], e.key)
  {
    hide Concat, KeyLess, Sorted;
    EntriesGrow(Concat(blocks) + current, e);
    assert Concat(blocks) + (current + [e]) == Concat(blocks) + current + [e];
  }

  lemma OrderClosed(blocks: seq<seq<Entry>>, current: seq<Entry>, lastKey: InternalKey)
    requires OrderOk(blocks, current, lastKey) && current != []
    ensures OrderOk(blocks + [current], [], lastKey)
  {
    hide Concat, KeyLess;
    JoinedConcat(blocks, [current]);
    JoinedOne(current);
    var all := Concat(blocks) + current;
    assert forall i | 0 <= i < |current| :: current[i] == all[|Concat(blocks)| + i];
    assert Concat(blocks + [current]) + [] == all;
  }

  lemma FilterGrows(blocks: seq<seq<Entry>>, offsets: seq<nat>, current: seq<Entry>, offset: nat,
                    groups: seq<seq<Bytes>>, pending: seq<Bytes>, e: Entry)
    requires FilteredOk(blocks, offsets, current, offset, groups, pending)
    ensures FilteredOk(blocks, offsets, current + [e], offset, groups, pending + [e.key.user])
  {
    forall i | 0 <= i < |blocks| ensures KeysFiltered(blocks[i], offsets[i], groups, pending + [e.key.user]) {
      assert KeysFiltered(blocks[i], offsets[i], groups, pending);
    }
  }

  lemma FilterAt(blocks: seq<seq<Entry>>, offsets: seq<nat>, current: seq<Entry>, offset: nat,
                 groups: seq<seq<Bytes>>, pending: seq<Bytes>)
    requires FilteredOk(blocks, offsets, current, offset, groups, pending)
    ensures |groups| == offset / BASE && forall n: nat | n >= offset :: n / BASE >= |groups|
  {
  }

  lemma FilterClosed(blocks: seq<seq<Entry>>, offsets: seq<nat>, current: seq<Entry>, offset: nat, next: nat,
                     groups: seq<seq<Bytes>>, pending: seq<Bytes>, groups': seq<seq<Bytes>>, pending': seq<Bytes>)
    requires FilteredOk(blocks, offsets, current, offset, groups, pending) && groups <= groups'
             && |groups'| == next / BASE
    requires |groups| == |groups'| ==> pending' == pending
    requires |groups| < |groups'| ==> groups'[|groups|] == pending
    ensures FilteredOk(blocks + [current], offsets + [offset], [], next, groups', pending')
  {
    hide KeysFiltered;
    forall i | 0 <= i <= |blocks|
      ensures KeysFiltered((blocks + [current])[i], (offsets + [offset])[i], groups', pending') {
      FilteredAfterStart((blocks + [current])[i], (offsets + [offset])[i], groups, pending, groups', pending');
    }
    NoneFiltered(next, groups', pending');
  }

  lemma NoneFiltered(offset: nat, groups: seq<seq<Bytes>>, pending: seq<Bytes>)
    ensures KeysFiltered([], offset, groups, pending)
  {
  }

  lemma FileClosed(file: map<nat, seq<Entry>>, blocks: seq<seq<Entry>>, offsets: seq<nat>, end: nat,
                   current: seq<Entry>, size: nat)
    requires FileOk(file, blocks, offsets, end) && size > 0
    ensures FileOk(file[end := current], blocks + [current], offsets + [end], end + size)
  {
  }

  lemma FilterFinished(blocks: seq<seq<Entry>>, offsets: seq<nat>, offset: nat, groups: seq<seq<Bytes>>,
                       pending: seq<Bytes>,
                       groups': seq<seq<Bytes>>)
    requires FilteredOk(blocks, offsets, [], offset, groups, pending)
    requires groups' == groups + if pending == [] then [] else [pending]
    ensures AllFiltered(blocks, offsets, groups', [])
  {
    forall i | 0 <= i < |blocks| ensures KeysFiltered(blocks[i], offsets[i], groups', []) {
      assert KeysFiltered(blocks[i], offsets[i], groups, pending);
    }
  }

  lemma Facts(file: map<nat, seq<Entry>>, blocks: seq<seq<Entry>>, offsets: seq<nat>, end: nat, lastKey: InternalKey)
    requires FileOk(file, blocks, offsets, end) && OrderOk(blocks, [], lastKey)
    ensures |blocks| == |offsets|
    ensures forall i | 0 <= i < |blocks| :: Sorted(blocks[i]) && offsets[i] in file && file[offsets[i]] == blocks[i]
    ensures Sorted(Concat(blocks))
  {
    assert Concat(blocks) + [] == Concat(blocks);
  }
}
