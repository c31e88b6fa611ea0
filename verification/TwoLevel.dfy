/** The two-level iterator (leveldb/table/two_level_iterator.cc): an index whose
    values name blocks, read as one run of entries. */
module TwoLevelIterators {
  import opened Sequences
  import opened Options
  import opened InternalKeys

  // ----- the run that the blocks make up -----

  /** Offset of block b's first entry. */
  ghost function Offset(blocks: seq<seq<Entry>>, b: nat): nat
    requires b <= |blocks|
  {
    |Concat(blocks[..b])|
  }

  lemma {:induction false} OffsetStep(blocks: seq<seq<Entry>>, b: nat)
    requires b < |blocks|
    ensures Offset(blocks, b + 1) == Offset(blocks, b) + |blocks[b]|
  {
    assert blocks[..b + 1][..b] == blocks[..b];
  }

  lemma {:induction false} OffsetMonotone(blocks: seq<seq<Entry>>, b: nat, c: nat)
    requires b <= c <= |blocks|
    ensures Offset(blocks, b) <= Offset(blocks, c)
  {
    if b < c {
      OffsetMonotone(blocks, b, c - 1);
      OffsetStep(blocks, c - 1);
    }
  }

  lemma {:induction false} FlattenAt(blocks: seq<seq<Entry>>, b: nat, j: nat)
    requires b < |blocks| && j < |blocks[b]|
    ensures Offset(blocks, b) + j < |Concat(blocks)|
    ensures Concat(blocks)[Offset(blocks, b) + j] == blocks[b][j]
  {
    var n := |blocks| - 1;
    if b == n {
    } else {
      FlattenAt(blocks[..n], b, j);
      assert blocks[..n][..b] == blocks[..b];
    }
  }

  /** The index key of a block is at or after all its entries and before all later ones. */
  ghost predicate Separated(seps: seq<IKey>, blocks: seq<seq<Entry>>) {
    && |seps| == |blocks|
    && (forall b, j :: 0 <= b < |blocks| && 0 <= j < |blocks[b]| ==> AtMost(blocks[b][j].key, seps[b]))
    && (forall b, c, j :: 0 <= b < c < |blocks| && 0 <= j < |blocks[c]| ==> Less(seps[b], blocks[c][j].key))
    && (forall b, c :: 0 <= b < c < |seps| ==> Less(seps[b], seps[c]))
    && (forall b :: 0 <= b < |blocks| ==> StrictlySorted(blocks[b]))
  }

  function SeekSeparator(seps: seq<IKey>, target: IKey): (n: nat)
    ensures n <= |seps|
    ensures forall i :: 0 <= i < n ==> Less(seps[i], target)
    ensures n < |seps| ==> !Less(seps[n], target)
  {
    if seps == [] || !Less(seps[0], target) then 0 else 1 + SeekSeparator(seps[1..], target)
  }

  // ----- the iterator -----

  class TwoLevelIterator {
    const seps: seq<IKey>
    const blocks: seq<seq<Entry>>
    const handles: seq<nat>
    var index: nat
    var data: Option<(nat, nat)>   // the open block and the position in it
    var dataHandle: nat
    ghost var at: nat

    ghost function Flat(): seq<Entry> { Concat(blocks) }

    ghost predicate GoodIndex() {
      && Separated(seps, blocks) && |handles| == |blocks|
      && forall b, c :: 0 <= b < c < |handles| ==> handles[b] != handles[c]
    }

    /** The open block is the one its handle names. */
    ghost predicate Opened()
      reads this
    {
      && GoodIndex() && index <= |blocks|
      && (data.Some? ==>
            data.value.0 < |blocks| && data.value.1 <= |blocks[data.value.0]| && dataHandle == handles[data.value.0])
    }

    predicate OnEntry()
      reads this
    {
      data.Some? && data.value.0 < |blocks| && data.value.1 < |blocks[data.value.0]|
    }

    ghost predicate Ok()
      reads this
    {
      && Opened() && at <= |Flat()|
      && (OnEntry() <==> at < |Flat()|)
      && (OnEntry() ==> data.value.0 == index && at == Offset(blocks, index) + data.value.1)
    }

    constructor (seps: seq<IKey>, blocks: seq<seq<Entry>>, handles: seq<nat>)
      requires Separated(seps, blocks) && |handles| == |blocks|
      requires forall b, c :: 0 <= b < c < |handles| ==> handles[b] != handles[c]
      ensures this.seps == seps && this.blocks == blocks && Ok() && !OnEntry()
    {
      this.seps, this.blocks, this.handles := seps, blocks, handles;
      index, data, dataHandle := |blocks|, None, 0;
      at := |Concat(blocks)|;
    }

    /** The entry under the cursor is entry `at` of the run. */
    function Current(): (e: Entry)
      requires Ok() && OnEntry()
      reads this
      ensures e == Flat()[at]
    {
      FlattenAt(blocks, index, data.value.1);
      blocks[data.value.0][data.value.1]
    }

    /** InitDataBlock: keep the block that is open if the index still names it. */
    method InitDataBlock()
      requires Opened()
      modifies this`data, this`dataHandle
      ensures Opened()
      ensures data.Some? <==> index < |blocks|
      ensures data.Some? ==> data.value.0 == index
    {
      if index == |blocks| {
        data := None;
      } else if data.Some? && handles[index] == dataHandle {
      } else {
        dataHandle := handles[index];
        data := Some((index, |blocks[index]|));
      }
    }

    /** SkipEmptyDataBlocksForward: from the end of the current block to the next entry, g. */
    method SkipEmptyDataBlocksForward(ghost g: nat)
      requires Opened() && (data.Some? <==> index < |blocks|) && (data.Some? ==> data.value.0 == index)
      requires g == if index < |blocks| then Offset(blocks, index) + data.value.1 else |Flat()|
      modifies this
      ensures Ok() && at == g
    {
      while data.None? || data.value.1 >= |blocks[data.value.0]|
        invariant Opened() && (data.Some? <==> index < |blocks|) && (data.Some? ==> data.value.0 == index)
        invariant g == if index < |blocks| then Offset(blocks, index) + data.value.1 else |Flat()|
        decreases |blocks| - index
      {
        if index == |blocks| {
          data, at := None, g;
          return;
        }
        OffsetStep(blocks, index);
        index := index + 1;
        InitDataBlock();
        if data.Some? {
          data := Some((index, 0));
        }
        assert blocks[..|blocks|] == blocks;
      }
      at := g;
      FlattenAt(blocks, index, data.value.1);
    }

    /** SkipEmptyDataBlocksBackward: to the entry before position g. */
    method SkipEmptyDataBlocksBackward(ghost g: nat)
      requires Opened() && (data.Some? <==> index < |blocks|) && (data.Some? ==> data.value.0 == index)
      requires index < |blocks|
               ==> g == Offset(blocks, index) + (if data.value.1 < |blocks[index]| then data.value.1 + 1 else 0)
      requires index == |blocks| ==> g == 0
      modifies this
      ensures Ok() && at == (if g > 0 then g - 1 else |Flat()|)
    {
      while data.None? || data.value.1 >= |blocks[data.value.0]|
        invariant Opened() && (data.Some? <==> index < |blocks|) && (data.Some? ==> data.value.0 == index)
        invariant index < |blocks|
                  ==> g == Offset(blocks, index) + (if data.value.1 < |blocks[index]| then data.value.1 + 1 else 0)
        invariant index == |blocks| ==> g == 0
        decreases if index == |blocks| then 0 else index + 1
      {
        if index == |blocks| {
          data, at := None, |Flat()|;
          return;
        }
        if index > 0 { OffsetStep(blocks, index - 1); }
        index := if index == 0 then |blocks| else index - 1;
        InitDataBlock();
        if data.Some? {
          data := Some((index, if |blocks[index]| == 0 then 0 else |blocks[index]| - 1));
        }
      }
      at := g - 1;
      FlattenAt(blocks, index, data.value.1);
    }

    method Next()
      requires Ok() && OnEntry()
      modifies this
      ensures Ok() && at == old(at) + 1
    {
      data := Some((data.value.0, data.value.1 + 1));
      SkipEmptyDataBlocksForward(at + 1);
    }

    method Prev()
      requires Ok() && OnEntry()
      modifies this
      ensures Ok() && at == (if old(at) > 0 then old(at) - 1 else |Flat()|)
    {
      var (b, j) := data.value;
      data := Some((b, if j == 0 then |blocks[b]| else j - 1));
      SkipEmptyDataBlocksBackward(at);
    }

    method SeekToFirst()
      requires Ok()
      modifies this
      ensures Ok() && at == 0
    {
      index := 0;
      InitDataBlock();
      if data.Some? {
        data := Some((index, 0));
      }
      SkipEmptyDataBlocksForward(0);
    }

    method SeekToLast()
      requires Ok()
      modifies this
      ensures Ok() && at == (if |Flat()| > 0 then |Flat()| - 1 else 0)
    {
      index := if |blocks| == 0 then 0 else |blocks| - 1;
      InitDataBlock();
      if data.Some? {
        data := Some((index, if |blocks[index]| == 0 then 0 else |blocks[index]| - 1));
        OffsetStep(blocks, index);
        assert blocks[..|blocks|] == blocks;
      }
      SkipEmptyDataBlocksBackward(|Flat()|);
    }

    method Seek(target: IKey)
      requires Ok()
      modifies this
      ensures Ok() && at == SeekIndex(Flat(), target)
    {
      index := SeekSeparator(seps, target);
      InitDataBlock();
      if data.Some? {
        data := Some((index, SeekIndex(blocks[index], target)));
      }
      ghost var g := if index < |blocks| then Offset(blocks, index) + data.value.1 else |Flat()|;
      SeekLands(seps, blocks, target);
      SkipEmptyDataBlocksForward(g);
    }
  }

  // ----- where a seek lands -----

  lemma {:induction false} FlattenLocate(blocks: seq<seq<Entry>>, m: nat) returns (b: nat, j: nat)
    requires m < |Concat(blocks)|
    ensures b < |blocks| && j < |blocks[b]| && m == Offset(blocks, b) + j && Concat(blocks)[m] == blocks[b][j]
  {
    var n := |blocks| - 1;
    if m < |Concat(blocks[..n])| {
      b, j := FlattenLocate(blocks[..n], m);
      assert blocks[..n][..b] == blocks[..b];
    } else {
      b, j := n, m - |Concat(blocks[..n])|;
    }
  }

  lemma FlattenSorted(seps: seq<IKey>, blocks: seq<seq<Entry>>)
    requires Separated(seps, blocks)
    ensures StrictlySorted(Concat(blocks))
  {
    var flat := Concat(blocks);
    forall m, n | 0 <= m < n < |flat| ensures Less(flat[m].key, flat[n].key) {
      var b, j := FlattenLocate(blocks, m);
      var c, k := FlattenLocate(blocks, n);
      if c < b { OffsetMonotone(blocks, c + 1, b); OffsetStep(blocks, c); }
      if b < c { assert AtMost(blocks[b][j].key, seps[b]) && Less(seps[b], blocks[c][k].key); }
    }
  }

  /** Seeking in the index, then in the block it names, finds the first entry of the
      whole run at or after the target. */
  lemma SeekLands(seps: seq<IKey>, blocks: seq<seq<Entry>>, target: IKey)
    requires Separated(seps, blocks)
    ensures var b := SeekSeparator(seps, target);
            SeekIndex(Concat(blocks), target) == if b < |blocks| then Offset(blocks, b) + SeekIndex(blocks[b], target)
                else |Concat(blocks)|
  {
    var b := SeekSeparator(seps, target);
    var flat := Concat(blocks);
    var g := if b < |blocks| then Offset(blocks, b) + SeekIndex(blocks[b], target) else |flat|;
    FlattenSorted(seps, blocks);
    assert blocks[..|blocks|] == blocks;
    if b < |blocks| { OffsetStep(blocks, b); OffsetMonotone(blocks, b + 1, |blocks|); }
    forall m | 0 <= m < |flat| ensures m < g <==> Less(flat[m].key, target) {
      var c, k := FlattenLocate(blocks, m);
      SeekSide(seps, blocks, target, c, k);
      if c < b && b < |blocks| { OffsetMonotone(blocks, c + 1, b); OffsetStep(blocks, c); }
      if b < c { OffsetMonotone(blocks, b + 1, c); }
    }
    SeekIndexUnique(flat, target, g);
  }

  lemma SeekSide(seps: seq<IKey>, blocks: seq<seq<Entry>>, target: IKey, c: nat, k: nat)
    requires Separated(seps, blocks) && c < |blocks| && k < |blocks[c]|
    ensures var b := SeekSeparator(seps, target);
            && (c < b ==> Less(blocks[c][k].key, target))
            && (c == b ==> (k < SeekIndex(blocks[b], target) <==> Less(blocks[c][k].key, target)))
            && (c > b ==> !Less(blocks[c][k].key, target))
  {
  }
}
