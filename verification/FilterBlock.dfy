/** One filter for every 2 KB of data-block offsets (leveldb/table/filter_block.cc). */
module FilterBlocks {
  import opened Sequences
  import opened Coding
  import opened BloomFilters

  const BASE_LG: nat := 11
  const BASE: nat := 2048

  /** The filter was made to match this key. */
  ghost predicate Admits(hash: Hash, filter: Bytes, key: Bytes) {
    |filter| >= 2 && filter[|filter| - 1] <= 30 && Covered(hash, filter[..|filter| - 1], filter[|filter| - 1], key)
  }

  /** Where filter i ends: where the next one starts, or at the end of the filters. */
  function EndOf(offsets: seq<nat>, total: nat, i: nat): nat
    requires i < |offsets|
  {
    if i + 1 < |offsets| then offsets[i + 1] else total
  }

  ghost predicate FilterOk(hash: Hash, result: Bytes, lo: nat, hi: nat, keys: seq<Bytes>) {
    && lo <= hi <= |result|
    && forall j | 0 <= j < |keys| :: Admits(hash, result[lo..hi], keys[j])
  }

  /** Filter i matches all keys of group i. */
  ghost predicate FiltersOk(hash: Hash, result: Bytes, offsets: seq<nat>, groups: seq<seq<Bytes>>) {
    && |offsets| == |groups|
    && forall i | 0 <= i < |offsets| :: FilterOk(hash, result, offsets[i], EndOf(offsets, |result|, i), groups[i])
  }

  // ----- keys laid end to end -----

  ghost predicate Starts(keys: seq<Bytes>, start: seq<nat>) {
    |start| == |keys| && forall i | 0 <= i < |keys| :: start[i] == |Concat(keys[..i])|
  }

  lemma {:induction false} FlatPart(keys: seq<Bytes>, i: nat)
    requires i < |keys|
    ensures |Concat(keys[..i])| + |keys[i]| == |Concat(keys[..i + 1])| <= |Concat(keys)|
    ensures Concat(keys)[|Concat(keys[..i])|..|Concat(keys[..i + 1])|] == keys[i]
  {
    var n := |keys| - 1;
    assert keys[..i + 1][..i] == keys[..i];
    if i < n {
      FlatPart(keys[..n], i);
      assert keys[..n][..i] == keys[..i] && keys[..n][..i + 1] == keys[..i + 1];
    } else {
      assert keys[..i + 1] == keys;
    }
  }

  class FilterBlockBuilder {
    const policy: BloomFilterPolicy
    var keys: Bytes
    var start: seq<nat>
    var result: Bytes
    var offsets: seq<nat>
    ghost var pending: seq<Bytes>         // keys for the filter still to be made
    ghost var groups: seq<seq<Bytes>>     // keys of each filter made

    ghost predicate Valid()
      reads this
    {
      && 1 <= policy.k <= 30 && keys == Concat(pending) && Starts(pending, start)
      && FiltersOk(policy.hash, result, offsets, groups)
    }

    constructor (policy: BloomFilterPolicy)
      requires 1 <= policy.k <= 30
      ensures Valid() && this.policy == policy && pending == [] && groups == []
    {
      this.policy := policy;
      keys, start, result, offsets := [], [], [], [];
      pending, groups := [], [];
    }

    method AddKey(key: Bytes)
      requires Valid()
      modifies this`keys, this`start, this`pending
      ensures Valid() && pending == old(pending) + [key]
    {
      hide FiltersOk;
      start := start + [|keys|];
      keys := keys + key;
      KeyAdded(pending, old(start), key);
      pending := pending + [key];
    }

    /** Starts a data block: filters are made until the next one is that of the block's offset. */
    method StartBlock(blockOffset: nat)
      requires Valid() && blockOffset / BASE >= |offsets|
      modifies this
      ensures Valid() && |groups| == blockOffset / BASE && old(groups) <= groups
      ensures |old(groups)| == |groups| ==> pending == old(pending)
      ensures |old(groups)| < |groups| ==> pending == [] && groups[|old(groups)|] == old(pending)
    {
      hide FiltersOk, Concat, Starts;
      SameLength();
      var index := blockOffset / BASE;
      while index > |offsets|
        invariant Valid() && |offsets| == |groups| <= index && old(groups) <= groups
        invariant |old(groups)| == |groups| ==> pending == old(pending)
        invariant |old(groups)| < |groups| ==> pending == [] && groups[|old(groups)|] == old(pending)
        decreases index - |offsets|
      {
        GenerateFilter();
      }
    }

    lemma SameLength()
      requires Valid()
      ensures |offsets| == |groups|
    {
    }

    method GenerateFilter()
      requires Valid()
      modifies this
      ensures Valid() && groups == old(groups) + [old(pending)] && pending == [] && |offsets| == |groups|
      ensures |offsets| == |old(offsets)| + 1 && (old(pending) == [] ==> result == old(result))
    {
      hide Concat, Covered;
      if |start| == 0 {
        offsets := offsets + [|result|];
        MadeFilter(policy.hash, old(result), old(offsets), groups, [], []);
        assert result + [] == result;
        assert pending == [];
        groups := groups + [[]];
        return;
      }
      var tmp := SplitKeys();
      var filter := policy.CreateFilter(tmp);
      offsets := offsets + [|result|];
      MadeFilter(policy.hash, result, old(offsets), groups, filter, tmp);
      result := result + filter;
      keys, start := [], [];
      groups, pending := groups + [tmp], [];
      NoKeys();
    }

    /** Cuts the laid-out keys apart again. */
    method SplitKeys() returns (r: seq<Bytes>)
      requires Valid()
      ensures r == pending
    {
      hide FiltersOk;
      r := [];
      for i := 0 to |start|
        invariant r == pending[..i]
      {
        FlatPart(pending, i);
        var end := if i + 1 < |start| then start[i + 1] else |keys|;
        assert pending[..|pending|] == pending;
        r := r + [keys[start[i]..end]];
      }
    }

    /** The filters, their offsets, where the offsets start, and the base. */
    method Finish() returns (contents: Bytes)
      requires Valid()
      modifies this
      ensures Valid() && pending == [] && groups == old(groups) + (if old(pending) == [] then [] else [old(pending)])
      ensures |result| < TWO_32 ==> AllFit(offsets) && contents == Contents(result, offsets)
    {
      hide FiltersOk, Concat;
      if |start| > 0 {
        GenerateFilter();
      }
      OffsetsFit();
      contents := Serialize(result, offsets);
    }

    lemma OffsetsFit()
      requires Valid()
      ensures |result| < TWO_32 ==> AllFit(offsets)
    {
    }
  }

  function Contents(result: Bytes, offsets: seq<nat>): Bytes
    requires AllFit(offsets) && |result| < TWO_32
  {
    result + EncodeAll(offsets) + EncodeFixed32(|result|) + [BASE_LG]
  }

  /** Offsets are written in 32 bits. */
  method Serialize(result: Bytes, offsets: seq<nat>) returns (contents: Bytes)
    ensures |result| < TWO_32 && AllFit(offsets) ==> contents == Contents(result, offsets)
  {
    hide EncodeFixed32;
    contents := result;
    for i := 0 to |offsets|
      invariant AllFit(offsets) ==> contents == result + EncodeAll(offsets[..i])
    {
      assert offsets[..i + 1][..i] == offsets[..i];
      contents := contents + EncodeFixed32(offsets[i] % TWO_32);
    }
    assert offsets[..|offsets|] == offsets;
    contents := contents + EncodeFixed32(|result| % TWO_32) + [BASE_LG];
  }

  lemma NoKeys()
    ensures Concat<Byte>([]) == [] && Starts([], [])
  {
  }

  lemma KeyAdded(pending: seq<Bytes>, start: seq<nat>, key: Bytes)
    requires Starts(pending, start)
    ensures Concat(pending + [key]) == Concat(pending) + key && Starts(pending + [key], start + [|Concat(pending)|])
  {
    var all := pending + [key];
    assert all[..|pending|] == pending;
    assert forall i | 0 <= i < |pending| :: all[..i] == pending[..i];
  }

  lemma MadeFilter(hash: Hash, result: Bytes, offsets: seq<nat>, groups: seq<seq<Bytes>>, filter: Bytes,
                   keys: seq<Bytes>)
    requires FiltersOk(hash, result, offsets, groups)
    requires forall j | 0 <= j < |keys| :: Admits(hash, filter, keys[j])
    ensures FiltersOk(hash, result + filter, offsets + [|result|], groups + [keys])
  {
    hide Admits;
    var result', offsets' := result + filter, offsets + [|result|];
    forall i | 0 <= i < |offsets'|
      ensures FilterOk(hash, result', offsets'[i], EndOf(offsets', |result'|, i), (groups + [keys])[i])
    {
      if i < |offsets| {
        assert FilterOk(hash, result, offsets[i], EndOf(offsets, |result|, i), groups[i]);
        assert result'[offsets[i]..EndOf(offsets, |result|, i)] == result[offsets[i]..EndOf(offsets, |result|, i)];
      } else {
        assert result'[|result|..|result'|] == filter;
      }
    }
  }

  // ----- reading -----

  ghost predicate Matches(hash: Hash, filter: Bytes, key: Bytes) {
    |filter| >= 2 && (filter[|filter| - 1] > 30 || Covered(hash, filter[..|filter| - 1], filter[|filter| - 1], key))
  }

  function ShiftRight(n: nat, k: nat): nat {
    if k == 0 then n else ShiftRight(n / 2, k - 1)
  }

  lemma ShiftByThree(n: nat, k: nat)
    requires k >= 3
    ensures ShiftRight(n, k) == ShiftRight(n / 8, k - 3)
  {
    assert ShiftRight(n, k) == ShiftRight(n / 2, k - 1);
    assert ShiftRight(n / 2, k - 1) == ShiftRight(n / 2 / 2, k - 2);
    assert ShiftRight(n / 2 / 2, k - 2) == ShiftRight(n / 2 / 2 / 2, k - 3);
    assert n / 2 / 2 / 2 == n / 8;
  }

  lemma ShiftIsDivide(n: nat)
    ensures ShiftRight(n, BASE_LG) == n / BASE
  {
    ShiftByThree(n, 11);
    ShiftByThree(n / 8, 8);
    ShiftByThree(n / 8 / 8, 5);
    var m := n / 8 / 8 / 8;
    assert m == n / 512;
    assert ShiftRight(m, 2) == ShiftRight(m / 2, 1);
    assert ShiftRight(m / 2, 1) == ShiftRight(m / 2 / 2, 0);
  }

  class FilterBlockReader {
    const policy: BloomFilterPolicy
    const data: Bytes
    const offset: nat      // where the offset array starts
    const num: nat
    const baseLg: nat

    ghost predicate Reads(result: Bytes, offsets: seq<nat>) {
      && |result| < TWO_32 && AllFit(offsets) && data == Contents(result, offsets)
      && offset == |result| && num == |offsets| && baseLg == BASE_LG
    }

    /** The offset array lies inside the block. */
    ghost predicate Sized() {
      num > 0 ==> offset + 4 * num + 5 <= |data|
    }

    /** Word i of the offset array. */
    function OffsetAt(i: nat): Word32
      requires Sized() && 0 < num && i <= num
    {
      DecodeFixed32(data[offset + 4 * i..offset + 4 * i + 4])
    }

    /** A block too short, or whose offset array would not fit, holds no filters. */
    constructor (policy: BloomFilterPolicy, contents: Bytes, ghost result: Bytes, ghost offsets: seq<nat>)
      ensures this.policy == policy && data == contents && Sized()
      ensures if |contents| >= 5 && DecodeFixed32(contents[|contents| - 5..|contents| - 1]) <= |contents| - 5
              then offset == DecodeFixed32(contents[|contents| - 5..|contents| - 1]) &&
                   num == (|contents| - 5 - offset) / 4 && baseLg == contents[|contents| - 1]
              else num == 0
      ensures |result| < TWO_32 && AllFit(offsets) && contents == Contents(result, offsets) ==> Reads(result, offsets)
    {
      if |result| < TWO_32 && AllFit(offsets) {
        TrailerReads(result, offsets);
      }
      hide DecodeFixed32, Contents;
      this.policy, data := policy, contents;
      offset, num, baseLg := 0, 0, 0;
      if |contents| >= 5 {
        baseLg := contents[|contents| - 1];
        var lastWord: nat := DecodeFixed32(contents[|contents| - 5..|contents| - 1]);
        if lastWord <= |contents| - 5 {
          offset := lastWord;
          num := (|contents| - 5 - lastWord) / 4;
        }
      }
    }

    /** The number of the filter for a data block's offset. */
    function FilterNumber(blockOffset: nat): nat { ShiftRight(blockOffset, baseLg) }

    /** Consults the filter of a data block's offset; errors are treated as potential matches. */
    method KeyMayMatch(blockOffset: nat, key: Bytes) returns (r: bool)
      requires Sized()
      ensures var i := FilterNumber(blockOffset);
              if i >= num then r
              else if OffsetAt(i) <= OffsetAt(i + 1) <= offset
              then r <==> Matches(policy.hash, data[OffsetAt(i)..OffsetAt(i + 1)], key)
              else r <==> OffsetAt(i) != OffsetAt(i + 1)
    {
      hide DecodeFixed32, Covered, FilterNumber;
      var index := FilterNumber(blockOffset);
      if index < num {
        var start, limit := OffsetAt(index), OffsetAt(index + 1);
        if start <= limit <= offset {
          r := policy.KeyMayMatch(key, data[start..limit]);
          return;
        } else if start == limit {
          return false;
        }
      }
      return true;
    }

    /** In a block that the builder wrote, that is the filter made for the offset. */
    lemma FindsFilter(blockOffset: nat, result: Bytes, offsets: seq<nat>)
      requires Sized() && Reads(result, offsets)
      requires forall i | 0 <= i < |offsets| :: offsets[i] <= EndOf(offsets, |result|, i) <= |result|
      ensures FilterNumber(blockOffset) == blockOffset / BASE
      ensures var i := blockOffset / BASE;
              i < |offsets| ==>
                && OffsetAt(i) == offsets[i] && OffsetAt(i + 1) == EndOf(offsets, |result|, i)
                && data[offsets[i]..EndOf(offsets, |result|, i)] == result[offsets[i]..EndOf(offsets, |result|, i)]
    {
      hide DecodeFixed32, Contents;
      ShiftIsDivide(blockOffset);
      var i := blockOffset / BASE;
      if i < |offsets| {
        OffsetReads(result, offsets, i);
        FilterBytes(result, offsets, offsets[i], EndOf(offsets, |result|, i));
      }
    }
  }

  lemma FilterBytes(result: Bytes, offsets: seq<nat>, lo: nat, hi: nat)
    requires |result| < TWO_32 && AllFit(offsets) && lo <= hi <= |result|
    ensures |Contents(result, offsets)| >= hi && Contents(result, offsets)[lo..hi] == result[lo..hi]
  {
  }

  lemma TrailerReads(result: Bytes, offsets: seq<nat>)
    requires |result| < TWO_32 && AllFit(offsets)
    ensures var c := Contents(result, offsets);
            && |c| == |result| + 4 * |offsets| + 5 && c[|c| - 1] == BASE_LG
            && DecodeFixed32(c[|c| - 5..|c| - 1]) == |result|
  {
    hide EncodeFixed32, DecodeFixed32, EncodeAll;
    var c := Contents(result, offsets);
    Fixed32RoundTrip(|result|, []);
    assert EncodeFixed32(|result|) + [] == EncodeFixed32(|result|);
    assert c[|c| - 5..|c| - 1] == EncodeFixed32(|result|);
  }

  /** Word i of the offset array and the word after it bound filter i; after the last offset comes the array's own
      start. */
  lemma OffsetReads(result: Bytes, offsets: seq<nat>, i: nat)
    requires |result| < TWO_32 && AllFit(offsets) && i < |offsets|
    ensures var c, at := Contents(result, offsets), |result| + 4 * i;
            && at + 8 <= |c| && DecodeFixed32(c[at..at + 4]) == offsets[i]
            && DecodeFixed32(c[at + 4..at + 8]) == EndOf(offsets, |result|, i)
  {
    hide EncodeFixed32, DecodeFixed32, EncodeAll;
    var c, all := Contents(result, offsets), EncodeAll(offsets);
    Word(result, offsets, i);
    if i + 1 < |offsets| {
      Word(result, offsets, i + 1);
    } else {
      Fixed32RoundTrip(|result|, []);
      assert EncodeFixed32(|result|) + [] == EncodeFixed32(|result|);
      assert c[|result| + |all|..|result| + |all| + 4] == EncodeFixed32(|result|);
    }
  }

  lemma Word(result: Bytes, offsets: seq<nat>, i: nat)
    requires |result| < TWO_32 && AllFit(offsets) && i < |offsets|
    ensures var c, at := Contents(result, offsets), |result| + 4 * i;
            at + 4 <= |c| && DecodeFixed32(c[at..at + 4]) == offsets[i]
  {
    hide EncodeFixed32, DecodeFixed32, EncodeAll;
    var c, all := Contents(result, offsets), EncodeAll(offsets);
    EncodeAllAt(offsets, i);
    Fixed32RoundTrip(offsets[i], []);
    assert EncodeFixed32(offsets[i]) + [] == EncodeFixed32(offsets[i]);
    assert c[|result| + 4 * i..|result| + 4 * i + 4] == all[4 * i..4 * i + 4];
  }
}
