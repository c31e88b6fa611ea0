/** Iterating over a block (leveldb/table/block.cc). */
module BlockIterators {
  import opened Coding
  import opened Blocks

  /** A comparator: a strict total order on keys. */
  type Comparator = (Bytes, Bytes) -> bool

  ghost predicate TotalOrder(less: Comparator) {
    && (forall a :: !less(a, a))
    && (forall a, b, c :: less(a, b) && less(b, c) ==> less(a, c))
    && (forall a, b :: a == b || less(a, b) || less(b, a))
  }

  ghost predicate SortedBy(less: Comparator, es: seq<KV>) {
    forall i, j | 0 <= i < j < |es| :: less(es[i].key, es[j].key)
  }

  /** The three lengths in front of an entry. */
  datatype Header = Header(shared: nat, nonShared: nat, valueLength: nat)

  function DecodeHeader(b: Bytes): Decoded<Header> {
    match GetVarint32(b)
    case Failed => Failed
    case Got(shared, r1) =>
      (match GetVarint32(r1)
       case Failed => Failed
       case Got(nonShared, r2) =>
         (match GetVarint32(r2)
          case Failed => Failed
          case Got(valueLength, r3) => Got(Header(shared, nonShared, valueLength), r3)))
  }

  /** The test that the entry ends before the data does; both sides are 32-bit numbers. */
  predicate Accepts(h: Header, rest: Bytes) {
    (h.nonShared + h.valueLength) % TWO_32 <= |rest| % TWO_32
  }

  /** The lengths of an entry, when it passes the test. */
  method DecodeEntry(b: Bytes) returns (d: Decoded<Header>)
    ensures d == match DecodeHeader(b)
                 case Failed => Failed
                 case Got(h, rest) => if |b| >= 3 && Accepts(h, rest) then Got(h, rest) else Failed
  {
    if |b| < 3 {
      match DecodeHeader(b) { case Failed => case Got(_, _) => }
      return Failed;
    }
    if b[0] < 128 && b[1] < 128 && b[2] < 128 {
      FastPath(b);
      d := Got(Header(b[0], b[1], b[2]), b[3..]);
    } else {
      var r1 := GetVarint32(b);
      if r1.Failed? { return Failed; }
      var r2 := GetVarint32(r1.rest);
      if r2.Failed? { return Failed; }
      var r3 := GetVarint32(r2.rest);
      if r3.Failed? { return Failed; }
      d := Got(Header(r1.value, r2.value, r3.value), r3.rest);
    }
    if |d.rest| % TWO_32 < (d.value.nonShared + d.value.valueLength) % TWO_32 {
      return Failed;
    }
  }

  /** An accepted entry fits before the end of the data exactly when its two lengths do not wrap around. */
  lemma AcceptedFits(h: Header, rest: Bytes)
    requires h.nonShared < TWO_32 && h.valueLength < TWO_32 && |rest| < TWO_32 && Accepts(h, rest)
    ensures h.nonShared + h.valueLength <= |rest| <==> h.nonShared + h.valueLength < TWO_32
  {
  }

  /** Every entry that fits is accepted. */
  lemma FittingAccepted(h: Header, rest: Bytes)
    requires h.nonShared + h.valueLength <= |rest| < TWO_32
    ensures Accepts(h, rest)
  {
  }

  /** Lengths 2^32 - 1 and 1 with nothing behind them: the sum wraps to 0 and the entry is accepted. */
  method WrappedAccepted() returns (d: Decoded<Header>)
    ensures d == Got(Header(0, TWO_32 - 1, 1), []) && d.value.nonShared + d.value.valueLength > |d.rest|
  {
    var b := EncodeVarint(0) + (EncodeVarint(TWO_32 - 1) + (EncodeVarint(1) + []));
    HeaderRoundTrip(0, TWO_32 - 1, 1, []);
    hide EncodeVarint, DecodeHeader;
    d := DecodeEntry(b);
  }

  /** Three small lengths decode to themselves. */
  lemma FastPath(b: Bytes)
    requires |b| >= 3 && b[0] < 128 && b[1] < 128 && b[2] < 128
    ensures DecodeHeader(b) == Got(Header(b[0], b[1], b[2]), b[3..])
  {
  }

  lemma HeaderRoundTrip(shared: nat, nonShared: nat, valueLength: nat, rest: Bytes)
    requires shared < TWO_32 && nonShared < TWO_32 && valueLength < TWO_32
    ensures DecodeHeader(EncodeVarint(shared) + (EncodeVarint(nonShared) + (EncodeVarint(valueLength) + rest))) ==
            Got(Header(shared, nonShared, valueLength), rest)
  {
    hide GetVarint32, EncodeVarint;
    GetVarintRoundTrip(valueLength, rest);
    GetVarintRoundTrip(nonShared, EncodeVarint(valueLength) + rest);
    GetVarintRoundTrip(shared, EncodeVarint(nonShared) + (EncodeVarint(valueLength) + rest));
  }

  /** The data from an entry's offset on decodes to that entry's lengths, delta and value. */
  lemma EntryDecodes(shared: nat, e: KV, rest: Bytes)
    requires shared <= |e.key| && |e.key| < TWO_32 && |e.value| < TWO_32
    ensures DecodeHeader(Encode(shared, e) + rest) ==
            Got(Header(shared, |e.key| - shared, |e.value|), e.key[shared..] + e.value + rest)
  {
    hide EncodeVarint, DecodeHeader;
    HeaderRoundTrip(shared, |e.key| - shared, |e.value|, e.key[shared..] + e.value + rest);
    Regroup(EncodeVarint(shared), EncodeVarint(|e.key| - shared), EncodeVarint(|e.value|), e.key[shared..], e.value,
        rest);
  }

  lemma Regroup(a: Bytes, b: Bytes, c: Bytes, d: Bytes, e: Bytes, f: Bytes)
    ensures a + b + c + d + e + f == a + (b + (c + (d + e + f)))
  {
  }

  // ----- the block's parts -----

  ghost predicate IsBlock(data: Bytes, l: Layout) {
    SizeOk(l) && data == BlockBytes(l)
  }

  lemma Middle(a: Bytes, b: Bytes, c: Bytes, lo: nat, hi: nat)
    requires lo <= hi <= |b|
    ensures (a + b + c)[|a| + lo..|a| + hi] == b[lo..hi] && (a + b + c)[|a| + |b|..] == c && (a + b + c)[..|a|] == a
  {
  }

  /** Reading the trailer: the number of restarts and where the entries end. */
  lemma TrailerReads(data: Bytes, l: Layout)
    requires IsBlock(data, l)
    ensures |data| == Offset(l, |l.entries|) + 4 * |l.marks| + 4
    ensures DecodeFixed32(data[Offset(l, |l.entries|) + 4 * |l.marks|..]) == |l.marks|
    ensures data[..Offset(l, |l.entries|)] == Data(l, |l.entries|)
  {
    MarksBounded(l);
    hide EncodeFixed32, Data, DecodeFixed32, EncodeAll;
    Fixed32RoundTrip(|l.marks|, []);
    assert EncodeFixed32(|l.marks|) + [] == EncodeFixed32(|l.marks|);
    Middle(Data(l, |l.entries|), EncodeAll(RestartOffsets(l)), EncodeFixed32(|l.marks|), 0, 0);
  }

  lemma OffsetIs(l: Layout)
    ensures Offset(l, |l.entries|) == |Data(l, |l.entries|)|
  {
  }

  lemma RestartReads(data: Bytes, l: Layout, j: nat)
    requires IsBlock(data, l) && j < |l.marks|
    ensures MarksIn(l) && Offset(l, |l.entries|) + 4 * j + 4 <= |data|
    ensures DecodeFixed32(data[Offset(l, |l.entries|) + 4 * j..Offset(l, |l.entries|) + 4 * j + 4])
            == Offset(l, l.marks[j])
  {
    hide EncodeFixed32, Data, DecodeFixed32, EncodeAll, LayoutOk, RestartOffsets, AllFit, MarksIn, Offset;
    MarksBounded(l);
    OffsetIs(l);
    var r := RestartOffsets(l);
    EncodeAllAt(r, j);
    Fixed32RoundTrip(r[j], []);
    assert EncodeFixed32(r[j]) + [] == EncodeFixed32(r[j]);
    Middle(Data(l, |l.entries|), EncodeAll(r), EncodeFixed32(|l.marks|), 4 * j, 4 * j + 4);
  }

  /** The bytes from entry k to the end of the entries. */
  ghost function Tail(l: Layout, k: nat): (t: Bytes)
    requires k <= |l.entries|
    ensures |t| == Offset(l, |l.entries|) - Offset(l, k)
  {
    OffsetsGrow(l, k, |l.entries|);
    Data(l, |l.entries|)[Offset(l, k)..]
  }

  lemma TailReads(data: Bytes, l: Layout, k: nat)
    requires IsBlock(data, l) && k <= |l.entries|
    ensures Offset(l, k) <= Offset(l, |l.entries|) <= |data|
    ensures data[Offset(l, k)..Offset(l, |l.entries|)] == Tail(l, k)
  {
    TrailerReads(data, l);
    OffsetsGrow(l, k, |l.entries|);
    var end := Offset(l, |l.entries|);
    assert data[Offset(l, k)..end] == data[..end][Offset(l, k)..];
  }

  lemma TailDecodes(l: Layout, i: nat)
    requires LayoutOk(l) && i < |l.entries|
    ensures var e, n := l.entries[i], Shared(l, i);
            DecodeHeader(Tail(l, i)) == Got(Header(n, |e.key| - n, |e.value|), e.key[n..] + e.value + Tail(l, i + 1))
    ensures |Tail(l, i)| >= 3
  {
    hide DecodeHeader, Encode, Shared, Data;
    OffsetsGrow(l, i, |l.entries|);
    OffsetsGrow(l, i + 1, |l.entries|);
    OffsetsGrow(l, i, i + 1);
    EntryBytes(l, i);
    var all := Data(l, |l.entries|);
    assert all[Offset(l, i)..] == all[Offset(l, i)..Offset(l, i + 1)] + all[Offset(l, i + 1)..];
    EntryDecodes(Shared(l, i), l.entries[i], Tail(l, i + 1));
  }

  // ----- the iterator -----

  /** An entry of a block passes the test of DecodeEntry. */
  lemma TailAccepted(l: Layout, i: nat)
    requires SizeOk(l) && i < |l.entries|
    ensures var e, n := l.entries[i], Shared(l, i);
            Accepts(Header(n, |e.key| - n, |e.value|), e.key[n..] + e.value + Tail(l, i + 1))
  {
    var e, n := l.entries[i], Shared(l, i);
    TailDecodes(l, i);
    assert |e.key[n..] + e.value + Tail(l, i + 1)| < |Tail(l, i)|;
    hide *;
    FittingAccepted(Header(n, |e.key| - n, |e.value|), e.key[n..] + e.value + Tail(l, i + 1));
  }

  class Iter {
    const less: Comparator
    const data: Bytes
    const restarts: nat
    const numRestarts: nat
    ghost const l: Layout
    var current: nat
    var restartIndex: nat
    var key: Bytes
    var value: Bytes
    var nextOffset: nat      // just past the end of the current entry
    ghost var pos: nat

    ghost predicate Opened() {
      && IsBlock(data, l) && MarksIn(l) && restarts == Offset(l, |l.entries|) && numRestarts == |l.marks| > 0
          && l.marks[0] == 0
      && TotalOrder(less) && SortedBy(less, l.entries)
    }

    /** The next entry to decode is i, and the key bytes it shares are at hand. */
    ghost predicate Primed(i: nat)
      requires MarksIn(l)
      reads this
    {
      && i <= |l.entries| && nextOffset == Offset(l, i)
      && restartIndex < |l.marks| && l.marks[restartIndex] <= i
      && (i < |l.entries| ==> Shared(l, i) <= |key| && key[..Shared(l, i)] == l.entries[i].key[..Shared(l, i)])
    }

    ghost predicate Valid()
      reads this
    {
      && Opened() && pos <= |l.entries|
      && if pos == |l.entries| then current == restarts && restartIndex == numRestarts
         else current == Offset(l, pos) && key == l.entries[pos].key && value == l.entries[pos].value
              && Primed(pos + 1) && l.marks[restartIndex] <= pos
              && (restartIndex + 1 < numRestarts ==> pos <= l.marks[restartIndex + 1])
    }

    /** What the comment on the restart index says: it is that of the restart block that holds the current entry. */
    ghost predicate InOwnBlock()
      requires Valid() && pos < |l.entries|
      reads this
    {
      l.marks[restartIndex] <= pos && (restartIndex + 1 < numRestarts ==> pos < l.marks[restartIndex + 1])
    }

    /** That holds exactly when the entry does not stand at the restart point after the index. */
    lemma RestartIndexExactly()
      requires Valid() && pos < |l.entries|
      ensures InOwnBlock() <==> (restartIndex + 1 < numRestarts ==> current != Offset(l, l.marks[restartIndex + 1]))
    {
      hide IsBlock, Offset, Shared, TotalOrder, SortedBy;
      if restartIndex + 1 < numRestarts {
        MarkOrder(l, restartIndex + 1, pos);
        OffsetOrder(l, pos, l.marks[restartIndex + 1]);
      }
    }

    /** Past the restart point of the index, it fails exactly at restart points; at that point it holds. */
    lemma OwnBlockUnlessRestart()
      requires Valid() && pos < |l.entries|
      ensures l.marks[restartIndex] < pos ==> (InOwnBlock() <==> pos !in l.marks)
      ensures l.marks[restartIndex] == pos ==> InOwnBlock()
    {
      hide Offset, Shared, TotalOrder, SortedBy, BlockBytes;
      assert Ascending(l.marks);
    }

    /** At the second of two restart points only index 1 agrees with the comment. */
    lemma LagsAt()
      requires Valid() && l.marks == [0, 1] && |l.entries| == 2 && pos == 1
      ensures InOwnBlock() <==> restartIndex == 1
    {
    }

    constructor (less: Comparator, data: Bytes, ghost l: Layout)
      requires IsBlock(data, l) && TotalOrder(less) && SortedBy(less, l.entries)
      ensures Valid() && pos == |l.entries| && this.l == l
    {
      hide Offset, TotalOrder, SortedBy, DecodeFixed32, BlockBytes, Data;
      TrailerReads(data, l);
      MarksBounded(l);
      this.less, this.data, this.l := less, data, l;
      var n: nat := DecodeFixed32(data[|data| - 4..]);
      restarts := |data| - (1 + n) * 4;
      numRestarts := n;
      current := |data| - (1 + n) * 4;
      restartIndex := n;
      key, value, nextOffset := [], [], 0;
      pos := |l.entries|;
    }

    method GetRestartPoint(j: nat) returns (offset: nat)
      requires Opened() && j < numRestarts
      ensures offset == Offset(l, l.marks[j])
    {
      hide IsBlock, MarksIn, Offset, TotalOrder, SortedBy, DecodeFixed32;
      RestartReads(data, l, j);
      offset := DecodeFixed32(data[restarts + 4 * j..restarts + 4 * j + 4]);
    }

    method SeekToRestartPoint(j: nat)
      requires Opened() && j < numRestarts
      modifies this`key, this`value, this`restartIndex, this`nextOffset
      ensures Primed(l.marks[j]) && restartIndex == j
    {
      hide IsBlock, Offset, TotalOrder, SortedBy;
      key, value := [], [];
      restartIndex := j;
      nextOffset := GetRestartPoint(j);
      MarkShares(l, j);
    }

    /** Decodes entry i, which the fields have been set up for. */
    method ParseNextKey(ghost i: nat) returns (ok: bool)
      requires Opened() && Primed(i)
      modifies this
      ensures Valid() && pos == i && (ok <==> i < |l.entries|)
      ensures pos < |l.entries| ==> old(restartIndex) <= restartIndex
      ensures pos < |l.entries| ==> restartIndex == old(restartIndex) || l.marks[restartIndex] < pos
    {
      hide IsBlock, MarksIn, Offset, TotalOrder, SortedBy, Shared, Tail;
      OffsetOrder(l, i, |l.entries|);
      current := nextOffset;
      pos := i;
      if current >= restarts {
        current := restarts;
        restartIndex := numRestarts;
        return false;
      }
      Decode(i);
      AdvanceRestartIndex();
      return true;
    }

    method Decode(ghost i: nat)
      requires Opened() && Primed(i) && i < |l.entries| && current == nextOffset && current < restarts
      modifies this`key, this`value, this`nextOffset
      ensures key == l.entries[i].key && value == l.entries[i].value && Primed(i + 1)
    {
      hide MarksIn, Offset, TotalOrder, SortedBy, Shared, Tail, DecodeHeader, Accepts, LayoutOk, BlockBytes;
      ghost var e, n := l.entries[i], Shared(l, i);
      TailReads(data, l, i);
      TailDecodes(l, i);
      TailAccepted(l, i);
      var d := DecodeEntry(data[current..restarts]);
      var h := d.value;
      TailLength(l, i + 1);
      Pieces(e.key[n..], e.value, Tail(l, i + 1));
      key := key[..h.shared] + d.rest[..h.nonShared];
      value := d.rest[h.nonShared..h.nonShared + h.valueLength];
      nextOffset := restarts - |d.rest| + h.nonShared + h.valueLength;
      assert key == e.key by { assert e.key == e.key[..n] + e.key[n..]; }
      NextShares(l, i);
    }

    method AdvanceRestartIndex()
      requires Opened() && pos < |l.entries| && current == Offset(l, pos)
      requires restartIndex < |l.marks| && l.marks[restartIndex] <= pos
      modifies this`restartIndex
      ensures old(restartIndex) <= restartIndex < |l.marks| && l.marks[restartIndex] <= pos
      ensures restartIndex + 1 < numRestarts ==> pos <= l.marks[restartIndex + 1]
      ensures restartIndex == old(restartIndex) || l.marks[restartIndex] < pos
    {
      hide IsBlock, MarksIn, Offset, TotalOrder, SortedBy;
      while restartIndex + 1 < numRestarts
        invariant old(restartIndex) <= restartIndex < |l.marks| && l.marks[restartIndex] <= pos
        invariant restartIndex == old(restartIndex) || l.marks[restartIndex] < pos
      {
        var offset := GetRestartPoint(restartIndex + 1);
        MarkOrder(l, restartIndex + 1, pos);
        if offset >= current {
          break;
        }
        restartIndex := restartIndex + 1;
      }
    }

    method Next()
      requires Valid() && pos < |l.entries|
      modifies this
      ensures Valid() && pos == old(pos) + 1
      ensures pos < |l.entries| ==> (InOwnBlock() <==> pos !in l.marks)
    {
      hide Opened, Primed;
      var ok := ParseNextKey(pos + 1);
      if pos < |l.entries| {
        OwnBlockUnlessRestart();
      }
    }

    method SeekToFirst()
      requires Valid()
      modifies this
      ensures Valid() && pos == 0
      ensures pos < |l.entries| ==> InOwnBlock()
    {
      hide Offset, Shared, TotalOrder, SortedBy, BlockBytes;
      SeekToRestartPoint(0);
      var ok := ParseNextKey(0);
      if pos < |l.entries| {
        OwnBlockUnlessRestart();
      }
    }

    method SeekToLast()
      requires Valid()
      modifies this
      ensures Valid() && pos == if l.entries == [] then 0 else |l.entries| - 1
      ensures pos < |l.entries| ==> InOwnBlock()
    {
      hide Offset, Shared, TotalOrder, SortedBy, BlockBytes;
      SeekToRestartPoint(numRestarts - 1);
      var ok := ParseUpTo(l.marks[numRestarts - 1], restarts, |l.entries|);
    }

    /** Decodes entries from i on until the end of one reaches the offset of entry `stop`. */
    method ParseUpTo(ghost i: nat, limit: nat, ghost stop: nat) returns (ok: bool)
      requires Opened() && Primed(i) && i <= stop <= |l.entries| && limit == Offset(l, stop)
      requires i == stop ==> stop == |l.entries|
      modifies this
      ensures Valid() && pos == (if i == stop then stop else stop - 1)
      ensures pos < |l.entries| ==> old(restartIndex) <= restartIndex
    {
      hide IsBlock, MarksIn, Offset, Shared, TotalOrder, SortedBy;
      ok := ParseNextKey(i);
      while ok && nextOffset < limit
        invariant Valid() && (if i == stop then !ok && pos == stop else ok && i <= pos < stop)
        invariant ok ==> old(restartIndex) <= restartIndex
        decreases stop - pos
      {
        OffsetOrder(l, pos + 1, stop);
        ok := ParseNextKey(pos + 1);
      }
      if ok {
        OffsetOrder(l, pos + 1, stop);
      }
    }

    /** Steps back: scans forward again from the last restart point before this entry. */
    method Prev()
      requires Valid() && pos < |l.entries|
      modifies this
      ensures Valid() && pos == if old(pos) == 0 then |l.entries| else old(pos) - 1
      ensures pos < |l.entries| ==> InOwnBlock()
    {
      hide SizeOk, MarksIn, Offset, Shared, TotalOrder, SortedBy, BlockBytes;
      var original := current;
      ghost var from := pos;
      var found := RestartBefore();
      if !found {
        current := restarts;
        restartIndex := numRestarts;
        pos := |l.entries|;
        return;
      }
      ghost var j := restartIndex;
      SeekToRestartPoint(restartIndex);
      var ok := ParseUpTo(l.marks[restartIndex], original, from);
      NoLaterMark(l, j, restartIndex, pos);
    }

    /** Lands on the first key at or after the target, from any earlier position. */
    method Seek(target: Bytes)
      requires Valid()
      modifies this
      ensures Valid() && AllLess(less, l.entries, pos, target)
      ensures pos < |l.entries| ==> !less(l.entries[pos].key, target)
      ensures if old(pos) < |l.entries| && l.entries[old(pos)].key == target
              then pos == old(pos) && restartIndex == old(restartIndex)
              else pos < |l.entries| ==> (InOwnBlock() <==> pos == 0 || pos !in l.marks)
    {
      hide IsBlock, Offset, Shared, AllLess, SortedBy, TotalOrder, MarksIn;
      ghost var n := |l.entries|;
      OffsetOrder(l, pos, n);
      var left, right, behind := 0, numRestarts - 1, false;
      if current < restarts {
        if less(key, target) {
          behind := true;
          left := restartIndex;
          LessDiffers(less, key, target);
          LessBelow(less, l.entries, pos, l.marks[restartIndex], target);
          LessUpTo(less, l.entries, pos, target);
        } else if less(target, key) {
          right := restartIndex;
          LessDiffers(less, target, key);
        } else {
          SameKey(less, l.entries, pos, target);
          return;
        }
      }
      left := LastRestartBelow(left, right, target);
      if left == restartIndex && behind {
        Scan(pos + 1, target);
        if pos < n {
          OwnBlockUnlessRestart();
        }
      } else {
        RestartLess(less, l, left, target);
        SeekToRestartPoint(left);
        Scan(l.marks[left], target);
        if pos < n {
          OwnBlockUnlessRestart();
        }
      }
    }

    /** Linear search from entry i on. */
    method Scan(ghost i: nat, target: Bytes)
      requires Opened() && Primed(i) && AllLess(less, l.entries, i, target)
      modifies this
      ensures Valid() && AllLess(less, l.entries, pos, target)
      ensures pos < |l.entries| ==> !less(l.entries[pos].key, target)
      ensures i <= pos && (pos < |l.entries| ==> restartIndex == old(restartIndex) || l.marks[restartIndex] < pos)
    {
      hide IsBlock, Offset, Shared, SortedBy, TotalOrder, MarksIn;
      var ok := ParseNextKey(i);
      while ok && less(key, target)
        invariant Valid() && (ok <==> pos < |l.entries|) && AllLess(less, l.entries, pos, target)
        invariant i <= pos && (ok ==> restartIndex == old(restartIndex) || l.marks[restartIndex] < pos)
        decreases |l.entries| - pos
      {
        ok := ParseNextKey(pos + 1);
      }
    }

    /** Binary search in the restart array for the last restart point with a key before the target. */
    method LastRestartBelow(lo: nat, hi: nat, target: Bytes) returns (left: nat)
      requires Opened() && lo <= hi < numRestarts && RestartBelow(less, l, lo, target)
      ensures lo <= left <= hi && RestartBelow(less, l, left, target)
      ensures left < hi ==> !RestartBelow(less, l, left + 1, target)
    {
      hide IsBlock, Offset, Shared, SortedBy, TotalOrder, MarksIn;
      left := lo;
      var right := hi;
      while left < right
        invariant lo <= left <= right <= hi && RestartBelow(less, l, left, target)
        invariant right < hi ==> !RestartBelow(less, l, right + 1, target)
      {
        var mid := (left + right + 1) / 2;
        var midKey := RestartKey(mid);
        if less(midKey, target) {
          left := mid;
        } else {
          right := mid - 1;
        }
      }
    }

    method RestartKey(j: nat) returns (k: Bytes)
      requires Opened() && 0 < j < numRestarts
      ensures l.marks[j] < |l.entries| && k == l.entries[l.marks[j]].key
    {
      hide Offset, SortedBy, TotalOrder, MarksIn, Tail, DecodeHeader, Accepts, BlockBytes, Shared;
      ghost var i := l.marks[j];
      TailReads(data, l, i);
      TailDecodes(l, i);
      TailAccepted(l, i);
      MarkShares(l, j);
      var offset := GetRestartPoint(j);
      var d := DecodeEntry(data[offset..restarts]);
      ghost var e := l.entries[i];
      TailLength(l, i + 1);
      Pieces(e.key[0..], e.value, Tail(l, i + 1));
      k := d.rest[..d.value.nonShared];
    }

    method RestartBefore() returns (found: bool)
      requires Valid() && pos < |l.entries|
      modifies this`restartIndex
      ensures found <==> pos > 0
      ensures found ==> restartIndex < numRestarts && l.marks[restartIndex] < pos
      ensures found ==> restartIndex + 1 < numRestarts ==> pos <= l.marks[restartIndex + 1]
    {
      hide Offset, Shared, TotalOrder, SortedBy, BlockBytes;
      while true
        invariant restartIndex < numRestarts
        invariant restartIndex + 1 < numRestarts ==> pos <= l.marks[restartIndex + 1]
        decreases restartIndex
      {
        var offset := GetRestartPoint(restartIndex);
        MarkOrder(l, restartIndex, pos);
        if offset < current {
          return true;
        }
        if restartIndex == 0 {
          return false;
        }
        restartIndex := restartIndex - 1;
      }
    }
  }

  /** The first n keys are all before the target. */
  ghost predicate AllLess(less: Comparator, es: seq<KV>, n: nat, target: Bytes) {
    n <= |es| && forall i | 0 <= i < n :: less(es[i].key, target)
  }

  ghost predicate RestartBelow(less: Comparator, l: Layout, j: nat, target: Bytes) {
    j < |l.marks| && (j == 0 || (l.marks[j] < |l.entries| && less(l.entries[l.marks[j]].key, target)))
  }

  lemma LessUpTo(less: Comparator, es: seq<KV>, n: nat, target: Bytes)
    requires TotalOrder(less) && SortedBy(less, es) && n < |es| && less(es[n].key, target)
    ensures AllLess(less, es, n + 1, target)
  {
  }

  lemma LessDiffers(less: Comparator, a: Bytes, b: Bytes)
    requires TotalOrder(less) && less(a, b)
    ensures a != b
  {
  }

  lemma LessBelow(less: Comparator, es: seq<KV>, n: nat, m: nat, target: Bytes)
    requires TotalOrder(less) && SortedBy(less, es) && m <= n < |es| && less(es[n].key, target)
    ensures less(es[m].key, target)
  {
  }

  lemma RestartLess(less: Comparator, l: Layout, j: nat, target: Bytes)
    requires TotalOrder(less) && SortedBy(less, l.entries) && MarksIn(l) && RestartBelow(less, l, j, target)
             && l.marks[0] == 0
    ensures AllLess(less, l.entries, l.marks[j], target)
  {
  }

  lemma SameKey(less: Comparator, es: seq<KV>, n: nat, target: Bytes)
    requires TotalOrder(less) && SortedBy(less, es) && n < |es| && !less(es[n].key, target) && !less(target, es[n].key)
    ensures AllLess(less, es, n, target) && es[n].key == target
  {
  }

  lemma NoLaterMark(l: Layout, j: nat, k: nat, i: nat)
    requires SizeOk(l) && j <= k < |l.marks| && l.marks[k] <= i && (j + 1 < |l.marks| ==> i < l.marks[j + 1])
    ensures k == j
  {
  }

  lemma MarkShares(l: Layout, j: nat)
    requires MarksIn(l) && j < |l.marks|
    ensures l.marks[j] < |l.entries| ==> Shared(l, l.marks[j]) == 0
  {
  }

  lemma MarkOrder(l: Layout, j: nat, i: nat)
    requires MarksIn(l) && j < |l.marks| && i <= |l.entries|
    ensures Offset(l, l.marks[j]) < Offset(l, i) <==> l.marks[j] < i
  {
    OffsetOrder(l, l.marks[j], i);
  }

  lemma TailLength(l: Layout, k: nat)
    requires k <= |l.entries|
    ensures |Tail(l, k)| == Offset(l, |l.entries|) - Offset(l, k) >= 0
  {
  }

  lemma Pieces(a: Bytes, b: Bytes, c: Bytes)
    ensures (a + b + c)[..|a|] == a && (a + b + c)[|a|..|a| + |b|] == b
  {
  }

  lemma NextShares(l: Layout, i: nat)
    requires i < |l.entries|
    ensures i + 1 < |l.entries| ==>
              Shared(l, i + 1) <= |l.entries[i].key| &&
              l.entries[i].key[..Shared(l, i + 1)] == l.entries[i + 1].key[..Shared(l, i + 1)]
  {
  }

  // ----- the round trip -----

  lemma EntriesFit(entries: seq<KV>, interval: nat)
    requires SizeOk(LayoutOf(entries, interval))
    ensures forall i | 0 <= i < |entries| :: |entries[i].key| < TWO_32 && |entries[i].value| < TWO_32
    ensures IsBlock(BlockBytes(LayoutOf(entries, interval)), LayoutOf(entries, interval))
    ensures LayoutOf(entries, interval).entries == entries
  {
  }

  method Build(entries: seq<KV>, interval: nat) returns (block: Bytes, ghost l: Layout)
    requires interval >= 1 && SizeOk(LayoutOf(entries, interval))
    ensures l == LayoutOf(entries, interval) && l.entries == entries && IsBlock(block, l)
  {
    hide *;
    EntriesFit(entries, interval);
    var builder := new BlockBuilder(interval);
    for i := 0 to |entries|
      invariant fresh(builder) && builder.Valid() && builder.interval == interval && builder.l.entries == entries[..i]
    {
      builder.Add(entries[i].key, entries[i].value);
    }
    assert entries[..|entries|] == entries;
    builder.LaidOut();
    l := builder.l;
    block := builder.Finish();
  }

  /** Building a block from sorted entries and walking through it gives the entries back. */
  method RoundTrip(less: Comparator, entries: seq<KV>, interval: nat) returns (read: seq<KV>)
    requires interval >= 1 && SizeOk(LayoutOf(entries, interval))
    requires TotalOrder(less) && SortedBy(less, entries)
    ensures read == entries
  {
    hide IsBlock, Offset, Shared, TotalOrder, SortedBy, SizeOk;
    var block, l := Build(entries, interval);
    var iter := new Iter(less, block, l);
    read := [];
    iter.SeekToFirst();
    while iter.current < iter.restarts
      invariant fresh(iter) && iter.Valid() && iter.l.entries == entries && read == entries[..iter.pos]
      decreases |entries| - iter.pos
    {
      OffsetOrder(iter.l, iter.pos, |entries|);
      read := read + [KV(iter.key, iter.value)];
      iter.Next();
    }
    OffsetOrder(iter.l, iter.pos, |entries|);
  }

  /** Two entries, each a restart point: after SeekToFirst and Next the iterator is at the second entry, and its
      restart index still names the first. */
  method RestartIndexLags(less: Comparator) returns (it: Iter)
    requires TotalOrder(less) && less([1], [2])
    ensures it.Valid() && it.l == LayoutOf([KV([1], []), KV([2], [])], 1) && it.l.marks == [0, 1]
    ensures it.pos == 1 && it.restartIndex == 0 && !it.InOwnBlock()
  {
    ghost var es := [KV([1], []), KV([2], [])];
    TwoEntries();
    hide *;
    var block, l := Build([KV([1], []), KV([2], [])], 1);
    assert SortedBy(less, es) by { SortedTwo(less); }
    it := new Iter(less, block, l);
    it.SeekToFirst();
    it.Next();
    it.LagsAt();
  }

  lemma SortedTwo(less: Comparator)
    requires less([1], [2])
    ensures SortedBy(less, [KV([1], []), KV([2], [])])
  {
  }

  lemma TwoEntries()
    ensures var l := LayoutOf([KV([1], []), KV([2], [])], 1); l.marks == [0, 1] && |l.entries| == 2 && SizeOk(l)
  {
    var l := LayoutOf([KV([1], []), KV([2], [])], 1);
    assert Marks(1, 1) == ([0], 1) by { assert Marks(0, 1) == ([0], 0); }
    assert Marks(2, 1) == ([0] + [1], 1);
    assert [0] + [1] == [0, 1];
    assert l.marks[1] == 1 && Shared(l, 0) == Shared(l, 1) == 0;
    assert EncodeVarint(0) == [0] && EncodeVarint(1) == [1];
    assert Data(l, 2) == Data(l, 1) + Encode(0, l.entries[1]) && Data(l, 1) == Data(l, 0) + Encode(0, l.entries[0]);
  }
}
