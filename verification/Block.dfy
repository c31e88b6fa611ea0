/** Blocks of prefix-compressed entries and their builder (leveldb/table/block_builder.cc). */
module Blocks {
  import opened Coding

  datatype KV = KV(key: Bytes, value: Bytes)

  /** The entries of a block, and which of them are restart points. */
  datatype Layout = Layout(entries: seq<KV>, marks: seq<nat>)

  ghost predicate Ascending(marks: seq<nat>) {
    forall i, j | 0 <= i < j < |marks| :: marks[i] < marks[j]
  }

  /** The first restart point is at the first entry, or at the end of an empty block. */
  ghost predicate LayoutOk(l: Layout) {
    && l.marks != [] && l.marks[0] == 0 && Ascending(l.marks)
    && (forall j | 0 < j < |l.marks| :: l.marks[j] < |l.entries|)
    && (forall i | 0 <= i < |l.entries| :: |l.entries[i].key| < TWO_32 && |l.entries[i].value| < TWO_32)
  }

  function CommonPrefix(a: Bytes, b: Bytes): (n: nat)
    ensures n <= |a| && n <= |b| && a[..n] == b[..n]
    ensures n < |a| && n < |b| ==> a[n] != b[n]
  {
    if a == [] || b == [] || a[0] != b[0] then 0
    else
      var n := 1 + CommonPrefix(a[1..], b[1..]);
      assert a[..n] == [a[0]] + a[1..][..n - 1] && b[..n] == [b[0]] + b[1..][..n - 1];
      n
  }

  function Encode(shared: nat, e: KV): (r: Bytes)
    requires shared <= |e.key|
    ensures |r| >= 3
  {
    EncodeVarint(shared) + EncodeVarint(|e.key| - shared) + EncodeVarint(|e.value|) + e.key[shared..] + e.value
  }

  /** How much of its key entry i takes from the entry before it. */
  ghost function Shared(l: Layout, i: nat): (n: nat)
    requires i < |l.entries|
    ensures n <= |l.entries[i].key|
    ensures i > 0 ==> n <= |l.entries[i - 1].key| && l.entries[i - 1].key[..n] == l.entries[i].key[..n]
    ensures i in l.marks ==> n == 0
  {
    if i == 0 || i in l.marks then 0 else CommonPrefix(l.entries[i - 1].key, l.entries[i].key)
  }

  /** The bytes of the first k entries. */
  ghost function Data(l: Layout, k: nat): Bytes
    requires k <= |l.entries|
  {
    if k == 0 then [] else Data(l, k - 1) + Encode(Shared(l, k - 1), l.entries[k - 1])
  }

  ghost function Offset(l: Layout, k: nat): nat
    requires k <= |l.entries|
  {
    |Data(l, k)|
  }

  lemma {:induction false} OffsetsGrow(l: Layout, i: nat, k: nat)
    requires i <= k <= |l.entries|
    ensures Offset(l, i) + 3 * (k - i) <= Offset(l, k)
    ensures Data(l, i) <= Data(l, k)
  {
    hide Encode, Shared;
    if i < k {
      OffsetsGrow(l, i, k - 1);
    }
  }

  lemma OffsetOrder(l: Layout, i: nat, k: nat)
    requires i <= |l.entries| && k <= |l.entries|
    ensures Offset(l, i) < Offset(l, k) <==> i < k
  {
    if i < k {
      OffsetsGrow(l, i, k);
    } else {
      OffsetsGrow(l, k, i);
    }
  }

  /** Entry i's bytes stand at its offset. */
  lemma EntryBytes(l: Layout, i: nat)
    requires i < |l.entries|
    ensures var e := Encode(Shared(l, i), l.entries[i]);
            Offset(l, i) + |e| == Offset(l, i + 1) <= Offset(l, |l.entries|) &&
            Data(l, |l.entries|)[Offset(l, i)..Offset(l, i + 1)] == e
  {
    hide Encode, Shared;
    OffsetsGrow(l, i + 1, |l.entries|);
    var d := Data(l, |l.entries|);
    assert d[..Offset(l, i + 1)] == Data(l, i + 1);
    assert d[Offset(l, i)..Offset(l, i + 1)] == Data(l, i + 1)[Offset(l, i)..];
  }

  function Grow(l: Layout, e: KV, mark: bool): Layout {
    Layout(l.entries + [e], if mark then l.marks + [|l.entries|] else l.marks)
  }

  /** Appending an entry, at a restart point or not, leaves what was written. */
  lemma {:induction false} DataExtends(l: Layout, e: KV, mark: bool, k: nat)
    requires k <= |l.entries|
    ensures Data(Grow(l, e, mark), k) == Data(l, k)
  {
    hide Encode, CommonPrefix;
    var l' := Grow(l, e, mark);
    if k > 0 {
      DataExtends(l, e, mark, k - 1);
      assert l'.entries[k - 1] == l.entries[k - 1];
      assert k - 1 in l'.marks <==> k - 1 in l.marks;
      assert Shared(l', k - 1) == Shared(l, k - 1);
    }
  }

  // ----- the finished block -----

  ghost predicate MarksIn(l: Layout) {
    forall j | 0 <= j < |l.marks| :: l.marks[j] <= |l.entries|
  }

  ghost function RestartOffsets(l: Layout): (r: seq<nat>)
    requires MarksIn(l)
    ensures |r| == |l.marks| && forall j | 0 <= j < |r| :: r[j] == Offset(l, l.marks[j])
  {
    seq(|l.marks|, j requires 0 <= j < |l.marks| => Offset(l, l.marks[j]))
  }

  /** Offsets and counts fit the fixed-width fields. */
  ghost predicate SizeOk(l: Layout) {
    && LayoutOk(l) && Offset(l, |l.entries|) < TWO_32 && |l.marks| < TWO_32
  }

  lemma MarksBounded(l: Layout)
    requires LayoutOk(l)
    ensures MarksIn(l)
    ensures forall j | 0 <= j < |l.marks| :: Offset(l, l.marks[j]) <= Offset(l, |l.entries|)
    ensures Offset(l, |l.entries|) < TWO_32 ==> AllFit(RestartOffsets(l))
  {
    hide Offset;
    forall j | 0 <= j < |l.marks| ensures l.marks[j] <= |l.entries| && Offset(l, l.marks[j]) <= Offset(l, |l.entries|) {
      assert j > 0 ==> l.marks[j] < |l.entries|;
      OffsetsGrow(l, l.marks[j], |l.entries|);
    }
  }

  ghost function BlockBytes(l: Layout): Bytes
    requires SizeOk(l)
  {
    MarksBounded(l);
    Data(l, |l.entries|) + EncodeAll(RestartOffsets(l)) + EncodeFixed32(|l.marks|)
  }

  /** Every `interval`-th entry is a restart point, the last one `counter` entries ago. */
  ghost predicate Regular(l: Layout, interval: nat, counter: nat)
    requires l.marks != []
  {
    && (forall j | 0 < j < |l.marks| :: l.marks[j] == l.marks[j - 1] + interval)
    && l.marks[|l.marks| - 1] + counter == |l.entries|
  }

  lemma GrownRegular(l: Layout, e: KV, interval: nat, counter: nat)
    requires l.marks != [] && Regular(l, interval, counter) && counter <= interval
    ensures var mark := counter >= interval;
            Regular(Grow(l, e, mark), interval, if mark then 1 else counter + 1)
  {
  }

  /** The restart points of a block of n entries, and how many entries ago the last one was. */
  function Marks(n: nat, interval: nat): (seq<nat>, nat) {
    if n == 0 then ([0], 0)
    else
      var (marks, counter) := Marks(n - 1, interval);
      if counter >= interval then (marks + [n - 1], 1) else (marks, counter + 1)
  }

  /** How a block of these entries is laid out. */
  ghost function LayoutOf(entries: seq<KV>, interval: nat): Layout {
    Layout(entries, Marks(|entries|, interval).0)
  }

  class BlockBuilder {
    const interval: nat
    var buffer: Bytes
    var restarts: seq<nat>
    var counter: nat
    var lastKey: Bytes
    ghost var l: Layout

    ghost predicate Valid()
      reads this
    {
      && interval >= 1 && LayoutOk(l) && l.marks != [] && MarksIn(l) && counter <= interval
      && buffer == Data(l, |l.entries|) && restarts == RestartOffsets(l)
      && lastKey == (if l.entries == [] then [] else l.entries[|l.entries| - 1].key)
      && (l.entries == [] ==> l.marks == [0])
      && Regular(l, interval, counter) && (l.marks, counter) == Marks(|l.entries|, interval)
    }

    lemma LaidOut()
      requires Valid()
      ensures l == LayoutOf(l.entries, interval)
    {
    }

    constructor (interval: nat)
      requires interval >= 1
      ensures Valid() && l.entries == [] && this.interval == interval
    {
      this.interval := interval;
      buffer, restarts, counter, lastKey := [], [0], 0, [];
      l := Layout([], [0]);
    }

    /** Appends an entry, sharing a prefix with the entry before it unless a restart is due. */
    method Add(key: Bytes, value: Bytes)
      requires Valid() && |key| < TWO_32 && |value| < TWO_32
      modifies this
      ensures Valid() && l.entries == old(l.entries) + [KV(key, value)]
    {
      ghost var was, mark, e := l, counter >= interval, KV(key, value);
      hide Data, Encode, CommonPrefix, Shared, Regular, LayoutOk, MarksIn, RestartOffsets;
      Filled(was, interval, counter);
      Extended(was, e, mark);
      GrownRegular(was, e, interval, counter);
      var shared := 0;
      if counter < interval {
        shared := SharedWith(lastKey, key);
      } else {
        restarts := restarts + [|buffer|];
        counter := 0;
      }
      l := Grow(was, e, mark);
      AppendEntry(shared, key, value);
      lastKey := lastKey[..shared] + key[shared..];
      counter := counter + 1;
    }

    method AppendEntry(shared: nat, key: Bytes, value: Bytes)
      requires shared <= |key|
      modifies this`buffer
      ensures buffer == old(buffer) + Encode(shared, KV(key, value))
    {
      hide EncodeVarint;
      buffer := buffer + EncodeVarint(shared) + EncodeVarint(|key| - shared) + EncodeVarint(|value|);
      buffer := buffer + key[shared..];
      buffer := buffer + value;
    }

    /** Appends the restart array. */
    method Finish() returns (block: Bytes)
      requires Valid() && SizeOk(l)
      modifies this`buffer
      ensures block == BlockBytes(l)
    {
      hide Data, RestartOffsets, EncodeFixed32;
      MarksBounded(l);
      for i := 0 to |restarts|
        invariant buffer == Data(l, |l.entries|) + EncodeAll(restarts[..i])
      {
        assert restarts[..i + 1][..i] == restarts[..i];
        buffer := buffer + EncodeFixed32(restarts[i]);
      }
      assert restarts[..|restarts|] == restarts;
      buffer := buffer + EncodeFixed32(|restarts|);
      block := buffer;
    }
  }

  method SharedWith(a: Bytes, b: Bytes) returns (n: nat)
    ensures n == CommonPrefix(a, b)
  {
    n := 0;
    while n < |a| && n < |b| && a[n] == b[n]
      invariant n <= |a| && n <= |b| && forall k | 0 <= k < n :: a[k] == b[k]
    {
      n := n + 1;
    }
    var m := CommonPrefix(a, b);
    assert forall k | 0 <= k < m :: a[k] == a[..m][k] == b[..m][k] == b[k];
  }

  lemma Filled(l: Layout, interval: nat, counter: nat)
    requires l.marks != [] && Regular(l, interval, counter)
    ensures counter > 0 ==> l.entries != []
  {
  }

  lemma GrownOk(l: Layout, e: KV, mark: bool)
    requires LayoutOk(l) && |e.key| < TWO_32 && |e.value| < TWO_32
    requires (mark ==> l.entries != []) && (l.entries == [] ==> l.marks == [0])
    ensures LayoutOk(Grow(l, e, mark)) && MarksIn(Grow(l, e, mark)) && MarksIn(l) && Grow(l, e, mark).marks != []
  {
  }

  lemma GrownRestarts(l: Layout, e: KV, mark: bool)
    requires LayoutOk(l) && MarksIn(l) && MarksIn(Grow(l, e, mark))
    ensures RestartOffsets(Grow(l, e, mark)) == RestartOffsets(l) + if mark then [Offset(l, |l.entries|)] else []
  {
    var l' := Grow(l, e, mark);
    forall k | 0 <= k <= |l.entries| ensures Offset(l', k) == Offset(l, k) { DataExtends(l, e, mark, k); }
    hide Offset;
  }

  lemma GrownData(l: Layout, e: KV, mark: bool)
    requires LayoutOk(l)
    ensures var l' := Grow(l, e, mark);
            var n := |l.entries|;
            && Shared(l', n) == (if mark || n == 0 then 0 else CommonPrefix(l.entries[n - 1].key, e.key))
            && Data(l', n + 1) == Data(l, n) + Encode(Shared(l', n), e)
  {
    hide Encode, CommonPrefix;
    var l', n := Grow(l, e, mark), |l.entries|;
    assert mark ==> l'.marks[|l.marks|] == n;
    assert !mark && n > 0 ==> n !in l'.marks;
    DataExtends(l, e, mark, n);
    assert l'.entries[n] == e;
  }

  lemma Extended(l: Layout, e: KV, mark: bool)
    requires LayoutOk(l) && |e.key| < TWO_32 && |e.value| < TWO_32
    requires (mark ==> l.entries != []) && (l.entries == [] ==> l.marks == [0])
    ensures var l' := Grow(l, e, mark);
            var n := |l.entries|;
            var shared := if mark || n == 0 then 0 else CommonPrefix(l.entries[n - 1].key, e.key);
            && LayoutOk(l') && MarksIn(l') && MarksIn(l) && l'.marks != []
            && RestartOffsets(l') == RestartOffsets(l) + (if mark then [Offset(l, n)] else [])
            && shared <= |e.key| && Data(l', n + 1) == Data(l, n) + Encode(shared, e)
  {
    hide Encode, CommonPrefix, Data, LayoutOk, Offset, Shared, RestartOffsets;
    GrownOk(l, e, mark);
    GrownRestarts(l, e, mark);
    GrownData(l, e, mark);
  }
}
