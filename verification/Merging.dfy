/** The k-way merging iterator (leveldb/table/merger.cc).

    A child iterator is a position in its own sorted sequence; one position past
    the end stands for "not valid". */
module MergingIterators {
  import opened Options
  import opened InternalKeys

  // ----- children and their sorted union -----

  /** merged is the sorted union of the children, which share no entry. */
  ghost predicate SortedUnion(children: seq<seq<Entry>>, merged: seq<Entry>) {
    && StrictlySorted(merged)
    && (forall i :: 0 <= i < |children| ==> StrictlySorted(children[i]))
    && (forall e :: e in merged <==> exists i :: 0 <= i < |children| && e in children[i])
    && (forall i, k, e :: 0 <= i < k < |children| && e in children[i] ==> e !in children[k])
  }

  /** Where child i's entry j stands in the union. */
  ghost function Rank(children: seq<seq<Entry>>, merged: seq<Entry>, i: nat, j: nat): (m: nat)
    requires SortedUnion(children, merged) && i < |children| && j < |children[i]|
    ensures m < |merged| && merged[m] == children[i][j]
  {
    assert children[i][j] in merged;
    var m :| 0 <= m < |merged| && merged[m] == children[i][j]; m
  }

  lemma RankAscends(children: seq<seq<Entry>>, merged: seq<Entry>, i: nat, j: nat, k: nat)
    requires SortedUnion(children, merged) && i < |children| && j < |children[i]| && k < |children[i]|
    ensures j < k <==> Rank(children, merged, i, j) < Rank(children, merged, i, k)
  {
  }

  lemma RankOrder(children: seq<seq<Entry>>, merged: seq<Entry>, i: nat, j: nat, k: nat, l: nat)
    requires SortedUnion(children, merged) && i < |children| && j < |children[i]| && k < |children| && l < |children[k]|
    ensures Less(children[i][j].key, children[k][l].key)
            <==> Rank(children, merged, i, j) < Rank(children, merged, k, l)
  {
  }

  lemma RankInjective(children: seq<seq<Entry>>, merged: seq<Entry>, i: nat, j: nat, k: nat, l: nat)
    requires SortedUnion(children, merged) && i < |children| && j < |children[i]| && k < |children| && l < |children[k]|
    requires i != k
    ensures Rank(children, merged, i, j) != Rank(children, merged, k, l)
  {
    assert children[i][j] in children[i] && children[k][l] in children[k];
  }

  lemma SortedIndexUnique(es: seq<Entry>, i: nat, j: nat)
    requires StrictlySorted(es) && i < |es| && j < |es| && es[i] == es[j]
    ensures i == j
  {
  }

  lemma RankOnto(children: seq<seq<Entry>>, merged: seq<Entry>, m: nat) returns (i: nat, j: nat)
    requires SortedUnion(children, merged) && m < |merged|
    ensures i < |children| && j < |children[i]| && Rank(children, merged, i, j) == m
  {
    assert merged[m] in merged;
    i :| 0 <= i < |children| && merged[m] in children[i];
    j :| 0 <= j < |children[i]| && children[i][j] == merged[m];
    SortedIndexUnique(merged, Rank(children, merged, i, j), m);
  }

  /** Child i stands at its first entry of rank b or more. */
  ghost predicate AheadOf(children: seq<seq<Entry>>, merged: seq<Entry>, i: nat, p: nat, b: nat)
    requires SortedUnion(children, merged) && i < |children|
  {
    && p <= |children[i]|
    && (p > 0 ==> Rank(children, merged, i, p - 1) < b)
    && (p < |children[i]| ==> Rank(children, merged, i, p) >= b)
  }

  /** Child i stands at its last entry of rank below b, or nowhere if it has none. */
  ghost predicate BackFrom(children: seq<seq<Entry>>, merged: seq<Entry>, i: nat, p: nat, b: nat)
    requires SortedUnion(children, merged) && i < |children|
  {
    && p <= |children[i]|
    && (p < |children[i]| ==> Rank(children, merged, i, p) < b)
    && (p + 1 < |children[i]| ==> Rank(children, merged, i, p + 1) >= b)
    && (p == |children[i]| > 0 ==> Rank(children, merged, i, 0) >= b)
  }

  // ----- child operations -----

  function StepBack(p: nat, n: nat): nat
    requires p < n
  {
    if p == 0 then n else p - 1
  }

  function LastPosition(n: nat): nat { if n == 0 then 0 else n - 1 }

  lemma SeekIsAhead(children: seq<seq<Entry>>, merged: seq<Entry>, i: nat, target: IKey)
    requires SortedUnion(children, merged) && i < |children|
    ensures AheadOf(children, merged, i, SeekIndex(children[i], target), SeekIndex(merged, target))
  {
  }

  /** Stepping back from the first entry not below b leaves the last one below b. */
  lemma AheadThenBack(children: seq<seq<Entry>>, merged: seq<Entry>, i: nat, p: nat, b: nat)
    requires SortedUnion(children, merged) && i < |children| && AheadOf(children, merged, i, p, b)
    ensures var q := if p < |children[i]| then StepBack(p, |children[i]|) else LastPosition(|children[i]|);
            BackFrom(children, merged, i, q, b)
  {
  }

  /** Past a key held by another child, "from b on" and "after b" are the same place. */
  lemma AheadPast(children: seq<seq<Entry>>, merged: seq<Entry>, i: nat, p: nat, c: nat, j: nat)
    requires SortedUnion(children, merged) && i < |children| && c < |children| && i != c && j < |children[c]|
    requires AheadOf(children, merged, i, p, Rank(children, merged, c, j))
    ensures AheadOf(children, merged, i, p, Rank(children, merged, c, j) + 1)
  {
    if p < |children[i]| { RankInjective(children, merged, i, p, c, j); }
  }

  lemma BackPast(children: seq<seq<Entry>>, merged: seq<Entry>, i: nat, p: nat, c: nat, j: nat)
    requires SortedUnion(children, merged) && i < |children| && c < |children| && i != c && j < |children[c]|
    requires BackFrom(children, merged, i, p, Rank(children, merged, c, j) + 1)
    ensures BackFrom(children, merged, i, p, Rank(children, merged, c, j))
  {
    if p < |children[i]| { RankInjective(children, merged, i, p, c, j); }
  }

  // ----- selection -----

  ghost predicate Positions(children: seq<seq<Entry>>, pos: seq<nat>) {
    |pos| == |children| && forall i :: 0 <= i < |children| ==> pos[i] <= |children[i]|
  }

  ghost predicate IsSmallest(children: seq<seq<Entry>>, pos: seq<nat>, r: Option<nat>)
    requires Positions(children, pos)
  {
    && (r.Some? ==> r.value < |children| && pos[r.value] < |children[r.value]|)
    && (forall k :: 0 <= k < |children| && pos[k] < |children[k]| ==>
          r.Some? && AtMost(children[r.value][pos[r.value]].key, children[k][pos[k]].key))
  }

  ghost predicate IsLargest(children: seq<seq<Entry>>, pos: seq<nat>, r: Option<nat>)
    requires Positions(children, pos)
  {
    && (r.Some? ==> r.value < |children| && pos[r.value] < |children[r.value]|)
    && (forall k :: 0 <= k < |children| && pos[k] < |children[k]| ==>
          r.Some? && AtMost(children[k][pos[k]].key, children[r.value][pos[r.value]].key))
  }

  method FindSmallest(children: seq<seq<Entry>>, pos: seq<nat>) returns (smallest: Option<nat>)
    requires Positions(children, pos)
    ensures IsSmallest(children, pos, smallest)
  {
    smallest := None;
    for i := 0 to |children|
      invariant smallest.Some? ==> smallest.value < i && pos[smallest.value] < |children[smallest.value]|
      invariant forall k :: 0 <= k < i && pos[k] < |children[k]| ==>
        smallest.Some? && AtMost(children[smallest.value][pos[smallest.value]].key, children[k][pos[k]].key)
    {
      if pos[i] < |children[i]| {
        if smallest.None? {
          smallest := Some(i);
        } else if Less(children[i][pos[i]].key, children[smallest.value][pos[smallest.value]].key) {
          smallest := Some(i);
        }
      }
    }
  }

  method FindLargest(children: seq<seq<Entry>>, pos: seq<nat>) returns (largest: Option<nat>)
    requires Positions(children, pos)
    ensures IsLargest(children, pos, largest)
  {
    largest := None;
    for i := |children| downto 0
      invariant largest.Some? ==> i <= largest.value < |children| && pos[largest.value] < |children[largest.value]|
      invariant forall k :: i <= k < |children| && pos[k] < |children[k]| ==>
        largest.Some? && AtMost(children[k][pos[k]].key, children[largest.value][pos[largest.value]].key)
    {
      if pos[i] < |children[i]| {
        if largest.None? {
          largest := Some(i);
        } else if Less(children[largest.value][pos[largest.value]].key, children[i][pos[i]].key) {
          largest := Some(i);
        }
      }
    }
  }

  ghost predicate AllAhead(children: seq<seq<Entry>>, merged: seq<Entry>, pos: seq<nat>, b: nat)
    requires SortedUnion(children, merged)
  {
    Positions(children, pos) && forall i :: 0 <= i < |children| ==> AheadOf(children, merged, i, pos[i], b)
  }

  ghost predicate AllBack(children: seq<seq<Entry>>, merged: seq<Entry>, pos: seq<nat>, b: nat)
    requires SortedUnion(children, merged)
  {
    Positions(children, pos) && forall i :: 0 <= i < |children| ==> BackFrom(children, merged, i, pos[i], b)
  }

  /** With every child at its first entry of rank b or more, the smallest is entry b of the union. */
  lemma SmallestIsNext(children: seq<seq<Entry>>, merged: seq<Entry>, pos: seq<nat>, b: nat, r: Option<nat>)
    requires SortedUnion(children, merged) && AllAhead(children, merged, pos, b) && b <= |merged|
             && IsSmallest(children, pos, r)
    ensures r.Some? <==> b < |merged|
    ensures r.Some? ==> Rank(children, merged, r.value, pos[r.value]) == b
  {
    if b < |merged| {
      var i, j := RankOnto(children, merged, b);
      assert AheadOf(children, merged, i, pos[i], b);
      if pos[i] > 0 { RankAscends(children, merged, i, pos[i] - 1, j); }
      if pos[i] < |children[i]| { RankAscends(children, merged, i, pos[i], j); }
      assert pos[i] == j;
      RankOrder(children, merged, i, pos[i], r.value, pos[r.value]);
    }
    if r.Some? { assert AheadOf(children, merged, r.value, pos[r.value], b); }
  }

  /** With every child at its last entry of rank below b, the largest is entry b - 1. */
  lemma LargestIsPrevious(children: seq<seq<Entry>>, merged: seq<Entry>, pos: seq<nat>, b: nat, r: Option<nat>)
    requires SortedUnion(children, merged) && AllBack(children, merged, pos, b) && b <= |merged|
             && IsLargest(children, pos, r)
    ensures r.Some? <==> b > 0
    ensures r.Some? ==> Rank(children, merged, r.value, pos[r.value]) == b - 1
  {
    if b > 0 {
      var i, j := RankOnto(children, merged, b - 1);
      var p := pos[i];
      assert BackFrom(children, merged, i, p, b);
      RankAscends(children, merged, i, j, 0);
      if p + 1 < |children[i]| { RankAscends(children, merged, i, j, p + 1); }
      if p < |children[i]| { RankAscends(children, merged, i, j, p); }
      assert p == j;
      RankOrder(children, merged, r.value, pos[r.value], i, p);
    }
    if r.Some? { assert BackFrom(children, merged, r.value, pos[r.value], b); }
  }

  // ----- the iterator -----

  datatype Direction = Forward | Reverse

  class MergingIterator {
    const children: seq<seq<Entry>>
    ghost const merged: seq<Entry>
    var pos: seq<nat>
    var current: Option<nat>
    var direction: Direction
    ghost var at: nat

    /** The current child is at the cursor; going forward the others stand just past it,
        going backward just before it. */
    ghost predicate Ok()
      reads this
    {
      && SortedUnion(children, merged) && Positions(children, pos) && at <= |merged|
      && (current.Some? <==> at < |merged|)
      && (current.Some? ==>
            && current.value < |children| && pos[current.value] < |children[current.value]|
            && Rank(children, merged, current.value, pos[current.value]) == at)
      && (current.Some? && direction.Forward? ==> OthersAhead(pos, current.value, at + 1))
      && (current.Some? && direction.Reverse? ==> OthersBack(pos, current.value, at))
    }

    ghost predicate OthersAhead(p: seq<nat>, c: nat, b: nat)
      requires SortedUnion(children, merged) && |p| == |children|
    {
      forall i :: 0 <= i < |children| && i != c ==> AheadOf(children, merged, i, p[i], b)
    }

    ghost predicate OthersBack(p: seq<nat>, c: nat, b: nat)
      requires SortedUnion(children, merged) && |p| == |children|
    {
      forall i :: 0 <= i < |children| && i != c ==> BackFrom(children, merged, i, p[i], b)
    }

    constructor (children: seq<seq<Entry>>, ghost merged: seq<Entry>)
      requires SortedUnion(children, merged)
      ensures this.children == children && this.merged == merged && Ok() && current.None?
    {
      this.children := children;
      this.merged := merged;
      pos := seq(|children|, i requires 0 <= i < |children| => |children[i]|);
      current, direction, at := None, Forward, |merged|;
    }

    function Current(): Entry
      requires Ok() && current.Some?
      reads this
      ensures Current() == merged[at]
    {
      children[current.value][pos[current.value]]
    }

    /** Choose the smallest and face forward. */
    method SettleForward(ghost b: nat)
      requires SortedUnion(children, merged) && b <= |merged| && AllAhead(children, merged, pos, b)
      modifies this
      ensures Ok() && at == b && pos == old(pos) && direction.Forward?
    {
      current := FindSmallest(children, pos);
      SmallestIsNext(children, merged, pos, b, current);
      at, direction := b, Forward;
      if current.Some? {
        forall i | 0 <= i < |children| && i != current.value ensures AheadOf(children, merged, i, pos[i], b + 1) {
          AheadPast(children, merged, i, pos[i], current.value, pos[current.value]);
        }
      }
    }

    /** Choose the largest and face backward. */
    method SettleReverse(ghost b: nat)
      requires SortedUnion(children, merged) && b <= |merged| && AllBack(children, merged, pos, b)
      modifies this
      ensures Ok() && at == (if b > 0 then b - 1 else |merged|) && pos == old(pos) && direction.Reverse?
    {
      current := FindLargest(children, pos);
      LargestIsPrevious(children, merged, pos, b, current);
      at, direction := if b > 0 then b - 1 else |merged|, Reverse;
      if current.Some? {
        forall i | 0 <= i < |children| && i != current.value ensures BackFrom(children, merged, i, pos[i], b - 1) {
          BackPast(children, merged, i, pos[i], current.value, pos[current.value]);
        }
      }
    }

    method SeekToFirst()
      requires Ok()
      modifies this
      ensures Ok() && at == 0
    {
      pos := seq(|children|, _ => 0);
      SettleForward(0);
    }

    method SeekToLast()
      requires Ok()
      modifies this
      ensures Ok() && at == (if |merged| > 0 then |merged| - 1 else 0)
    {
      pos := seq(|children|, i requires 0 <= i < |children| => LastPosition(|children[i]|));
      SettleReverse(|merged|);
    }

    method Seek(target: IKey)
      requires Ok()
      modifies this
      ensures Ok() && at == SeekIndex(merged, target)
    {
      pos := seq(|children|, i requires 0 <= i < |children| => SeekIndex(children[i], target));
      forall i | 0 <= i < |children| ensures AheadOf(children, merged, i, pos[i], SeekIndex(merged, target)) {
        SeekIsAhead(children, merged, i, target);
      }
      SettleForward(SeekIndex(merged, target));
    }

    /** Next, also after going backward: the others are first moved past the key. */
    method Next()
      requires Ok() && current.Some?
      modifies this
      ensures Ok() && at == old(at) + 1
    {
      var c := current.value;
      if direction.Reverse? {
        PutAhead(c);
      }
      MoveCurrentAhead(c);
      pos := pos[c := pos[c] + 1];
      SettleForward(at + 1);
    }

    method PutAhead(c: nat)
      requires SortedUnion(children, merged) && Positions(children, pos) && c < |children| && pos[c] < |children[c]|
      modifies this`pos
      ensures Positions(children, pos) && pos[c] == old(pos[c])
      ensures OthersAhead(pos, c, Rank(children, merged, c, pos[c]) + 1)
    {
      var key := children[c][pos[c]].key;
      ghost var b := Rank(children, merged, c, pos[c]);
      for i := 0 to |children|
        invariant Positions(children, pos) && pos[c] == old(pos[c])
        invariant forall k :: 0 <= k < i && k != c ==> AheadOf(children, merged, k, pos[k], b + 1)
      {
        if i != c {
          var p := SeekIndex(children[i], key);
          SeekIsAhead(children, merged, i, key);
          SeekFindsRank(children, merged, c, pos[c]);
          AheadPast(children, merged, i, p, c, pos[c]);
          if p < |children[i]| { RankOrder(children, merged, c, pos[c], i, p); }
          if p < |children[i]| && children[i][p].key == key {
            p := p + 1;
          }
          pos := pos[i := p];
        }
      }
    }

    lemma MoveCurrentAhead(c: nat)
      requires SortedUnion(children, merged) && Positions(children, pos) && c < |children| && pos[c] < |children[c]|
      requires OthersAhead(pos, c, Rank(children, merged, c, pos[c]) + 1)
      ensures AllAhead(children, merged, pos[c := pos[c] + 1], Rank(children, merged, c, pos[c]) + 1)
    {
      if pos[c] + 1 < |children[c]| { RankAscends(children, merged, c, pos[c], pos[c] + 1); }
    }

    /** Prev, also after going forward: the others are first moved before the key. */
    method Prev()
      requires Ok() && current.Some?
      modifies this
      ensures Ok() && at == (if old(at) > 0 then old(at) - 1 else |merged|)
    {
      var c := current.value;
      if direction.Forward? {
        PutBack(c);
      }
      MoveCurrentBack(c);
      pos := pos[c := StepBack(pos[c], |children[c]|)];
      SettleReverse(at);
    }

    method PutBack(c: nat)
      requires SortedUnion(children, merged) && Positions(children, pos) && c < |children| && pos[c] < |children[c]|
      modifies this`pos
      ensures Positions(children, pos) && pos[c] == old(pos[c])
      ensures OthersBack(pos, c, Rank(children, merged, c, pos[c]))
    {
      var key := children[c][pos[c]].key;
      ghost var b := Rank(children, merged, c, pos[c]);
      for i := 0 to |children|
        invariant Positions(children, pos) && pos[c] == old(pos[c])
        invariant forall k :: 0 <= k < i && k != c ==> BackFrom(children, merged, k, pos[k], b)
      {
        if i != c {
          var p := SeekIndex(children[i], key);
          SeekIsAhead(children, merged, i, key);
          SeekFindsRank(children, merged, c, pos[c]);
          AheadThenBack(children, merged, i, p, b);
          if p < |children[i]| {
            p := StepBack(p, |children[i]|);
          } else {
            p := LastPosition(|children[i]|);
          }
          pos := pos[i := p];
        }
      }
    }

    lemma MoveCurrentBack(c: nat)
      requires SortedUnion(children, merged) && Positions(children, pos) && c < |children| && pos[c] < |children[c]|
      requires OthersBack(pos, c, Rank(children, merged, c, pos[c]))
      ensures AllBack(children, merged, pos[c := StepBack(pos[c], |children[c]|)], Rank(children, merged, c, pos[c]))
    {
      if pos[c] > 0 { RankAscends(children, merged, c, pos[c] - 1, pos[c]); }
    }
  }

  lemma SeekFindsRank(children: seq<seq<Entry>>, merged: seq<Entry>, c: nat, j: nat)
    requires SortedUnion(children, merged) && c < |children| && j < |children[c]|
    ensures SeekIndex(merged, children[c][j].key) == Rank(children, merged, c, j)
  {
    SeekIndexUnique(merged, children[c][j].key, Rank(children, merged, c, j));
  }

  // ----- every set of children with distinct keys has a union -----

  ghost function InsertEntry(es: seq<Entry>, e: Entry): seq<Entry> {
    var n := SeekIndex(es, e.key);
    es[..n] + [e] + es[n..]
  }

  lemma InsertEntryMembers(es: seq<Entry>, e: Entry)
    ensures forall x :: x in InsertEntry(es, e) <==> x in es || x == e
  {
    var n := SeekIndex(es, e.key);
    assert es == es[..n] + es[n..];
  }

  lemma InsertEntrySorted(es: seq<Entry>, e: Entry)
    requires StrictlySorted(es) && forall x :: x in es ==> x.key != e.key
    ensures StrictlySorted(InsertEntry(es, e))
  {
    var n := SeekIndex(es, e.key);
    var r := InsertEntry(es, e);
    forall i | n <= i < |es| ensures Less(e.key, es[i].key) {
      assert es[i] in es && es[n] in es;
      assert i == n || Less(es[n].key, es[i].key);
    }
    forall i, j | 0 <= i < j < |r| ensures Less(r[i].key, r[j].key) {
      assert r[i] == if i < n then es[i] else if i == n then e else es[i - 1];
      assert r[j] == if j < n then es[j] else if j == n then e else es[j - 1];
    }
  }

  ghost predicate DistinctKeys(entries: set<Entry>) {
    forall x, y :: x in entries && y in entries && x.key == y.key ==> x == y
  }

  lemma {:induction false} SortedOf(entries: set<Entry>) returns (es: seq<Entry>)
    requires DistinctKeys(entries)
    ensures StrictlySorted(es) && forall x :: x in es <==> x in entries
    decreases |entries|
  {
    es := [];
    if entries != {} {
      var e :| e in entries;
      var rest := SortedOf(entries - {e});
      InsertEntrySorted(rest, e);
      InsertEntryMembers(rest, e);
      es := InsertEntry(rest, e);
    }
  }

  /** Children with pairwise distinct keys have a sorted union, so the iterator applies to all of them. */
  lemma UnionExists(children: seq<seq<Entry>>) returns (merged: seq<Entry>)
    requires forall i :: 0 <= i < |children| ==> StrictlySorted(children[i])
    requires forall i, k, x, y :: 0 <= i < k < |children| && x in children[i] && y in children[k] ==> x.key != y.key
    ensures SortedUnion(children, merged)
  {
    var entries := set i, e | 0 <= i < |children| && e in children[i] :: e;
    forall x, y | x in entries && y in entries && x.key == y.key ensures x == y {
      var i :| 0 <= i < |children| && x in children[i];
      var k :| 0 <= k < |children| && y in children[k];
      assert i == k;
      SortedKeyUnique(children[i], x, y);
    }
    merged := SortedOf(entries);
    forall i, k, e | 0 <= i < k < |children| && e in children[i] ensures e !in children[k] {
      assert forall y :: y in children[k] ==> e.key != y.key;
    }
  }

  lemma SortedKeyUnique(es: seq<Entry>, x: Entry, y: Entry)
    requires StrictlySorted(es) && x in es && y in es && x.key == y.key
    ensures x == y
  {
  }
}
