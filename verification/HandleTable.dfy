/** The cache's own hash table (leveldb/util/cache.cc). */
module HandleTables {
  import opened Options

  /** A cache entry; `id` stands for its address. */
  datatype Handle = Handle(id: nat, key: string, hash: nat, charge: nat)

  /** What an entry is found by. */
  datatype Slot = Slot(key: string, hash: nat)

  function SlotOf(h: Handle): Slot { Slot(h.key, h.hash) }

  predicate PowerOfTwo(n: nat) {
    n == 1 || (n > 1 && n % 2 == 0 && PowerOfTwo(n / 2))
  }

  function TwoTo(k: nat): (n: nat)
    ensures n > 0
  {
    if k == 0 then 1 else 2 * TwoTo(k - 1)
  }

  lemma {:induction false} PowerExactly(n: nat)
    ensures PowerOfTwo(n) <==> exists k: nat :: n == TwoTo(k)
  {
    if PowerOfTwo(n) && n > 1 {
      PowerExactly(n / 2);
      var k: nat :| n / 2 == TwoTo(k);
      assert n == TwoTo(k + 1);
    } else if n == 1 {
      assert n == TwoTo(0);
    }
    if k: nat :| n == TwoTo(k) {
      PowersAre(k);
    }
  }

  lemma {:induction false} PowersAre(k: nat)
    ensures PowerOfTwo(TwoTo(k))
  {
    if k > 0 {
      PowersAre(k - 1);
      assert TwoTo(k) / 2 == TwoTo(k - 1) && TwoTo(k) % 2 == 0;
    }
  }

  lemma Doubled(n: nat)
    ensures n == 1 || PowerOfTwo(n) ==> PowerOfTwo(n * 2)
  {
  }

  /** The number of entries in all chains. */
  function Count(list: seq<seq<Handle>>): nat {
    if list == [] then 0 else |list[0]| + Count(list[1..])
  }

  lemma {:induction false} CountUpdate(list: seq<seq<Handle>>, i: nat, chain: seq<Handle>)
    requires i < |list|
    ensures Count(list[i := chain]) == Count(list) - |list[i]| + |chain|
  {
    if i > 0 {
      CountUpdate(list[1..], i - 1, chain);
      assert list[i := chain][1..] == list[1..][i - 1 := chain];
    }
  }

  lemma {:induction false} CountEmpty(list: seq<seq<Handle>>)
    requires forall i | 0 <= i < |list| :: list[i] == []
    ensures Count(list) == 0
  {
    if list != [] {
      CountEmpty(list[1..]);
    }
  }

  /** The bucket of a hash: its low bits, since the number of buckets is a power of two. */
  function Bucket(hash: nat, length: nat): (b: nat)
    requires length > 0
    ensures b < length && exists q: nat :: hash == length * q + b
  {
    assert hash == length * (hash / length) + hash % length;
    hash % length
  }

  ghost predicate NoDup(chain: seq<Handle>) {
    forall j, k | 0 <= j < k < |chain| :: chain[j] != chain[k]
  }

  /** A chain holds exactly the entries of m that belong to its bucket, once each. */
  ghost predicate ChainOk(chain: seq<Handle>, b: nat, n: nat, m: map<Slot, Handle>)
    requires n > 0
  {
    && NoDup(chain)
    && (forall h | h in chain :: Bucket(h.hash, n) == b && SlotOf(h) in m && m[SlotOf(h)] == h)
    && (forall s | s in m && Bucket(s.hash, n) == b :: SlotOf(m[s]) == s && m[s] in chain)
  }

  /** The buckets hold exactly the entries of m. */
  ghost predicate Holds(list: seq<seq<Handle>>, m: map<Slot, Handle>) {
    |list| > 0 && forall b | 0 <= b < |list| :: ChainOk(list[b], b, |list|, m)
  }

  ghost predicate SameOutside(m: map<Slot, Handle>, m': map<Slot, Handle>, b: nat, n: nat)
    requires n > 0
  {
    && (forall s {:trigger s in m} | s in m && Bucket(s.hash, n) != b :: s in m' && m'[s] == m[s])
    && (forall s {:trigger s in m'} | s in m' && Bucket(s.hash, n) != b :: s in m)
  }

  lemma OneBucketChanged(list: seq<seq<Handle>>, m: map<Slot, Handle>, b: nat, chain: seq<Handle>,
                         m': map<Slot, Handle>)
    requires Holds(list, m) && b < |list|
    requires ChainOk(chain, b, |list|, m') && SameOutside(m, m', b, |list|)
    ensures Holds(list[b := chain], m') && Count(list[b := chain]) == Count(list) - |list[b]| + |chain|
  {
    hide Bucket, NoDup;
    CountUpdate(list, b, chain);
    var list' := list[b := chain];
    forall c | 0 <= c < |list| ensures ChainOk(list'[c], c, |list|, m') {
      if c != b {
        OtherBucket(list[c], c, |list|, m, b, m');
      }
    }
  }

  lemma OtherBucket(chain: seq<Handle>, c: nat, n: nat, m: map<Slot, Handle>, b: nat, m': map<Slot, Handle>)
    requires n > 0 && c != b && ChainOk(chain, c, n, m) && SameOutside(m, m', b, n)
    ensures ChainOk(chain, c, n, m')
  {
  }

  class HandleTable {
    var list: seq<seq<Handle>>
    var elems: nat
    ghost var m: map<Slot, Handle>

    ghost predicate Valid()
      reads this
    {
      && Holds(list, m) && elems == Count(list) == |m|
      && PowerOfTwo(|list|) && 4 <= |list| && elems <= |list|
    }

    constructor ()
      ensures Valid() && m == map[]
    {
      list := [[], [], [], []];
      elems, m := 0, map[];
      assert PowerOfTwo(2);
      CountEmpty([[], [], [], []]);
    }

    /** The place in its chain of the entry for a key and hash, or the chain's end. */
    method FindPointer(key: string, hash: nat) returns (b: nat, pos: nat)
      requires Valid()
      ensures b == Bucket(hash, |list|) && pos <= |list[b]|
      ensures pos < |list[b]| <==> Slot(key, hash) in m
      ensures pos < |list[b]| ==> list[b][pos] == m[Slot(key, hash)] && SlotOf(list[b][pos]) == Slot(key, hash)
    {
      hide Bucket, NoDup, PowerOfTwo, Count;
      b, pos := Bucket(hash, |list|), 0;
      assert ChainOk(list[b], b, |list|, m);
      while pos < |list[b]| && (list[b][pos].hash != hash || key != list[b][pos].key)
        invariant pos <= |list[b]|
        invariant forall j | 0 <= j < pos :: SlotOf(list[b][j]) != Slot(key, hash)
      {
        pos := pos + 1;
      }
      if pos < |list[b]| {
        assert list[b][pos] in list[b];
      }
    }

    method Lookup(key: string, hash: nat) returns (r: Option<Handle>)
      requires Valid()
      ensures r == if Slot(key, hash) in m then Some(m[Slot(key, hash)]) else None
    {
      var b, pos := FindPointer(key, hash);
      r := if pos < |list[b]| then Some(list[b][pos]) else None;
    }

    /** Replaces the entry with the same key and hash, or adds one at the end of its chain; the table grows
        when it then holds more entries than buckets. */
    method Insert(h: Handle) returns (previous: Option<Handle>)
      requires Valid()
      modifies this
      ensures Valid() && m == old(m)[SlotOf(h) := h]
      ensures previous == if SlotOf(h) in old(m) then Some(old(m)[SlotOf(h)]) else None
      ensures |m| <= |old(list)| ==> |list| == |old(list)|
    {
      hide Holds, Bucket, Count, PowerOfTwo, ChainOk;
      var b, pos := FindPointer(h.key, h.hash);
      if pos < |list[b]| {
        previous := Some(list[b][pos]);
        Replaced(list, m, b, pos, h);
        list := list[b := list[b][pos := h]];
        m := m[SlotOf(h) := h];
      } else {
        previous := None;
        Added(list, m, b, h);
        list := list[b := list[b] + [h]];
        m := m[SlotOf(h) := h];
        elems := elems + 1;
        if elems > |list| {
          Resize();
        }
      }
    }

    method Remove(key: string, hash: nat) returns (r: Option<Handle>)
      requires Valid()
      modifies this
      ensures Valid() && m == old(m) - {Slot(key, hash)}
      ensures r == if Slot(key, hash) in old(m) then Some(old(m)[Slot(key, hash)]) else None
    {
      hide Holds, Bucket, Count, PowerOfTwo, ChainOk;
      var b, pos := FindPointer(key, hash);
      r := None;
      if pos < |list[b]| {
        r := Some(list[b][pos]);
        Removed(list, m, b, pos);
        list := list[b := list[b][..pos] + list[b][pos + 1..]];
        m := m - {Slot(key, hash)};
        elems := elems - 1;
      } else {
        assert m - {Slot(key, hash)} == m;
      }
    }

    /** Moves every entry to a new array, at least as long as the number of entries. */
    method Resize()
      requires Holds(list, m) && elems == Count(list) == |m|
      modifies this
      ensures Valid() && m == old(m)
      ensures |list| == 4 || |list| < 2 * |m|
    {
      hide Holds, Count, PowerOfTwo;
      var newLength := 4;
      Doubled(1);
      Doubled(2);
      while newLength < elems
        invariant newLength >= 4 && PowerOfTwo(newLength)
        invariant newLength == 4 || newLength < 2 * elems
        invariant list == old(list) && m == old(m) && elems == old(elems)
      {
        Doubled(newLength);
        newLength := newLength * 2;
      }
      list := Rehash(list, m, newLength);
    }
  }

  lemma Replaced(list: seq<seq<Handle>>, m: map<Slot, Handle>, b: nat, pos: nat, h: Handle)
    requires Holds(list, m) && b < |list| && pos < |list[b]|
    requires SlotOf(h) in m && list[b][pos] == m[SlotOf(h)] && b == Bucket(h.hash, |list|)
    ensures var list' := list[b := list[b][pos := h]];
            var m' := m[SlotOf(h) := h];
            Holds(list', m') && Count(list') == Count(list) && |m'| == |m| && |list'| == |list|
  {
    hide Bucket, Count;
    assert ChainOk(list[b], b, |list|, m);
    var chain, n, m' := list[b][pos := h], |list|, m[SlotOf(h) := h];
    ReplacedChain(list[b], b, n, m, pos, h);
    OneBucketChanged(list, m, b, chain, m');
  }

  lemma ReplacedChain(chain: seq<Handle>, b: nat, n: nat, m: map<Slot, Handle>, pos: nat, h: Handle)
    requires n > 0 && ChainOk(chain, b, n, m) && b == Bucket(h.hash, n)
    requires SlotOf(h) in m && pos < |chain| && chain[pos] == m[SlotOf(h)]
    ensures ChainOk(chain[pos := h], b, n, m[SlotOf(h) := h])
  {
    hide Bucket;
    var chain', m' := chain[pos := h], m[SlotOf(h) := h];
    assert forall j | 0 <= j < |chain| :: chain[j] in chain;
    assert chain'[pos] == h;
    forall s | s in m' && Bucket(s.hash, n) == b ensures SlotOf(m'[s]) == s && m'[s] in chain' {
      if s != SlotOf(h) {
        var j :| 0 <= j < |chain| && chain[j] == m[s];
        assert chain'[j] == m[s];
      }
    }
  }

  lemma Added(list: seq<seq<Handle>>, m: map<Slot, Handle>, b: nat, h: Handle)
    requires Holds(list, m) && b < |list| && b == Bucket(h.hash, |list|) && SlotOf(h) !in m
    ensures var list' := list[b := list[b] + [h]];
            var m' := m[SlotOf(h) := h];
            Holds(list', m') && Count(list') == Count(list) + 1 && |m'| == |m| + 1 && |list'| == |list|
  {
    hide Bucket, Count;
    assert ChainOk(list[b], b, |list|, m);
    var chain, m' := list[b] + [h], m[SlotOf(h) := h];
    assert forall j | 0 <= j < |list[b]| :: list[b][j] in list[b];
    assert chain[|list[b]|] == h;
    OneBucketChanged(list, m, b, chain, m');
  }

  lemma Removed(list: seq<seq<Handle>>, m: map<Slot, Handle>, b: nat, pos: nat)
    requires Holds(list, m) && b < |list| && pos < |list[b]|
    ensures var list' := list[b := list[b][..pos] + list[b][pos + 1..]];
            var m' := m - {SlotOf(list[b][pos])};
            Holds(list', m') && Count(list') == Count(list) - 1 && |m'| == |m| - 1 && |list'| == |list|
  {
    hide Bucket, Count;
    assert ChainOk(list[b], b, |list|, m);
    var chain, h := list[b], list[b][pos];
    assert h in chain;
    var m' := m - {SlotOf(h)};
    assert m == m'[SlotOf(h) := h];
    RemovedChain(chain, b, |list|, m, pos);
    OneBucketChanged(list, m, b, chain[..pos] + chain[pos + 1..], m');
  }

  lemma RemovedChain(chain: seq<Handle>, b: nat, n: nat, m: map<Slot, Handle>, pos: nat)
    requires n > 0 && ChainOk(chain, b, n, m) && pos < |chain|
    ensures ChainOk(chain[..pos] + chain[pos + 1..], b, n, m - {SlotOf(chain[pos])})
  {
  }

  lemma Pushed(list: seq<seq<Handle>>, m: map<Slot, Handle>, b: nat, h: Handle)
    requires Holds(list, m) && b < |list| && b == Bucket(h.hash, |list|) && SlotOf(h) !in m
    ensures var list' := list[b := [h] + list[b]];
            var m' := m[SlotOf(h) := h];
            Holds(list', m') && Count(list') == Count(list) + 1 && |m'| == |m| + 1 && |list'| == |list|
  {
    hide Bucket, Count;
    assert ChainOk(list[b], b, |list|, m);
    var chain, m' := [h] + list[b], m[SlotOf(h) := h];
    assert forall j | 0 <= j < |list[b]| :: list[b][j] in list[b];
    assert chain[0] == h && chain[1..] == list[b];
    OneBucketChanged(list, m, b, chain, m');
  }

  ghost predicate SubMap(a: map<Slot, Handle>, b: map<Slot, Handle>) {
    forall s | s in a :: s in b && b[s] == a[s]
  }

  /** Moves the entries of one old chain, each to the front of its new chain. */
  method MoveChain(chain: seq<Handle>, ghost m: map<Slot, Handle>, list: seq<seq<Handle>>,
                   ghost moved: map<Slot, Handle>)
    returns (list': seq<seq<Handle>>, ghost moved': map<Slot, Handle>)
    requires Holds(list, moved) && SubMap(moved, m) && Count(list) == |moved|
    requires forall h | h in chain :: SlotOf(h) in m && m[SlotOf(h)] == h && SlotOf(h) !in moved
    requires NoDup(chain) && |list| > 0
    ensures Holds(list', moved') && SubMap(moved', m) && Count(list') == |moved'| && |list'| == |list|
    ensures forall s :: s in moved' <==> s in moved || Among(chain, s)
  {
    hide Holds, Bucket, Count, NoDup;
    list', moved' := list, moved;
    for j := 0 to |chain|
      invariant Holds(list', moved') && SubMap(moved', m) && Count(list') == |moved'| && |list'| == |list|
      invariant forall s :: s in moved' <==> s in moved || Among(chain[..j], s)
    {
      var h := chain[j];
      var b := Bucket(h.hash, |list'|);
      NextIsNew(chain, m, j);
      Pushed(list', moved', b, h);
      list' := list'[b := [h] + list'[b]];
      moved' := moved'[SlotOf(h) := h];
    }
    assert chain[..|chain|] == chain;
  }

  ghost predicate Among(chain: seq<Handle>, s: Slot) {
    exists h | h in chain :: SlotOf(h) == s
  }

  lemma NextIsNew(chain: seq<Handle>, m: map<Slot, Handle>, j: nat)
    requires j < |chain| && NoDup(chain)
    requires forall h | h in chain :: SlotOf(h) in m && m[SlotOf(h)] == h
    ensures chain[j] in chain && !Among(chain[..j], SlotOf(chain[j]))
    ensures forall s :: Among(chain[..j + 1], s) <==> Among(chain[..j], s) || s == SlotOf(chain[j])
  {
  }

  /** The loops of Resize. */
  method Rehash(list: seq<seq<Handle>>, ghost m: map<Slot, Handle>, newLength: nat) returns (newList: seq<seq<Handle>>)
    requires Holds(list, m) && Count(list) == |m| && newLength > 0
    ensures |newList| == newLength && Holds(newList, m) && Count(newList) == Count(list)
  {
    newList := seq(newLength, _ => []);
    CountEmpty(newList);
    ghost var moved: map<Slot, Handle> := map[];
    for i := 0 to |list|
      invariant |newList| == newLength && Holds(newList, moved) && SubMap(moved, m) && Count(newList) == |moved|
      invariant forall s | s in m :: s in moved <==> Bucket(s.hash, |list|) < i
    {
      hide Bucket, Count;
      assert ChainOk(list[i], i, |list|, m);
      newList, moved := MoveChain(list[i], m, newList, moved);
    }
    assert moved == m;
  }
}
