/** One shard of the block and table cache (leveldb/util/cache.cc). Handles are told apart by `id`;
    `deleted` records the calls to their deleters, and `held` the handles that clients have. */
module LRUCaches {
  import opened Options
  import opened HandleTables

  function Charge(s: seq<Handle>): nat {
    if s == [] then 0 else s[0].charge + Charge(s[1..])
  }

  lemma {:induction false} ChargeConcat(a: seq<Handle>, b: seq<Handle>)
    ensures Charge(a + b) == Charge(a) + Charge(b)
  {
    if a == [] {
      assert a + b == b;
    } else {
      ChargeConcat(a[1..], b);
      assert (a + b)[1..] == a[1..] + b;
    }
  }

  /** Unlinks an entry from a list. */
  function Without(s: seq<Handle>, h: Handle): seq<Handle> {
    if s == [] then [] else if s[0] == h then s[1..] else [s[0]] + Without(s[1..], h)
  }

  lemma {:induction false} WithoutRemoves(s: seq<Handle>, h: Handle)
    requires NoDup(s)
    ensures NoDup(Without(s, h)) && (forall x :: x in Without(s, h) <==> x in s && x != h)
    ensures Charge(Without(s, h)) + (if h in s then h.charge else 0) == Charge(s)
    ensures h !in s ==> Without(s, h) == s
  {
    if s != [] {
      WithoutRemoves(s[1..], h);
      assert forall x :: x in s <==> x == s[0] || x in s[1..];
      if s[0] != h {
        var w := Without(s[1..], h);
        assert ([s[0]] + w)[1..] == w;
        assert s[0] !in s[1..];
        NoDupCons(s[0], w);
      }
    }
  }

  lemma NoDupCons(h: Handle, s: seq<Handle>)
    requires NoDup(s) && h !in s
    ensures NoDup([h] + s) && NoDup(s + [h])
  {
  }

  // ----- the parts of the state -----

  /** An entry is counted once for the cache and once for each handle a client holds. */
  ghost predicate RefsOk(refs: map<Handle, nat>, inCache: set<Handle>, held: multiset<Handle>) {
    && (forall h :: h in refs <==> h in inCache || h in held)
    && (forall h | h in refs :: refs[h] == (if h in inCache then 1 else 0) + held[h])
  }

  /** Every cached entry is on one list: `inUse` when a client holds it, else `lru`. Usage is their total charge. */
  ghost predicate ListsOk(lru: seq<Handle>, inUse: seq<Handle>, inCache: set<Handle>, held: multiset<Handle>,
                          usage: nat) {
    && NoDup(lru) && NoDup(inUse)
    && (forall h :: h in lru <==> h in inCache && h !in held)
    && (forall h :: h in inUse <==> h in inCache && h in held)
    && usage == Charge(lru) + Charge(inUse)
  }

  /** Every entry made is either still referenced, or has had its deleter called, once. */
  ghost predicate LifeOk(refs: map<Handle, nat>, deleted: seq<Handle>, created: set<Handle>, nextId: nat) {
    && NoDup(deleted)
    && (forall h | h in deleted :: h !in refs)
    && (forall h :: h in created <==> h in refs || h in deleted)
    && (forall h | h in created :: h.id < nextId)
  }

  lemma TakeHandle(refs: map<Handle, nat>, lru: seq<Handle>, inUse: seq<Handle>, inCache: set<Handle>,
                   held: multiset<Handle>, usage: nat, e: Handle)
    requires RefsOk(refs, inCache, held) && ListsOk(lru, inUse, inCache, held, usage) && e in refs
    ensures RefsOk(refs[e := refs[e] + 1], inCache, held + multiset{e})
    ensures if refs[e] == 1 && e in inCache
            then ListsOk(Without(lru, e), inUse + [e], inCache, held + multiset{e}, usage)
            else ListsOk(lru, inUse, inCache, held + multiset{e}, usage)
  {
    hide NoDup;
    WithoutRemoves(lru, e);
    ChargeConcat(inUse, [e]);
    if refs[e] == 1 && e in inCache {
      NoDupCons(e, inUse);
    }
  }

  /** A client gives one handle back, of an entry that is not deleted by that. */
  lemma DropHandle(refs: map<Handle, nat>, lru: seq<Handle>, inUse: seq<Handle>, inCache: set<Handle>,
                   held: multiset<Handle>, usage: nat, e: Handle)
    requires RefsOk(refs, inCache, held) && ListsOk(lru, inUse, inCache, held, usage) && e in held && refs[e] > 1
    ensures RefsOk(refs[e := refs[e] - 1], inCache, held - multiset{e})
    ensures if refs[e] == 2 && e in inCache
            then ListsOk(lru + [e], Without(inUse, e), inCache, held - multiset{e}, usage)
            else ListsOk(lru, inUse, inCache, held - multiset{e}, usage)
  {
    hide NoDup;
    WithoutRemoves(inUse, e);
    ChargeConcat(lru, [e]);
    if refs[e] == 2 && e in inCache {
      NoDupCons(e, lru);
    }
  }

  /** The last handle of an entry that has left the cache. */
  lemma DropLast(refs: map<Handle, nat>, lru: seq<Handle>, inUse: seq<Handle>, inCache: set<Handle>,
                 held: multiset<Handle>, usage: nat, e: Handle)
    requires RefsOk(refs, inCache, held) && ListsOk(lru, inUse, inCache, held, usage) && e in held && refs[e] == 1
    ensures RefsOk(refs - {e}, inCache, held - multiset{e})
    ensures ListsOk(lru, inUse, inCache, held - multiset{e}, usage)
  {
    hide NoDup;
  }

  /** The cache lets go of an entry. */
  lemma LeaveCache(refs: map<Handle, nat>, lru: seq<Handle>, inUse: seq<Handle>, inCache: set<Handle>,
                   held: multiset<Handle>, usage: nat, e: Handle)
    requires RefsOk(refs, inCache, held) && ListsOk(lru, inUse, inCache, held, usage) && e in inCache
    ensures usage >= e.charge
    ensures ListsOk(Without(lru, e), Without(inUse, e), inCache - {e}, held, usage - e.charge)
    ensures RefsOk(if refs[e] == 1 then refs - {e} else refs[e := refs[e] - 1], inCache - {e}, held)
  {
    hide ListsOk;
    LeaveLists(lru, inUse, inCache, held, usage, e);
  }

  lemma LeaveLists(lru: seq<Handle>, inUse: seq<Handle>, inCache: set<Handle>, held: multiset<Handle>, usage: nat,
                   e: Handle)
    requires ListsOk(lru, inUse, inCache, held, usage) && e in inCache
    ensures usage >= e.charge
    ensures ListsOk(Without(lru, e), Without(inUse, e), inCache - {e}, held, usage - e.charge)
  {
    hide NoDup, Without, Charge;
    WithoutRemoves(lru, e);
    WithoutRemoves(inUse, e);
  }

  /** A new entry, put in the cache and handed to a client. */
  lemma EnterCache(refs: map<Handle, nat>, lru: seq<Handle>, inUse: seq<Handle>, inCache: set<Handle>,
                   held: multiset<Handle>, usage: nat, e: Handle)
    requires RefsOk(refs, inCache, held) && ListsOk(lru, inUse, inCache, held, usage) && e !in refs
    ensures ListsOk(lru, inUse + [e], inCache + {e}, held + multiset{e}, usage + e.charge)
    ensures RefsOk(refs[e := 2], inCache + {e}, held + multiset{e})
    ensures ListsOk(lru, inUse, inCache, held + multiset{e}, usage)
    ensures RefsOk(refs[e := 1], inCache, held + multiset{e})
  {
    hide NoDup;
    ChargeConcat(inUse, [e]);
    NoDupCons(e, inUse);
  }

  lemma Deleted(refs: map<Handle, nat>, deleted: seq<Handle>, created: set<Handle>, nextId: nat, e: Handle)
    requires LifeOk(refs, deleted, created, nextId) && e in refs
    ensures LifeOk(refs - {e}, deleted + [e], created, nextId)
  {
    hide NoDup;
    NoDupCons(e, deleted);
  }

  lemma Recounted(refs: map<Handle, nat>, deleted: seq<Handle>, created: set<Handle>, nextId: nat, e: Handle, n: nat)
    requires LifeOk(refs, deleted, created, nextId) && e in refs
    ensures LifeOk(refs[e := n], deleted, created, nextId)
  {
  }

  lemma Born(refs: map<Handle, nat>, deleted: seq<Handle>, created: set<Handle>, nextId: nat, e: Handle, n: nat)
    requires LifeOk(refs, deleted, created, nextId) && e.id == nextId
    ensures e !in refs && e !in created && LifeOk(refs[e := n], deleted, created + {e}, nextId + 1)
  {
    assert e !in created;
  }

  lemma HeldFacts(refs: map<Handle, nat>, inCache: set<Handle>, held: multiset<Handle>, e: Handle)
    requires RefsOk(refs, inCache, held) && (e in held || e in inCache)
    ensures e in refs && refs[e] > 0
    ensures refs[e] == 1 <==> (e !in inCache && held[e] == 1) || (e in inCache && e !in held)
    ensures refs[e] == 2 && e in inCache <==> held[e] == 1 && e in inCache
  {
  }

  /** An entry that a client holds is not on the list of unheld ones. */
  lemma OnLru(lru: seq<Handle>, inUse: seq<Handle>, inCache: set<Handle>, held: multiset<Handle>, usage: nat, e: Handle)
    requires ListsOk(lru, inUse, inCache, held, usage)
    ensures e in held ==> Without(lru, e) == lru
  {
    WithoutRemoves(lru, e);
  }

  lemma OldestFacts(lru: seq<Handle>, inUse: seq<Handle>, inCache: set<Handle>, held: multiset<Handle>, usage: nat)
    requires ListsOk(lru, inUse, inCache, held, usage) && lru != []
    ensures lru[0] in inCache && lru[0] !in held && Without(lru, lru[0]) == lru[1..]
  {
    assert lru[0] in lru;
  }

  /** The hash table maps to exactly these entries. */
  ghost predicate MapsTo(m: map<Slot, Handle>, entries: set<Handle>) {
    && (forall h | h in entries :: SlotOf(h) in m && m[SlotOf(h)] == h)
    && (forall s | s in m :: SlotOf(m[s]) == s && m[s] in entries)
  }

  lemma MapsWithout(m: map<Slot, Handle>, entries: set<Handle>, e: Handle)
    requires MapsTo(m, entries) && e in entries
    ensures SlotOf(e) in m && m[SlotOf(e)] == e && MapsTo(m - {SlotOf(e)}, entries - {e})
  {
  }

  lemma MapsSlot(m: map<Slot, Handle>, entries: set<Handle>, s: Slot)
    requires MapsTo(m, entries) && s in m
    ensures m[s] in entries && SlotOf(m[s]) == s
  {
  }

  lemma MapsInsert(m: map<Slot, Handle>, entries: set<Handle>, e: Handle)
    requires MapsTo(m, entries) && e !in entries
    ensures MapsTo(m[SlotOf(e) := e], if SlotOf(e) in m then entries + {e} - {m[SlotOf(e)]} else entries + {e})
  {
  }

  class LRUCache {
    var capacity: nat
    var usage: nat
    var lru: seq<Handle>        // oldest first
    var inUse: seq<Handle>
    const table: HandleTable
    var refs: map<Handle, nat>
    var inCache: set<Handle>
    var nextId: nat
    ghost var held: multiset<Handle>
    ghost var deleted: seq<Handle>
    ghost var created: set<Handle>

    ghost predicate Counted()
      reads this
    {
      && RefsOk(refs, inCache, held) && ListsOk(lru, inUse, inCache, held, usage)
      && LifeOk(refs, deleted, created, nextId)
    }

    ghost predicate Valid()
      reads this, table
    {
      Counted() && table.Valid() && MapsTo(table.m, inCache)
    }

    constructor (capacity: nat)
      ensures Valid() && fresh(table) && this.capacity == capacity
      ensures inCache == {} && held == multiset{} && deleted == [] && created == {} && lru == []
    {
      this.capacity := capacity;
      usage, lru, inUse, refs, inCache, nextId := 0, [], [], map[], {}, 0;
      held, deleted, created := multiset{}, [], {};
      table := new HandleTable();
    }

    /** Gives a client one more handle. */
    method Ref(e: Handle)
      requires Counted() && e in refs
      modifies this`refs, this`lru, this`inUse, this`held
      ensures Counted() && held == old(held) + multiset{e}
      ensures lru == if old(refs[e]) == 1 && e in inCache then Without(old(lru), e) else old(lru)
    {
      hide RefsOk, ListsOk, LifeOk, Without;
      TakeHandle(refs, lru, inUse, inCache, held, usage, e);
      Recounted(refs, deleted, created, nextId, e, refs[e] + 1);
      if refs[e] == 1 && e in inCache {
        lru := Without(lru, e);
        inUse := inUse + [e];
      }
      refs := refs[e := refs[e] + 1];
      held := held + multiset{e};
    }

    /** Takes one reference away; the last one calls the deleter. */
    method Unref(e: Handle)
      requires e in refs && refs[e] > 0 && (refs[e] == 1 ==> e !in inCache)
      modifies this`refs, this`lru, this`inUse, this`deleted
      ensures refs == if old(refs[e]) == 1 then old(refs) - {e} else old(refs)[e := old(refs[e]) - 1]
      ensures deleted == if old(refs[e]) == 1 then old(deleted) + [e] else old(deleted)
      ensures if old(refs[e]) == 2 && e in inCache then lru == old(lru) + [e] && inUse == Without(old(inUse), e)
              else lru == old(lru) && inUse == old(inUse)
    {
      hide Without;
      refs := refs[e := refs[e] - 1];
      if refs[e] == 0 {
        deleted := deleted + [e];
        refs := refs - {e};
      } else if e in inCache && refs[e] == 1 {
        inUse := Without(inUse, e);
        lru := lru + [e];
      }
    }

    /** Finishes removing an entry that is already gone from the hash table. */
    method FinishErase(e: Handle)
      requires Counted() && e in inCache
      modifies this`usage, this`inCache, this`refs, this`lru, this`inUse, this`deleted
      ensures Counted() && inCache == old(inCache) - {e} && usage == old(usage) - e.charge
      ensures lru == Without(old(lru), e)
      ensures deleted == if e in held then old(deleted) else old(deleted) + [e]
    {
      hide RefsOk, ListsOk, LifeOk, Without;
      HeldFacts(refs, inCache, held, e);
      LeaveCache(refs, lru, inUse, inCache, held, usage, e);
      if refs[e] == 1 {
        Deleted(refs, deleted, created, nextId, e);
      } else {
        Recounted(refs, deleted, created, nextId, e, refs[e] - 1);
      }
      lru, inUse := Without(lru, e), Without(inUse, e);
      inCache := inCache - {e};
      usage := usage - e.charge;
      Unref(e);
    }

    method Lookup(key: string, hash: nat) returns (r: Option<Handle>)
      requires Valid()
      modifies this`refs, this`lru, this`inUse, this`held
      ensures Valid()
      ensures r == if Slot(key, hash) in table.m then Some(table.m[Slot(key, hash)]) else None
      ensures held == if r.Some? then old(held) + multiset{r.value} else old(held)
      ensures lru == if r.Some? then Without(old(lru), r.value) else old(lru)
    {
      hide RefsOk, ListsOk, LifeOk, Without;
      r := table.Lookup(key, hash);
      if r.Some? {
        MapsSlot(table.m, inCache, Slot(key, hash));
        HeldFacts(refs, inCache, held, r.value);
        OnLru(lru, inUse, inCache, held, usage, r.value);
        Ref(r.value);
      }
    }

    method Release(e: Handle)
      requires Valid() && e in held
      modifies this`refs, this`lru, this`inUse, this`deleted, this`held
      ensures Valid() && held == old(held) - multiset{e}
      ensures deleted == if e in held || e in inCache then old(deleted) else old(deleted) + [e]
      ensures lru == if e in inCache && e !in held then old(lru) + [e] else old(lru)
    {
      hide RefsOk, ListsOk, LifeOk, Without, MapsTo;
      HeldFacts(refs, inCache, held, e);
      if refs[e] == 1 {
        DropLast(refs, lru, inUse, inCache, held, usage, e);
        Deleted(refs, deleted, created, nextId, e);
      } else {
        DropHandle(refs, lru, inUse, inCache, held, usage, e);
        Recounted(refs, deleted, created, nextId, e, refs[e] - 1);
      }
      Unref(e);
      held := held - multiset{e};
    }

    method Erase(key: string, hash: nat)
      requires Valid()
      modifies this`usage, this`inCache, this`refs, this`lru, this`inUse, this`deleted, table
      ensures Valid() && table.m == old(table.m) - {Slot(key, hash)}
      ensures inCache == old(inCache) - if Slot(key, hash) in old(table.m) then {old(table.m)[Slot(key, hash)]} else {}
      ensures lru == if Slot(key, hash) in old(table.m) then Without(old(lru), old(table.m)[Slot(key, hash)])
              else old(lru)
      ensures deleted == old(deleted) + Dropped(old(table.m), Slot(key, hash), held)
    {
      hide RefsOk, ListsOk, LifeOk, Without, MapsTo;
      var r := table.Remove(key, hash);
      if r.Some? {
        MapsSlot(old(table.m), inCache, Slot(key, hash));
        MapsWithout(old(table.m), inCache, r.value);
        FinishErase(r.value);
      } else {
        assert old(table.m) - {Slot(key, hash)} == old(table.m);
      }
    }

    /** Removes the oldest entry that no client holds. */
    method EvictOldest()
      requires Valid() && lru != []
      modifies this`usage, this`inCache, this`refs, this`lru, this`inUse, this`deleted, table
      ensures Valid() && lru == old(lru)[1..] && inCache == old(inCache) - {old(lru)[0]}
      ensures usage == old(usage) - old(lru)[0].charge
      ensures deleted == old(deleted) + [old(lru)[0]] && old(lru)[0] !in held
    {
      hide RefsOk, ListsOk, LifeOk, Without, MapsTo;
      var e := lru[0];
      OldestFacts(lru, inUse, inCache, held, usage);
      MapsWithout(table.m, inCache, e);
      var r := table.Remove(e.key, e.hash);
      FinishErase(r.value);
    }

    method Prune()
      requires Valid()
      modifies this`usage, this`inCache, this`refs, this`lru, this`inUse, this`deleted, table
      ensures Valid() && lru == [] && deleted == old(deleted) + old(lru)
      ensures inCache == old(inCache) - (set h | h in old(lru))
    {
      hide *;
      ghost var i := 0;
      while lru != []
        invariant Valid() && i <= |old(lru)| && lru == old(lru)[i..] && deleted == old(deleted) + old(lru)[..i]
        invariant inCache == old(inCache) - (set h | h in old(lru)[..i])
        decreases |lru|
      {
        EvictOldest();
        assert old(lru)[..i + 1] == old(lru)[..i] + [old(lru)[i]];
        i := i + 1;
      }
      assert old(lru)[..i] == old(lru);
    }

    /** Makes an entry, caches it unless the capacity is zero, and then evicts the oldest unheld entries for as long
        as the cache is over capacity. */
    method Insert(key: string, hash: nat, charge: nat) returns (e: Handle, ghost evicted: nat)
      requires Valid()
      modifies this`usage, this`inCache, this`refs, this`lru, this`inUse, this`deleted, this`held, this`created,
               this`nextId, table
      ensures Valid() && e.key == key && e.hash == hash && e.charge == charge
      ensures e !in old(created) && created == old(created) + {e} && held == old(held) + multiset{e}
      ensures usage <= capacity || lru == []
      ensures evicted <= |Unreplaced(old(lru), old(table.m), Slot(key, hash), capacity)|
      ensures lru == Unreplaced(old(lru), old(table.m), Slot(key, hash), capacity)[evicted..]
      ensures inCache == Replacing(old(inCache), old(table.m), capacity, e) -
                         (set h | h in Unreplaced(old(lru), old(table.m), Slot(key, hash), capacity)[..evicted])
      ensures deleted == old(deleted) + (if capacity > 0 then Dropped(old(table.m), Slot(key, hash), old(held)) else [])
                         + Unreplaced(old(lru), old(table.m), Slot(key, hash), capacity)[..evicted]
      ensures evicted > 0 ==>
                usage + Unreplaced(old(lru), old(table.m), Slot(key, hash), capacity)[evicted - 1].charge > capacity
    {
      hide *;
      e := NewEntry(key, hash, charge);
      ghost var base, gone := lru, deleted;
      evicted := 0;
      while usage > capacity && lru != []
        invariant Valid() && held == old(held) + multiset{e} && created == old(created) + {e}
        invariant evicted <= |base| && lru == base[evicted..] && deleted == gone + base[..evicted]
        invariant inCache == Replacing(old(inCache), old(table.m), capacity, e) - (set h | h in base[..evicted])
        invariant evicted > 0 ==> usage + base[evicted - 1].charge > capacity
        decreases |lru|
      {
        EvictOldest();
        assert base[..evicted + 1] == base[..evicted] + [base[evicted]];
        evicted := evicted + 1;
      }
    }

    method NewEntry(key: string, hash: nat, charge: nat) returns (e: Handle)
      requires Valid()
      modifies this`usage, this`inCache, this`refs, this`lru, this`inUse, this`deleted, this`held, this`created,
               this`nextId, table
      ensures Valid() && e.key == key && e.hash == hash && e.charge == charge
      ensures e !in old(created) && created == old(created) + {e} && held == old(held) + multiset{e}
      ensures inCache == Replacing(old(inCache), old(table.m), capacity, e)
      ensures lru == Unreplaced(old(lru), old(table.m), Slot(key, hash), capacity)
      ensures deleted == old(deleted) + if capacity > 0 then Dropped(old(table.m), Slot(key, hash), old(held)) else []
    {
      hide RefsOk, ListsOk, LifeOk, Without, MapsTo;
      e := Handle(nextId, key, hash, charge);
      if capacity > 0 {
        Enter(e);
        MapsInsert(table.m, old(inCache), e);
        var previous := table.Insert(e);
        if previous.Some? {
          MapsSlot(old(table.m), old(inCache), SlotOf(e));
          FinishErase(previous.value);
        }
      } else {
        HandOut(e);
      }
    }

    /** Puts a new entry on the in-use list, with one reference for the cache and one for the client. */
    method Enter(e: Handle)
      requires Counted() && e.id == nextId
      modifies this`usage, this`inCache, this`refs, this`inUse, this`held, this`created, this`nextId
      ensures Counted() && e !in old(created) && created == old(created) + {e} && held == old(held) + multiset{e}
      ensures e !in old(inCache) && inCache == old(inCache) + {e}
    {
      hide RefsOk, ListsOk, LifeOk;
      nextId := nextId + 1;
      Born(refs, deleted, created, nextId - 1, e, 2);
      EnterCache(refs, lru, inUse, inCache, held, usage, e);
      NotCached(refs, inCache, held, e);
      created, held := created + {e}, held + multiset{e};
      refs := refs[e := 2];
      inCache := inCache + {e};
      inUse := inUse + [e];
      usage := usage + e.charge;
    }

    /** Caching is off: the entry belongs to the client alone. */
    method HandOut(e: Handle)
      requires Counted() && e.id == nextId
      modifies this`refs, this`held, this`created, this`nextId
      ensures Counted() && e !in old(created) && created == old(created) + {e} && held == old(held) + multiset{e}
    {
      hide RefsOk, ListsOk, LifeOk;
      nextId := nextId + 1;
      Born(refs, deleted, created, nextId - 1, e, 1);
      EnterCache(refs, lru, inUse, inCache, held, usage, e);
      created, held := created + {e}, held + multiset{e};
      refs := refs[e := 1];
    }

    /** What holds between any two calls. */
    lemma Promises()
      requires Valid()
      ensures forall h | h in inCache ::
                (h in lru && h !in inUse && refs[h] == 1) || (h in inUse && h !in lru && refs[h] >= 2)
      ensures forall h | h in lru || h in inUse :: h in inCache
      ensures usage == Charge(lru + inUse) && NoDup(lru + inUse)
      ensures NoDup(deleted) && forall h | h in held || h in inCache :: h !in deleted
      ensures forall h | h in created :: h in deleted || h in held || h in inCache
    {
      ChargeConcat(lru, inUse);
      assert forall i | 0 <= i < |lru| :: lru[i] in lru;
      assert forall i | 0 <= i < |inUse| :: inUse[i] in inUse;
    }

    method DropCached(e: Handle)
      requires e in refs && refs[e] == 1 && LifeOk(refs, deleted, created, nextId)
      modifies this`inCache, this`refs, this`deleted, this`lru, this`inUse
      ensures LifeOk(refs, deleted, created, nextId) && refs == old(refs) - {e} && inCache == old(inCache) - {e}
    {
      hide LifeOk;
      Deleted(refs, deleted, created, nextId, e);
      inCache := inCache - {e};
      Unref(e);
    }

    /** The destructor, which requires that no cached entry is held: every entry ever made has then been deleted,
        except those that clients still hold outside the cache. */
    method Destroy()
      requires Counted() && inUse == []
      modifies this`inCache, this`refs, this`deleted, this`lru, this`inUse
      ensures NoDup(deleted) && forall h :: h in created <==> h in deleted || h in held
    {
      Unheld(refs, lru, inUse, inCache, held, usage);
      hide RefsOk, ListsOk, LifeOk, NoDup, MapsTo;
      var rest := lru;
      while rest != []
        invariant RefsOk(refs, inCache, held) && LifeOk(refs, deleted, created, nextId)
        invariant NoDup(rest) && forall h :: h in inCache <==> h in rest
        invariant forall h | h in rest :: h !in held
        decreases |rest|
      {
        LetGo(refs, inCache, held, rest);
        DropCached(rest[0]);
        rest := rest[1..];
      }
      AllGone(refs, inCache, held, deleted, created, nextId);
    }
  }

  lemma Unheld(refs: map<Handle, nat>, lru: seq<Handle>, inUse: seq<Handle>, inCache: set<Handle>,
               held: multiset<Handle>, usage: nat)
    requires RefsOk(refs, inCache, held) && ListsOk(lru, inUse, inCache, held, usage) && inUse == []
    ensures NoDup(lru) && (forall h :: h in inCache <==> h in lru) && forall h | h in lru :: h !in held
  {
    assert forall h :: h in inUse <==> h in inCache && h in held;
  }

  lemma AllGone(refs: map<Handle, nat>, inCache: set<Handle>, held: multiset<Handle>, deleted: seq<Handle>,
                created: set<Handle>, nextId: nat)
    requires RefsOk(refs, inCache, held) && LifeOk(refs, deleted, created, nextId)
    requires forall h :: h !in inCache
    ensures NoDup(deleted) && forall h :: h in created <==> h in deleted || h in held
  {
    hide NoDup;
  }

  lemma LetGo(refs: map<Handle, nat>, inCache: set<Handle>, held: multiset<Handle>, rest: seq<Handle>)
    requires RefsOk(refs, inCache, held) && NoDup(rest) && rest != []
    requires (forall h :: h in inCache <==> h in rest) && forall h | h in rest :: h !in held
    ensures rest[0] in refs && refs[rest[0]] == 1 && RefsOk(refs - {rest[0]}, inCache - {rest[0]}, held)
    ensures NoDup(rest[1..]) && forall h :: h in inCache - {rest[0]} <==> h in rest[1..]
  {
    assert rest[0] in rest;
    assert forall h :: h in rest <==> h == rest[0] || h in rest[1..];
  }

  lemma NotCached(refs: map<Handle, nat>, inCache: set<Handle>, held: multiset<Handle>, e: Handle)
    requires RefsOk(refs, inCache, held) && e !in refs
    ensures e !in inCache
  {
  }

  /** The cached entries once a new one has taken the place of the one with its key, if there is one. */
  ghost function Replacing(cached: set<Handle>, m: map<Slot, Handle>, capacity: nat, e: Handle): set<Handle> {
    if capacity == 0 then cached
    else if SlotOf(e) in m then cached + {e} - {m[SlotOf(e)]}
    else cached + {e}
  }

  /** The entry of a slot is deleted when it leaves the cache, unless a client holds it. */
  ghost function Dropped(m: map<Slot, Handle>, s: Slot, held: multiset<Handle>): seq<Handle> {
    if s in m && m[s] !in held then [m[s]] else []
  }

  /** The list of unheld entries once the entry replaced by a new one is gone. */
  function Unreplaced(lru: seq<Handle>, m: map<Slot, Handle>, s: Slot, capacity: nat): seq<Handle> {
    if capacity > 0 && s in m then Without(lru, m[s]) else lru
  }
}
