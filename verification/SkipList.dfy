/** The memtable's skip list, whose readers run during inserts (leveldb/db/skiplist.h).
    Keys are distinct, so a node is named by its key. Each atomic pointer store is one step. */
module SkipLists {

  const MAX_HEIGHT: nat := 12

  datatype Ptr = Nil | Head | Node(key: int)

  datatype Memory = Memory(next: map<(Ptr, nat), Ptr>, maxHeight: nat)

  // ----- what the pointers mean -----

  predicate After(p: Ptr, k: int) { p == Head || (p.Node? && p.key < k) }

  /** KeyIsAfterNode: null is considered infinite. */
  predicate KeyIsAfterNode(k: int, p: Ptr) { p.Node? && p.key < k }

  ghost predicate OnLevel(s: set<int>, p: Ptr) { p == Head || (p.Node? && p.key in s) }

  /** q is the first key of s after p, or null when there is none. */
  ghost predicate IsSucc(s: set<int>, p: Ptr, q: Ptr) {
    && q != Head
    && (q.Node? ==> q.key in s && After(p, q.key))
    && (forall k | k in s && After(p, k) :: q.Node? && q.key <= k)
  }

  ghost predicate LinkedAt(m: Memory, s: set<int>, l: nat) {
    forall p | OnLevel(s, p) :: (p, l) in m.next && IsSucc(s, p, m.next[(p, l)])
  }

  /** s[l] is the set of keys linked at level l: every level is a sorted list of its keys,
      and a sublist of the level below. */
  ghost predicate Linked(m: Memory, s: seq<set<int>>) {
    && |s| == MAX_HEIGHT && 1 <= m.maxHeight <= MAX_HEIGHT
    && (forall l | 0 <= l < MAX_HEIGHT :: LinkedAt(m, s[l], l))
    && (forall l | 0 < l < MAX_HEIGHT :: s[l] <= s[l - 1])
    && (forall l | m.maxHeight <= l < MAX_HEIGHT :: s[l] == {})
  }

  /** r is the first key at or after `target`, or null. */
  ghost predicate IsCeiling(s: set<int>, target: int, r: Ptr) {
    && r != Head
    && (r.Node? ==> r.key in s && target <= r.key)
    && (forall k | k in s && target <= k :: r.Node? && r.key <= k)
  }

  /** r is the last key before `target`, or the head. */
  ghost predicate IsFloor(s: set<int>, target: int, r: Ptr) {
    && OnLevel(s, r) && After(r, target)
    && (forall k | k in s && k < target :: r.Node? && k <= r.key)
  }

  ghost predicate IsLast(s: set<int>, r: Ptr) {
    OnLevel(s, r) && (forall k | k in s :: r.Node? && k <= r.key)
  }

  // ----- the writer's atomic steps -----

  datatype Store =
    | Raise(height: nat)            // the early store to max_height_
    | Prepare(x: int, l: nat, q: Ptr)  // a new node's own pointer
    | Publish(p: Ptr, l: nat, x: int)  // the pointer that makes the node reachable at level l

  function Apply(m: Memory, st: Store): Memory {
    match st
    case Raise(h) => m.(maxHeight := h)
    case Prepare(x, l, q) => m.(next := m.next[(Node(x), l) := q])
    case Publish(p, l, x) => m.(next := m.next[(p, l) := Node(x)])
  }

  ghost function Grown(s: seq<set<int>>, st: Store): seq<set<int>> {
    if st.Publish? && st.l < |s| then s[st.l := s[st.l] + {st.x}] else s
  }

  /** When Insert makes a store. */
  ghost predicate Allowed(m: Memory, s: seq<set<int>>, st: Store)
    requires |s| == MAX_HEIGHT
  {
    match st
    case Raise(h) => m.maxHeight < h <= MAX_HEIGHT
    case Prepare(x, l, q) => l < MAX_HEIGHT && x !in s[l]
    case Publish(p, l, x) =>
      && l < m.maxHeight && l < MAX_HEIGHT && x !in s[l] && (l > 0 ==> x in s[l - 1])
      && OnLevel(s[l], p) && After(p, x)
      && (p, l) in m.next && !KeyIsAfterNode(x, m.next[(p, l)])
      && (Node(x), l) in m.next && m.next[(Node(x), l)] == m.next[(p, l)]
  }

  /** Every level stays a sorted sublist of the level below, at every single store. */
  lemma StoreKeepsLinked(m: Memory, s: seq<set<int>>, st: Store)
    requires Linked(m, s) && Allowed(m, s, st)
    ensures Linked(Apply(m, st), Grown(s, st))
  {
    var m', s' := Apply(m, st), Grown(s, st);
    forall l | 0 <= l < MAX_HEIGHT ensures LinkedAt(m', s'[l], l) {
      assert LinkedAt(m, s[l], l);
    }
  }

  // ----- a search interleaved with any inserts -----

  datatype Query = AtLeast(target: int) | Below(target: int) | Greatest

  /** Whether the search moves along its level to the node it has just loaded. */
  predicate Moves(q: Query, next: Ptr) {
    match q
    case AtLeast(target) => KeyIsAfterNode(target, next)
    case Below(target) => KeyIsAfterNode(target, next)
    case Greatest => next != Nil
  }

  datatype Search = Searching(x: Ptr, level: nat) | Returned(r: Ptr)

  /** One load of a next pointer, and what the search does with it. */
  function Load(q: Query, sr: Search, next: Ptr): Search
    requires sr.Searching?
  {
    if Moves(q, next) then Searching(next, sr.level)
    else if sr.level > 0 then Searching(sr.x, sr.level - 1)
    else Returned(if q.AtLeast? then next else sr.x)
  }

  datatype World = World(m: Memory, s: seq<set<int>>, search: Search)

  ghost predicate WriterStep(w: World, w': World) {
    && |w.s| == MAX_HEIGHT && w'.search == w.search
    && exists st :: Allowed(w.m, w.s, st) && w'.m == Apply(w.m, st) && w'.s == Grown(w.s, st)
  }

  ghost predicate ReaderStep(q: Query, w: World, w': World) {
    && w'.m == w.m && w'.s == w.s
    && w.search.Searching? && (w.search.x, w.search.level) in w.m.next
    && w'.search == Load(q, w.search, w.m.next[(w.search.x, w.search.level)])
  }

  ghost predicate IsRun(q: Query, ws: seq<World>) {
    forall i | 0 < i < |ws| :: WriterStep(ws[i - 1], ws[i]) || ReaderStep(q, ws[i - 1], ws[i])
  }

  /** The search starts at the head, on some level that max_height_ has had; the value it read may be stale. */
  ghost predicate Starts(w: World) {
    Linked(w.m, w.s) && w.search.Searching? && w.search.x == Head && w.search.level < w.m.maxHeight
  }

  ghost predicate Passable(q: Query, x: Ptr) {
    q.Greatest? || After(x, q.target)
  }

  ghost predicate InStep(q: Query, w: World) {
    && Linked(w.m, w.s)
    && (w.search.Searching? ==>
          w.search.level < MAX_HEIGHT && OnLevel(w.s[w.search.level], w.search.x) && Passable(q, w.search.x))
  }

  /** The answer to the query when the list holds exactly the keys s. */
  ghost predicate Answers(q: Query, s: set<int>, r: Ptr) {
    match q
    case AtLeast(target) => IsCeiling(s, target, r)
    case Below(target) => IsFloor(s, target, r)
    case Greatest => IsLast(s, r)
  }

  lemma WriterStepKeeps(q: Query, w: World, w': World)
    requires InStep(q, w) && WriterStep(w, w')
    ensures InStep(q, w') && w.s[0] <= w'.s[0]
  {
    var st :| Allowed(w.m, w.s, st) && w'.m == Apply(w.m, st) && w'.s == Grown(w.s, st);
    StoreKeepsLinked(w.m, w.s, st);
  }

  lemma ReaderStepKeeps(q: Query, w: World, w': World)
    requires InStep(q, w) && ReaderStep(q, w, w')
    ensures InStep(q, w')
    ensures w'.search.Returned? ==> Answers(q, w.s[0], w'.search.r)
  {
    assert LinkedAt(w.m, w.s[w.search.level], w.search.level);
  }

  lemma {:induction false} RunKeeps(q: Query, ws: seq<World>)
    requires |ws| > 0 && IsRun(q, ws) && Starts(ws[0])
    ensures InStep(q, ws[|ws| - 1]) && ws[0].s[0] <= ws[|ws| - 1].s[0]
  {
    if |ws| > 1 {
      var n := |ws| - 1;
      RunKeeps(q, ws[..n]);
      if WriterStep(ws[n - 1], ws[n]) {
        WriterStepKeeps(q, ws[n - 1], ws[n]);
      } else {
        ReaderStepKeeps(q, ws[n - 1], ws[n]);
      }
    }
  }

  /** However its loads interleave with the stores of any inserts, a search returns the exact answer for the
      keys linked at level 0 when it makes its last load, and these include every key present when it began. */
  lemma SearchIsExact(q: Query, ws: seq<World>)
    requires |ws| > 1 && IsRun(q, ws) && Starts(ws[0])
    requires ws[|ws| - 2].search.Searching? && ws[|ws| - 1].search.Returned?
    ensures Linked(ws[|ws| - 1].m, ws[|ws| - 1].s)
    ensures Answers(q, ws[|ws| - 1].s[0], ws[|ws| - 1].search.r)
    ensures ws[0].s[0] <= ws[|ws| - 1].s[0]
  {
    var n := |ws| - 1;
    RunKeeps(q, ws[..n]);
    ReaderStepKeeps(q, ws[n - 1], ws[n]);
  }

  /** Left alone, a search makes its loads to the end: from wherever it stands, there is such a run. */
  lemma {:induction false} SearchEnds(q: Query, w: World) returns (ws: seq<World>)
    requires InStep(q, w) && w.search.Searching?
    ensures |ws| > 1 && ws[0] == w && IsRun(q, ws)
    ensures ws[|ws| - 2].search.Searching? && ws[|ws| - 1].search.Returned?
    decreases w.search.level, set k | k in w.s[w.search.level] && After(w.search.x, k)
  {
    var x, l := w.search.x, w.search.level;
    assert LinkedAt(w.m, w.s[l], l);
    var next := w.m.next[(x, l)];
    var w' := w.(search := Load(q, w.search, next));
    ReaderStepKeeps(q, w, w');
    if w'.search.Returned? {
      ws := [w, w'];
    } else {
      if Moves(q, next) { Shrinks(w.s[l], x, next); }
      var rest := SearchEnds(q, w');
      ws := [w] + rest;
    }
  }

  /** So no key present when the search began is skipped. */
  lemma NothingSkipped(target: int, ws: seq<World>, k: int)
    requires |ws| > 1 && IsRun(AtLeast(target), ws) && Starts(ws[0])
    requires ws[|ws| - 2].search.Searching? && ws[|ws| - 1].search.Returned?
    requires k in ws[0].s[0] && target <= k
    ensures var r := ws[|ws| - 1].search.r; r.Node? && target <= r.key <= k
  {
    SearchIsExact(AtLeast(target), ws);
  }

  // ----- the list itself -----

  class SkipList {
    var m: Memory
    ghost var s: seq<set<int>>

    ghost predicate Valid()
      reads this
    {
      Linked(m, s)
    }

    constructor ()
      ensures Valid() && s[0] == {}
    {
      var next: map<(Ptr, nat), Ptr> := map[];
      for i := 0 to MAX_HEIGHT
        invariant forall l | 0 <= l < i :: (Head, l) in next && next[(Head, l)] == Nil
      {
        next := next[(Head, i) := Nil];
      }
      m := Memory(next, 1);
      s := seq(MAX_HEIGHT, _ => {});
    }

    /** Stores into `prev` the last node before the key at each level in use. */
    method FindGreaterOrEqual(key: int, prev: array<Ptr>) returns (r: Ptr)
      requires Valid() && prev.Length == MAX_HEIGHT
      modifies prev
      ensures IsCeiling(s[0], key, r)
      ensures forall l | 0 <= l < m.maxHeight :: IsFloor(s[l], key, prev[l])
    {
      var x, level := Head, m.maxHeight - 1;
      while true
        invariant 0 <= level < m.maxHeight
        invariant OnLevel(s[level], x) && After(x, key)
        invariant forall l | level < l < m.maxHeight :: IsFloor(s[l], key, prev[l])
        decreases level, set k | k in s[level] && After(x, k)
      {
        assert LinkedAt(m, s[level], level);
        var next := m.next[(x, level)];
        if KeyIsAfterNode(key, next) {
          Shrinks(s[level], x, next);
          x := next;
        } else {
          prev[level] := x;
          if level == 0 {
            return next;
          } else {
            level := level - 1;
          }
        }
      }
    }

    method FindLessThan(key: int) returns (x: Ptr)
      requires Valid()
      ensures IsFloor(s[0], key, x)
    {
      var level := m.maxHeight - 1;
      x := Head;
      while true
        invariant 0 <= level < m.maxHeight
        invariant OnLevel(s[level], x) && After(x, key)
        decreases level, set k | k in s[level] && After(x, k)
      {
        assert LinkedAt(m, s[level], level);
        var next := m.next[(x, level)];
        if next == Nil || next.key >= key {
          if level == 0 {
            return x;
          } else {
            level := level - 1;
          }
        } else {
          Shrinks(s[level], x, next);
          x := next;
        }
      }
    }

    method FindLast() returns (x: Ptr)
      requires Valid()
      ensures IsLast(s[0], x)
    {
      var level := m.maxHeight - 1;
      x := Head;
      while true
        invariant 0 <= level < m.maxHeight
        invariant OnLevel(s[level], x)
        decreases level, set k | k in s[level] && After(x, k)
      {
        assert LinkedAt(m, s[level], level);
        var next := m.next[(x, level)];
        if next == Nil {
          if level == 0 {
            return x;
          } else {
            level := level - 1;
          }
        } else {
          Shrinks(s[level], x, next);
          x := next;
        }
      }
    }

    method Contains(key: int) returns (found: bool)
      requires Valid()
      ensures found <==> key in s[0]
    {
      var prev := new Ptr[MAX_HEIGHT];
      var x := FindGreaterOrEqual(key, prev);
      found := x != Nil && x.key == key;
    }

    /** Links a key at its first `height` levels. `trace` lists the states between its stores. */
    method Insert(key: int, height: nat) returns (ghost trace: seq<World>)
      requires Valid() && key !in s[0] && 1 <= height <= MAX_HEIGHT
      modifies this
      ensures Valid()
      ensures forall l | 0 <= l < MAX_HEIGHT :: s[l] == old(s[l]) + if l < height then {key} else {}
      ensures |trace| > 0 && trace[0] == World(old(m), old(s), Returned(Nil))
      ensures trace[|trace| - 1] == World(m, s, Returned(Nil))
      ensures forall i | 0 < i < |trace| :: WriterStep(trace[i - 1], trace[i])
    {
      hide WriterStep, LinkedAt;
      trace := [World(m, s, Returned(Nil))];
      var prev := new Ptr[MAX_HEIGHT];
      var x := FindGreaterOrEqual(key, prev);
      if height > m.maxHeight {
        for i := m.maxHeight to height
          modifies prev
          invariant forall l | 0 <= l < i :: IsFloor(s[l], key, prev[l])
        {
          prev[i] := Head;
        }
        trace := Make(Raise(height), trace);
      }
      for i := 0 to height
        invariant Valid() && height <= m.maxHeight
        invariant forall l | 0 <= l < MAX_HEIGHT :: s[l] == old(s[l]) + if l < i then {key} else {}
        invariant forall l | 0 <= l < height :: IsFloor(old(s[l]), key, prev[l])
        invariant |trace| > 0 && trace[0] == World(old(m), old(s), Returned(Nil))
        invariant trace[|trace| - 1] == World(m, s, Returned(Nil))
        invariant forall j | 0 < j < |trace| :: WriterStep(trace[j - 1], trace[j])
        modifies this
      {
        Nested(old(m), old(s), i);
        trace := LinkAt(key, i, prev[i], trace);
      }
    }

    /** Links the key's node after p at level i. */
    method LinkAt(key: int, i: nat, p: Ptr, ghost trace: seq<World>) returns (ghost longer: seq<World>)
      requires Valid() && i < m.maxHeight && key !in s[i] && (i > 0 ==> key in s[i - 1])
      requires IsFloor(s[i], key, p)
      requires |trace| > 0 && trace[|trace| - 1] == World(m, s, Returned(Nil))
      modifies this
      ensures Valid() && m.maxHeight == old(m.maxHeight)
      ensures s == old(s)[i := old(s)[i] + {key}]
      ensures trace <= longer && |longer| > |trace| && longer[|longer| - 1] == World(m, s, Returned(Nil))
      ensures forall j | |trace| <= j < |longer| :: WriterStep(longer[j - 1], longer[j])
    {
      assert LinkedAt(m, s[i], i) && OnLevel(s[i], p);
      longer := Make(Prepare(key, i, m.next[(p, i)]), trace);
      longer := Make(Publish(p, i, key), longer);
    }

    /** One atomic store. */
    method Make(st: Store, ghost trace: seq<World>) returns (ghost longer: seq<World>)
      requires Valid() && Allowed(m, s, st)
      requires |trace| > 0 && trace[|trace| - 1] == World(m, s, Returned(Nil))
      modifies this
      ensures Valid() && m == Apply(old(m), st) && s == Grown(old(s), st)
      ensures longer == trace + [World(m, s, Returned(Nil))]
      ensures WriterStep(trace[|trace| - 1], World(m, s, Returned(Nil)))
    {
      StoreKeepsLinked(m, s, st);
      m := Apply(m, st);
      s := Grown(s, st);
      longer := trace + [World(m, s, Returned(Nil))];
    }
  }

  lemma {:induction false} Nested(m: Memory, s: seq<set<int>>, l: nat)
    requires Linked(m, s) && l < MAX_HEIGHT
    ensures s[l] <= s[0]
  {
    if l > 0 {
      Nested(m, s, l - 1);
    }
  }

  /** Moving along a level leaves fewer keys ahead. */
  lemma Shrinks(s: set<int>, x: Ptr, next: Ptr)
    requires next.Node? && next.key in s && After(x, next.key)
    ensures (set k | k in s && After(next, k)) < (set k | k in s && After(x, k))
  {
    assert next.key in (set k | k in s && After(x, k)) - (set k | k in s && After(next, k));
  }

  // ----- reading along a level -----

  ghost predicate Sorted(keys: seq<int>) {
    forall i, j | 0 <= i < j < |keys| :: keys[i] < keys[j]
  }

  /** Following the pointers of level l from p visits `keys` in order and then ends. */
  ghost predicate Visits(m: Memory, l: nat, p: Ptr, keys: seq<int>)
    decreases |keys|
  {
    && (p, l) in m.next
    && if keys == [] then m.next[(p, l)] == Nil
       else m.next[(p, l)] == Node(keys[0]) && Visits(m, l, Node(keys[0]), keys[1..])
  }

  lemma {:induction false} LevelVisits(m: Memory, s: set<int>, l: nat, p: Ptr) returns (keys: seq<int>)
    requires LinkedAt(m, s, l) && OnLevel(s, p)
    ensures Visits(m, l, p, keys) && Sorted(keys)
    ensures forall k :: k in keys <==> k in s && After(p, k)
    decreases set k | k in s && After(p, k)
  {
    var q := m.next[(p, l)];
    if q == Nil {
      keys := [];
    } else {
      Shrinks(s, p, q);
      var rest := LevelVisits(m, s, l, q);
      keys := [q.key] + rest;
      assert keys[1..] == rest;
    }
  }
}
