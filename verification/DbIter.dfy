/** The user-level iterator (leveldb/db/db_iter.cc).

    The internal iterator is a position in the sorted sequence of all internal
    entries; one position past the end stands for "not valid". */
module DbIterator {
  import opened Options
  import opened InternalKeys
  import opened Reads
  import opened Versions

  // ----- what the iterator is a cursor over -----

  predicate Visible(e: Entry, snapshot: SeqNo) {
    e.key.seqno <= snapshot
  }

  /** Entry i is the newest visible one of its user key, and it is a value. */
  ghost predicate Live(es: seq<Entry>, snapshot: SeqNo, i: int) {
    && 0 <= i < |es| && Visible(es[i], snapshot) && es[i].key.kind.Value?
    && forall j :: 0 <= j < i && es[j].key.user == es[i].key.user ==> !Visible(es[j], snapshot)
  }

  /** The first live entry at or after a position; past the end if there is none. */
  ghost function FirstLive(es: seq<Entry>, snapshot: SeqNo, from: nat): (r: nat)
    ensures r < |es| ==> r >= from && Live(es, snapshot, r)
    ensures r == |es| || r < |es|
    ensures forall i :: from <= i < r ==> !Live(es, snapshot, i)
    decreases |es| - from
  {
    if from >= |es| then |es| else if Live(es, snapshot, from) then from else FirstLive(es, snapshot, from + 1)
  }

  /** The last live entry before a position; past the end if there is none. */
  ghost function LastLive(es: seq<Entry>, snapshot: SeqNo, before: nat): (r: nat)
    requires before <= |es|
    ensures r < |es| ==> r < before && Live(es, snapshot, r) && forall i :: r < i < before ==> !Live(es, snapshot, i)
    ensures r >= |es| ==> r == |es| && forall i :: 0 <= i < before ==> !Live(es, snapshot, i)
  {
    if before == 0 then |es| else if Live(es, snapshot, before - 1) then before - 1
        else LastLive(es, snapshot, before - 1)
  }

  /** The last entry with a smaller user key among the first n; -1 if there is none. */
  ghost function LastBelow(es: seq<Entry>, user: UserKey, n: nat): (b: int)
    requires n <= |es|
    ensures -1 <= b < n && (b >= 0 ==> es[b].key.user < user)
    ensures forall j :: b < j < n ==> es[j].key.user >= user
  {
    if n == 0 then -1 else if es[n - 1].key.user < user then n - 1 else LastBelow(es, user, n - 1)
  }

  /** Where Seek must land: the first live entry whose user key is not below the target. */
  ghost predicate SeekTarget(es: seq<Entry>, snapshot: SeqNo, target: UserKey, r: nat) {
    && r <= |es| && (r < |es| ==> Live(es, snapshot, r) && es[r].key.user >= target)
    && forall i :: 0 <= i < r && Live(es, snapshot, i) ==> es[i].key.user < target
  }

  datatype Direction = Forward | Reverse

  class DBIter {
    const entries: seq<Entry>
    const sequence: SeqNo
    var pos: nat
    var direction: Direction
    var valid: bool
    var savedKey: UserKey
    var savedValue: string
    ghost var at: nat

    constructor (entries: seq<Entry>, sequence: SeqNo)
      requires StrictlySorted(entries)
      ensures this.entries == entries && this.sequence == sequence && Ok() && !valid
    {
      this.entries := entries;
      this.sequence := sequence;
      pos, at := |entries|, |entries|;
      direction, valid := Forward, false;
      savedKey, savedValue := 0, "";
    }

    /** Going forward the internal iterator is at the current entry.  Going backward it is
        further back, at an entry that can be seen, and everything between is too new to be seen. */
    ghost predicate Ok()
      reads this
    {
      && StrictlySorted(entries)
      && pos <= |entries| && at <= |entries|
      && (valid <==> at < |entries|)
      && (valid ==> Live(entries, sequence, at))
      && (valid && direction.Forward? ==> pos == at)
      && (valid && direction.Reverse? ==> savedKey == entries[at].key.user && savedValue == entries[at].value)
      && (valid && direction.Reverse? ==> Behind(Index(pos), at))
    }

    function Index(p: nat): int { if p < |entries| then p else -1 }

    ghost predicate Behind(p: int, c: nat)
      requires -1 <= p < |entries| && c < |entries|
    {
      && p < c && (p >= 0 ==> entries[p].key.user < entries[c].key.user && Visible(entries[p], sequence))
      && forall j :: p < j < c ==> !Visible(entries[j], sequence)
    }

    /** The place that the comment on the direction promises in reverse: just before all entries of the current key. */
    ghost predicate JustBefore()
      requires Ok() && valid
      reads this
    {
      Index(pos) == LastBelow(entries, entries[at].key.user, |entries|)
    }

    /** No entry of a smaller key is too new right before the current key. */
    ghost predicate NoneTooNewBefore()
      requires Ok() && valid
      reads this
    {
      var b := LastBelow(entries, entries[at].key.user, |entries|);
      b == -1 || Visible(entries[b], sequence)
    }

    /** In reverse the internal iterator is where its comment says exactly when the entry there can be seen. */
    lemma ReverseStands()
      requires Ok() && valid && direction.Reverse?
      ensures JustBefore() <==> NoneTooNewBefore()
    {
      var b, p := LastBelow(entries, entries[at].key.user, |entries|), Index(pos);
      assert b < at;
      assert p <= b;
    }

    function Key(): UserKey
      requires Ok() && valid
      reads this
      ensures Key() == entries[at].key.user
    {
      if direction.Forward? then entries[pos].key.user else savedKey
    }

    function CurrentValue(): string
      requires Ok() && valid
      reads this
      ensures CurrentValue() == entries[at].value
    {
      if direction.Forward? then entries[pos].value else savedValue
    }

    /** Hiding is exactly right for the entries not yet scanned. */
    ghost predicate HidesRight(p: nat, from: nat, skipping: bool, skip: UserKey) {
      && (forall j, m ::
            && 0 <= j < p <= m < |entries| && Visible(entries[j], sequence)
            && entries[j].key.user == entries[m].key.user ==>
              skipping && entries[m].key.user <= skip)
      && (skipping ==> forall m :: p <= m < |entries| && entries[m].key.user <= skip ==>
                         m < from || !Live(entries, sequence, m))
      && (forall m :: p <= m < from && m < |entries| && Visible(entries[m], sequence)
            ==> m == from - 1 && Live(entries, sequence, m) && skipping && entries[m].key.user <= skip)
    }

    /** A deletion marker hides the rest of its key. */
    lemma MarkerHides(p: nat, from: nat, skipping: bool, skip: UserKey)
      requires StrictlySorted(entries) && p < |entries| && HidesRight(p, from, skipping, skip)
      requires Visible(entries[p], sequence) && entries[p].key.kind.Deletion?
      ensures HidesRight(p + 1, from, true, entries[p].key.user) && !Live(entries, sequence, p)
    {
      assert p >= from;
      forall j, m | 0 <= j < p + 1 <= m < |entries| && Visible(entries[j], sequence)
          && entries[j].key.user == entries[m].key.user
        ensures entries[m].key.user <= entries[p].key.user
      {
        assert Less(entries[p].key, entries[m].key);
        if j < p { assert Less(entries[j].key, entries[p].key); }
      }
      forall m | p + 1 <= m < |entries| && entries[m].key.user <= entries[p].key.user
        ensures !Live(entries, sequence, m) {
        assert Less(entries[p].key, entries[m].key);
      }
    }

    /** An entry passed over, being too new or hidden, leaves the rest as it was. */
    lemma PassOver(p: nat, from: nat, skipping: bool, skip: UserKey)
      requires StrictlySorted(entries) && p < |entries| && HidesRight(p, from, skipping, skip)
      requires Visible(entries[p], sequence) ==> skipping && entries[p].key.user <= skip
      ensures HidesRight(p + 1, from, skipping, skip)
      ensures p >= from ==> !Live(entries, sequence, p)
    {
    }

    lemma YieldsLive(p: nat, from: nat, skipping: bool, skip: UserKey)
      requires StrictlySorted(entries) && p < |entries| && HidesRight(p, from, skipping, skip)
      requires Visible(entries[p], sequence) && entries[p].key.kind.Value? && !(skipping && entries[p].key.user <= skip)
      ensures p >= from && Live(entries, sequence, p)
    {
    }

    /** The body of the forward scan: yield the entry, or pass it and adjust the hiding. */
    method Examine(p: nat, skipping: bool, skip: UserKey, ghost from: nat)
      returns (hit: bool, skipping': bool, skip': UserKey)
      requires StrictlySorted(entries) && p < |entries| && HidesRight(p, from, skipping, skip)
      ensures hit ==> p >= from && Live(entries, sequence, p)
      ensures !hit ==> HidesRight(p + 1, from, skipping', skip') && (p >= from ==> !Live(entries, sequence, p))
    {
      hit, skipping', skip' := false, skipping, skip;
      var e := entries[p];
      if Visible(e, sequence) {
        if e.key.kind.Deletion? {
          MarkerHides(p, from, skipping, skip);
          skip', skipping' := e.key.user, true;
          return;
        } else if !(skipping && e.key.user <= skip) {
          YieldsLive(p, from, skipping, skip);
          hit := true;
          return;
        }
      }
      PassOver(p, from, skipping, skip);
    }

    method FindNextUserEntry(skipping0: bool, skip0: UserKey, ghost from: nat)
      requires StrictlySorted(entries) && pos < |entries| && direction.Forward?
      requires HidesRight(pos, from, skipping0, skip0)
      requires forall i :: from <= i < pos ==> !Live(entries, sequence, i)
      modifies this
      ensures direction.Forward? && Ok() && at == FirstLive(entries, sequence, from)
    {
      var skipping, skip, hit := skipping0, skip0, false;
      while pos < |entries|
        invariant pos <= |entries| && direction.Forward?
        invariant HidesRight(pos, from, skipping, skip)
        invariant forall i :: from <= i < pos ==> !Live(entries, sequence, i)
        decreases |entries| - pos
      {
        hit, skipping, skip := Examine(pos, skipping, skip, from);
        if hit {
          FirstLiveIs(entries, sequence, from, pos);
          valid, savedKey, at := true, 0, pos;
          return;
        }
        pos := pos + 1;
      }
      FirstLiveIs(entries, sequence, from, |entries|);
      savedKey, valid, at := 0, false, |entries|;
    }

    method Next()
      requires Ok() && valid
      modifies this
      ensures Ok() && at == FirstLive(entries, sequence, old(at) + 1)
    {
      ghost var from := at + 1;
      var skip;
      if direction.Reverse? {
        direction := Forward;
        skip := savedKey;
        pos := if pos == |entries| then 0 else pos + 1;
        TurnHides(pos, at);
      } else {
        skip := entries[pos].key.user;
        pos := pos + 1;
        StepHides(at);
        if pos == |entries| {
          FirstLiveIs(entries, sequence, from, |entries|);
          valid, savedKey, at := false, 0, |entries|;
          return;
        }
      }
      savedKey := skip;
      FindNextUserEntry(true, skip, from);
    }

    lemma StepHides(c: nat)
      requires StrictlySorted(entries) && Live(entries, sequence, c)
      ensures HidesRight(c + 1, c + 1, true, entries[c].key.user)
    {
      forall j, m | 0 <= j < c + 1 <= m < |entries| && entries[j].key.user == entries[m].key.user
        ensures entries[m].key.user <= entries[c].key.user
      {
        if j < c { assert Less(entries[j].key, entries[c].key); }
      }
      forall m | c + 1 <= m < |entries| && entries[m].key.user <= entries[c].key.user
        ensures !Live(entries, sequence, m) {
        assert Less(entries[c].key, entries[m].key);
      }
    }

    /** Turning round: between the internal position and the current entry nothing is visible. */
    lemma TurnHides(p: nat, c: nat)
      requires StrictlySorted(entries) && Live(entries, sequence, c) && p <= c && Behind(p - 1, c)
      ensures HidesRight(p, c + 1, true, entries[c].key.user)
    {
      forall j, m | 0 <= j < p <= m < |entries| && Visible(entries[j], sequence)
          && entries[j].key.user == entries[m].key.user
        ensures entries[m].key.user <= entries[c].key.user
      {
        assert j == p - 1 || Less(entries[j].key, entries[p - 1].key);
      }
      forall m | c + 1 <= m < |entries| && entries[m].key.user <= entries[c].key.user
        ensures !Live(entries, sequence, m) {
        assert Less(entries[c].key, entries[m].key);
      }
    }

    /** What the backward scan knows at position i: c is the entry visited last among the visible
        ones (past the end if none), `limit` the position the scan started below. */
    ghost predicate Backed(i: int, c: nat, limit: nat, isValue: bool)
      requires -1 <= i < |entries|
    {
      && i < limit <= |entries|
      && c <= |entries|
          && (c < |entries| ==> i < c < limit && Visible(entries[c], sequence) && entries[c].key.kind.Value? == isValue)
      && (c == |entries| ==> !isValue)
      && (forall j :: i < j < limit && (c == |entries| || j < c) ==> !Visible(entries[j], sequence))
      && (forall m :: i < m < limit && Live(entries, sequence, m) ==> isValue && m == c)
    }

    lemma BackedInvisible(i: int, c: nat, limit: nat, isValue: bool)
      requires 0 <= i < |entries| && Backed(i, c, limit, isValue) && !Visible(entries[i], sequence)
      ensures Backed(i - 1, c, limit, isValue)
    {
    }

    /** The next visible entry back replaces the candidate: it belongs to the same key, or the candidate was a
        deletion. */
    lemma BackedVisible(i: int, c: nat, limit: nat, isValue: bool)
      requires StrictlySorted(entries) && 0 <= i < |entries| && Backed(i, c, limit, isValue)
               && Visible(entries[i], sequence)
      requires isValue ==> entries[i].key.user >= entries[c].key.user
      ensures Backed(i - 1, i, limit, entries[i].key.kind.Value?)
    {
      if isValue { assert Less(entries[i].key, entries[c].key); }
    }

    /** When a visible entry of a smaller key comes up, or nothing is left, the candidate stands. */
    lemma BackedEnds(i: int, c: nat, limit: nat)
      requires StrictlySorted(entries) && -1 <= i < |entries| && Backed(i, c, limit, true)
      requires i >= 0 ==> entries[i].key.user < entries[c].key.user && Visible(entries[i], sequence)
      ensures Live(entries, sequence, c) && Behind(i, c) && c == LastLive(entries, sequence, limit)
    {
      forall j | 0 <= j < c && entries[j].key.user == entries[c].key.user ensures !Visible(entries[j], sequence) {
      }
      LastLiveIs(entries, sequence, limit, c);
    }

    method FindPrevUserEntry(ghost limit: nat)
      requires StrictlySorted(entries) && pos <= |entries| && direction.Reverse? && Index(pos) < limit <= |entries|
      requires forall m :: Index(pos) < m < limit ==> !Visible(entries[m], sequence)
      modifies this
      ensures Ok() && at == LastLive(entries, sequence, limit)
      ensures valid ==> direction.Reverse? && (JustBefore() <==> NoneTooNewBefore())
    {
      hide Less, Visible;
      var isValue := false;
      ghost var c: nat := |entries|;
      while pos < |entries|
        invariant pos <= |entries| && direction.Reverse?
        invariant Index(pos) < limit && Backed(Index(pos), c, limit, isValue)
        invariant isValue ==> savedKey == entries[c].key.user && savedValue == entries[c].value
        decreases Index(pos)
      {
        var e := entries[pos];
        if Visible(e, sequence) {
          if isValue && e.key.user < savedKey {
            break;
          }
          BackedVisible(pos, c, limit, isValue);
          isValue := e.key.kind.Value?;
          c := pos;
          if isValue {
            savedKey, savedValue := e.key.user, e.value;
          } else {
            savedKey, savedValue := 0, "";
          }
        } else {
          BackedInvisible(pos, c, limit, isValue);
        }
        pos := if pos == 0 then |entries| else pos - 1;
      }
      if isValue {
        BackedEnds(Index(pos), c, limit);
        valid, at := true, c;
        ReverseStands();
      } else {
        LastLiveIs(entries, sequence, limit, |entries|);
        valid, at := false, |entries|;
        savedKey, savedValue, direction := 0, "", Forward;
      }
    }

    method Prev()
      requires Ok() && valid
      modifies this
      ensures Ok() && at == LastLive(entries, sequence, old(at))
      ensures valid ==> direction.Reverse? && (JustBefore() <==> NoneTooNewBefore())
    {
      if direction.Forward? {
        savedKey := entries[pos].key.user;
        while true
          invariant pos < |entries| && pos <= at < |entries| && direction.Forward?
          invariant at == old(at) && valid && Live(entries, sequence, at) && StrictlySorted(entries)
          invariant savedKey == entries[at].key.user
          invariant forall j :: pos <= j < at ==> entries[j].key.user == savedKey
          decreases pos
        {
          if pos == 0 {
            LastLiveIs(entries, sequence, at, |entries|);
            pos := |entries|;
            valid, at := false, |entries|;
            savedKey, savedValue := 0, "";
            return;
          }
          pos := pos - 1;
          if entries[pos].key.user < savedKey {
            break;
          }
          assert pos == at || Less(entries[pos].key, entries[at].key);
        }
        direction := Reverse;
      }
      FindPrevUserEntry(at);
    }

    method SeekToLast()
      requires Ok()
      modifies this
      ensures Ok() && at == LastLive(entries, sequence, |entries|)
      ensures valid ==> direction.Reverse? && (JustBefore() <==> NoneTooNewBefore())
    {
      direction, savedValue := Reverse, "";
      pos := if |entries| == 0 then 0 else |entries| - 1;
      FindPrevUserEntry(|entries|);
    }

    method SeekToFirst()
      requires Ok()
      modifies this
      ensures Ok() && at == FirstLive(entries, sequence, 0)
    {
      direction, savedValue := Forward, "";
      pos := 0;
      if pos < |entries| {
        FindNextUserEntry(false, savedKey, 0);
      } else {
        valid, at := false, |entries|;
      }
    }

    method Seek(target: UserKey)
      requires Ok()
      modifies this
      ensures Ok() && SeekTarget(entries, sequence, target, at)
    {
      direction, savedValue := Forward, "";
      pos := SeekIndex(entries, LookupKey(target, sequence));
      SeekHides(target, pos);
      if pos < |entries| {
        ghost var from := pos;
        FindNextUserEntry(false, savedKey, from);
        SeekLands(target, from, at);
      } else {
        valid, at := false, |entries|;
      }
    }

    lemma SeekHides(target: UserKey, p: nat)
      requires StrictlySorted(entries) && p == SeekIndex(entries, LookupKey(target, sequence))
      ensures HidesRight(p, p, false, 0)
      ensures forall i :: 0 <= i < p && Live(entries, sequence, i) ==> entries[i].key.user < target
      ensures forall i :: p <= i < |entries| ==> entries[i].key.user >= target
    {
      forall m | p <= m < |entries| ensures entries[m].key.user >= target {
        assert m == p || Less(entries[p].key, entries[m].key);
      }
    }

    lemma SeekLands(target: UserKey, from: nat, r: nat)
      requires from == SeekIndex(entries, LookupKey(target, sequence)) && r == FirstLive(entries, sequence, from)
      requires StrictlySorted(entries) && from <= |entries|
      ensures SeekTarget(entries, sequence, target, r)
    {
      SeekHides(target, from);
    }
  }

  /** Key 1 written as number 5, key 2 as number 1, read at 1: after SeekToLast the iterator shows key 2, and the
      internal iterator has gone past the front instead of stopping at key 1. */
  method ReverseStandsFurther() returns (it: DBIter)
    ensures it.entries == [Entry(IKey(1, 5, Value), "a"), Entry(IKey(2, 1, Value), "b")] && it.sequence == 1
    ensures it.Ok() && it.valid && it.direction.Reverse? && it.Key() == 2
    ensures LastBelow(it.entries, 2, 2) == 0 && it.Index(it.pos) == -1 && !it.JustBefore()
  {
    it := new DBIter([Entry(IKey(1, 5, Value), "a"), Entry(IKey(2, 1, Value), "b")], 1);
    it.SeekToLast();
    assert Live(it.entries, 1, 1);
  }

  lemma {:induction false} FirstLiveIs(es: seq<Entry>, snapshot: SeqNo, from: nat, r: nat)
    requires forall i :: from <= i < r ==> !Live(es, snapshot, i)
    requires r == |es| || (r < |es| && r >= from && Live(es, snapshot, r))
    ensures FirstLive(es, snapshot, from) == r
    decreases |es| - from
  {
    if from < |es| && from != r { FirstLiveIs(es, snapshot, from + 1, r); }
  }

  lemma {:induction false} LastLiveIs(es: seq<Entry>, snapshot: SeqNo, before: nat, r: nat)
    requires before <= |es| && r <= |es|
    requires r < |es| ==> r < before && Live(es, snapshot, r) && forall i :: r < i < before ==> !Live(es, snapshot, i)
    requires r == |es| ==> forall i :: 0 <= i < before ==> !Live(es, snapshot, i)
    ensures LastLive(es, snapshot, before) == r
  {
    if before > 0 && r != before - 1 { LastLiveIs(es, snapshot, before - 1, r); }
  }

  // ----- the cursor ranges over the map the snapshot sees -----

  /** The live entries are exactly the user keys a read would find, with the values it would return. */
  lemma LiveIsRead(es: seq<Entry>, snapshot: SeqNo, user: UserKey, v: string)
    requires StrictlySorted(es)
    ensures (exists i :: Live(es, snapshot, i) && es[i].key.user == user && es[i].value == v)
       <==> Answers(Elements(es), user, snapshot, Some(v))
  {
    if i :| Live(es, snapshot, i) && es[i].key.user == user && es[i].value == v {
      forall x | x in Elements(es) && x.key.user == user && x.key.seqno <= snapshot
        ensures x.key.seqno <= es[i].key.seqno {
        var j :| 0 <= j < |es| && es[j] == x;
        assert j >= i;
        assert j == i || Less(es[i].key, es[j].key);
      }
      assert Top(Elements(es), user, snapshot, es[i]);
    }
    if Answers(Elements(es), user, snapshot, Some(v)) {
      var e :| Top(Elements(es), user, snapshot, e) && e.key.kind.Value? && e.value == v;
      var i :| 0 <= i < |es| && es[i] == e;
      forall j | 0 <= j < i && es[j].key.user == user ensures es[j].key.seqno > snapshot {
        assert Less(es[j].key, es[i].key);
        assert es[j] in Elements(es);
      }
      assert Live(es, snapshot, i);
    }
  }

  /** One entry per key, in key order. */
  lemma LiveAscends(es: seq<Entry>, snapshot: SeqNo, i: nat, j: nat)
    requires StrictlySorted(es) && i < j && Live(es, snapshot, i) && Live(es, snapshot, j)
    ensures es[i].key.user < es[j].key.user
  {
    assert Less(es[i].key, es[j].key);
  }

  /** Prev undoes Next. */
  lemma PrevUndoesNext(es: seq<Entry>, snapshot: SeqNo, i: nat)
    requires Live(es, snapshot, i) && FirstLive(es, snapshot, i + 1) < |es|
    ensures LastLive(es, snapshot, FirstLive(es, snapshot, i + 1)) == i
  {
    LastLiveIs(es, snapshot, FirstLive(es, snapshot, i + 1), i);
  }
}
