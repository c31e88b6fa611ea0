/** Internal keys and entries (leveldb/db/dbformat.h).

    LevelDB asks of a user comparator only that it is a total order.  A user
    key is represented here by its rank in that order: any finite set of keys
    of a total order can be numbered so that the numbers compare as the keys
    do, and every statement of this project speaks of finitely many keys at a
    time.
 */
module InternalKeys {

  type UserKey = int

  const MAX_SEQUENCE: nat := 0xFF_FFFF_FFFF_FFFF

  type SeqNo = n: nat | n <= MAX_SEQUENCE

  datatype Kind = Deletion | Value

  datatype IKey = IKey(user: UserKey, seqno: SeqNo, kind: Kind)

  datatype Entry = Entry(key: IKey, value: string)

  /** The 64-bit tag: sequence number in the high 56 bits, type in the low 8. */
  function Pack(k: IKey): nat {
    k.seqno * 256 + (if k.kind.Value? then 1 else 0)
  }

  /** User keys ascending, then sequence numbers descending, then types descending. */
  predicate Less(a: IKey, b: IKey) {
    || a.user < b.user
    || (a.user == b.user && (a.seqno > b.seqno || (a.seqno == b.seqno && a.kind.Value? && b.kind.Deletion?)))
  }

  predicate AtMost(a: IKey, b: IKey) {
    a == b || Less(a, b)
  }

  /** The order above is the one InternalKeyComparator computes from packed tags. */
  lemma LessIsPackedOrder(a: IKey, b: IKey)
    ensures Less(a, b) <==> a.user < b.user || (a.user == b.user && Pack(a) > Pack(b))
    ensures !Less(a, b) && !Less(b, a) <==> a == b
  {
  }

  /** The target of a lookup: sorts before every entry of the key visible at the snapshot
      and after every entry of the key that is too new. */
  function LookupKey(user: UserKey, snapshot: SeqNo): IKey {
    IKey(user, snapshot, Value)
  }

  ghost predicate StrictlySorted(es: seq<Entry>) {
    forall i, j :: 0 <= i < j < |es| ==> Less(es[i].key, es[j].key)
  }

  lemma SortedSlice(es: seq<Entry>, lo: nat, hi: nat)
    requires StrictlySorted(es) && lo <= hi <= |es|
    ensures StrictlySorted(es[lo..hi])
  {
  }

  /** Index of the first entry at or after the target: what every Seek computes. */
  function SeekIndex(es: seq<Entry>, target: IKey): (n: nat)
    ensures n <= |es|
    ensures forall i :: 0 <= i < n ==> Less(es[i].key, target)
    ensures n < |es| ==> !Less(es[n].key, target)
  {
    if es == [] || !Less(es[0].key, target) then 0 else 1 + SeekIndex(es[1..], target)
  }

  lemma SeekIndexUnique(es: seq<Entry>, target: IKey, n: nat)
    requires StrictlySorted(es) && n <= |es|
    requires forall i :: 0 <= i < n ==> Less(es[i].key, target)
    requires n < |es| ==> !Less(es[n].key, target)
    ensures n == SeekIndex(es, target)
  {
  }
}

/** What a read must return, in terms of a bare set of entries and in terms
    of the history of all writes. */
module Reads {
  import opened Options
  import opened InternalKeys

  /** e is the newest entry of the key that the snapshot can see. */
  ghost predicate Top(entries: set<Entry>, user: UserKey, snapshot: nat, e: Entry) {
    && e in entries && e.key.user == user && e.key.seqno <= snapshot
    && forall x :: x in entries && x.key.user == user && x.key.seqno <= snapshot ==> x.key.seqno <= e.key.seqno
  }

  /** r is the answer of a read: the newest visible entry's value, nothing when
      that entry is a deletion or does not exist. */
  ghost predicate Answers(entries: set<Entry>, user: UserKey, snapshot: nat, r: Option<string>) {
    match r
    case Some(v) => exists e :: Top(entries, user, snapshot, e) && e.key.kind.Value? && e.value == v
    case None => forall e :: Top(entries, user, snapshot, e) ==> e.key.kind.Deletion?
  }

  /** Write number i of the history carries sequence number i + 1. */
  ghost predicate Numbered(history: seq<Entry>) {
    forall i :: 0 <= i < |history| ==> history[i].key.seqno == i + 1
  }

  ghost predicate Written(history: seq<Entry>, e: Entry) {
    0 < e.key.seqno <= |history| && history[e.key.seqno - 1] == e
  }

  ghost predicate AllWritten(history: seq<Entry>, entries: set<Entry>) {
    forall e :: e in entries ==> Written(history, e)
  }

  /** The reference reading: replay the first `snapshot` writes, last one of the key wins. */
  function Replay(history: seq<Entry>, user: UserKey, snapshot: nat): (r: Option<string>)
  {
    if history == [] then None
    else
      var e := history[|history| - 1];
      if e.key.user == user && e.key.seqno <= snapshot then
        if e.key.kind.Value? then Some(e.value) else None
      else Replay(history[..|history| - 1], user, snapshot)
  }

  /** Later writes do not change what an earlier snapshot reads. */
  lemma {:induction false} ReplayStable(history: seq<Entry>, more: seq<Entry>, user: UserKey, snapshot: nat)
    requires Numbered(history + more) && snapshot <= |history|
    ensures Replay(history + more, user, snapshot) == Replay(history, user, snapshot)
  {
    if more == [] {
      assert history + more == history;
    } else {
      var init := more[..|more| - 1];
      assert (history + more)[..|history + more| - 1] == history + init;
      assert (history + more)[|history + more| - 1].key.seqno == |history + more|;
      assert forall i :: 0 <= i < |history + init| ==> (history + init)[i] == (history + more)[i];
      ReplayStable(history, init, user, snapshot);
    }
  }

  /** Replaying the history is the answer over the set of all writes. */
  lemma {:induction false} ReplayAnswers(history: seq<Entry>, user: UserKey, snapshot: nat)
    requires Numbered(history)
    ensures Answers((set e | e in history), user, snapshot, Replay(history, user, snapshot))
  {
    if history != [] {
      var n := |history| - 1;
      var e, init := history[n], history[..n];
      var all, before := (set e | e in history), (set e | e in init);
      assert history == init + [e];
      assert all == before + {e};
      assert forall x :: x in before ==> x.key.seqno <= n;
      if e.key.user == user && e.key.seqno <= snapshot {
        assert Top(all, user, snapshot, e);
        assert forall x :: Top(all, user, snapshot, x) ==> x == e;
      } else {
        ReplayAnswers(init, user, snapshot);
        SameAnswer(before, all, user, snapshot, Replay(init, user, snapshot));
      }
    }
  }

  lemma SameAnswer(a: set<Entry>, b: set<Entry>, user: UserKey, snapshot: nat, r: Option<string>)
    requires forall x: Entry :: x.key.user == user && x.key.seqno <= snapshot ==> (x in a <==> x in b)
    requires Answers(a, user, snapshot, r)
    ensures Answers(b, user, snapshot, r)
  {
    assert forall x :: Top(a, user, snapshot, x) <==> Top(b, user, snapshot, x);
  }

  /** Entries with distinct sequence numbers leave no choice of answer. */
  lemma AnswerUnique(history: seq<Entry>, entries: set<Entry>, user: UserKey, snapshot: nat, r: Option<string>,
                     s: Option<string>)
    requires AllWritten(history, entries)
    requires Answers(entries, user, snapshot, r) && Answers(entries, user, snapshot, s)
    ensures r == s
  {
    assert forall x, y :: Top(entries, user, snapshot, x) && Top(entries, user, snapshot, y) ==> x == y;
  }

  /** Everything above holds of a key is newer than anything below holds of it. */
  ghost predicate Newer(above: set<Entry>, below: set<Entry>) {
    forall x, y :: x in above && y in below && x.key.user == y.key.user ==> x.key.seqno > y.key.seqno
  }

  ghost predicate Hidden(entries: set<Entry>, user: UserKey, snapshot: nat) {
    forall e :: e in entries && e.key.user == user ==> e.key.seqno > snapshot
  }

  /** A hit in the newer source is the newest of both. */
  lemma HitAbove(above: set<Entry>, below: set<Entry>, user: UserKey, snapshot: nat, e: Entry)
    requires Newer(above, below) && Top(above, user, snapshot, e)
    ensures Top(above + below, user, snapshot, e)
  {
  }

  /** A miss in the newer source leaves the decision to the older one. */
  lemma MissAbove(above: set<Entry>, below: set<Entry>, user: UserKey, snapshot: nat)
    requires Hidden(above, user, snapshot)
    ensures forall e :: Top(below, user, snapshot, e) <==> Top(above + below, user, snapshot, e)
    ensures Hidden(below, user, snapshot) ==> Hidden(above + below, user, snapshot)
  {
  }

  /** A finite set with a visible entry has a newest one. */
  lemma {:induction false} TopExists(entries: set<Entry>, user: UserKey, snapshot: nat, e: Entry)
    requires e in entries && e.key.user == user && e.key.seqno <= snapshot
    ensures exists t :: Top(entries, user, snapshot, t)
    decreases snapshot - e.key.seqno
  {
    if !Top(entries, user, snapshot, e) {
      var x :| x in entries && x.key.user == user && x.key.seqno <= snapshot && x.key.seqno > e.key.seqno;
      TopExists(entries, user, snapshot, x);
    }
  }

  lemma TopAnswers(history: seq<Entry>, entries: set<Entry>, user: UserKey, snapshot: nat, e: Entry)
    requires AllWritten(history, entries) && Top(entries, user, snapshot, e)
    ensures Answers(entries, user, snapshot, if e.key.kind.Value? then Some(e.value) else None)
  {
    assert forall x :: Top(entries, user, snapshot, x) ==> x == e;
  }
}
