/** The bytewise order, the internal-key order over it, and the keys they put between others
    (leveldb/util/comparator.cc, leveldb/db/dbformat.cc). */
module Comparators {
  import opened Coding

  predicate Less(a: Bytes, b: Bytes) {
    b != [] && (a == [] || a[0] < b[0] || (a[0] == b[0] && Less(a[1..], b[1..])))
  }

  predicate AtMost(a: Bytes, b: Bytes) { a == b || Less(a, b) }

  lemma {:induction false} Irreflexive(a: Bytes)
    ensures !Less(a, a)
  {
    if a != [] { Irreflexive(a[1..]); }
  }

  lemma {:induction false} Transitive(a: Bytes, b: Bytes, c: Bytes)
    requires Less(a, b) && Less(b, c)
    ensures Less(a, c)
  {
    if a != [] && a[0] == b[0] && b[0] == c[0] {
      Transitive(a[1..], b[1..], c[1..]);
    }
  }

  lemma {:induction false} Total(a: Bytes, b: Bytes)
    ensures a == b || Less(a, b) || Less(b, a)
  {
    if a != [] && b != [] && a[0] == b[0] {
      Total(a[1..], b[1..]);
      assert a == [a[0]] + a[1..] && b == [b[0]] + b[1..];
    }
  }

  /** Bytewise order: a proper prefix comes first, and else the first difference decides. */
  lemma {:induction false} LessExactly(a: Bytes, b: Bytes)
    ensures Less(a, b) <==> (|a| < |b| && a == b[..|a|]) ||
                            exists n: nat :: n < |a| && n < |b| && a[..n] == b[..n] && a[n] < b[n]
  {
    if n: nat :| n < |a| && n < |b| && a[..n] == b[..n] && a[n] < b[n] {
      DiffersAt(a, b, n);
    } else if |a| < |b| && a == b[..|a|] {
      AfterPrefix(a, b, |a|);
    } else if Less(a, b) {
      var n := FirstDifferenceOf(a, b);
      AfterPrefix(a, b, n);
    }
  }

  /** Where two strings stop to agree: past the end of one of them, or at a different byte. */
  lemma {:induction false} FirstDifferenceOf(a: Bytes, b: Bytes) returns (n: nat)
    ensures n <= |a| && n <= |b| && a[..n] == b[..n] && (n == |a| || n == |b| || a[n] != b[n])
  {
    n := 0;
    while n < |a| && n < |b| && a[n] == b[n]
      invariant n <= |a| && n <= |b| && a[..n] == b[..n]
    {
      n := n + 1;
    }
  }

  /** Strings that agree on n bytes compare as what follows. */
  lemma {:induction false} AfterPrefix(a: Bytes, b: Bytes, n: nat)
    requires n <= |a| && n <= |b| && a[..n] == b[..n]
    ensures Less(a, b) <==> Less(a[n..], b[n..])
  {
    if n > 0 {
      assert a[0] == a[..n][0] == b[..n][0] == b[0];
      assert a[1..][..n - 1] == a[..n][1..] == b[..n][1..] == b[1..][..n - 1];
      AfterPrefix(a[1..], b[1..], n - 1);
      assert a[1..][n - 1..] == a[n..] && b[1..][n - 1..] == b[n..];
    } else {
      assert a[0..] == a && b[0..] == b;
    }
  }

  lemma DiffersAt(a: Bytes, b: Bytes, n: nat)
    requires n < |a| && n < |b| && a[..n] == b[..n] && a[n] < b[n]
    ensures Less(a, b)
  {
    AfterPrefix(a, b, n);
  }

  /** The first n bytes, and then the next byte plus one. */
  function Bumped(s: Bytes, n: nat): (r: Bytes)
    requires n < |s| && s[n] < 255
    ensures |r| == n + 1 && r[..n] == s[..n] && r[n] == s[n] + 1
  {
    s[..n] + [s[n] + 1]
  }

  /** The strings agree up to n and differ there. */
  ghost predicate FirstDifference(a: Bytes, b: Bytes, n: nat) {
    n < |a| && n < |b| && a[..n] == b[..n] && a[n] != b[n]
  }

  lemma DifferenceUnique(a: Bytes, b: Bytes, m: nat, n: nat)
    requires FirstDifference(a, b, m) && n <= |a| && n <= |b| && a[..n] == b[..n]
    requires n < |a| && n < |b| ==> a[n] != b[n]
    ensures n == m
  {
    assert forall i | 0 <= i < n :: a[i] == a[..n][i] == b[..n][i] == b[i];
    assert forall i | 0 <= i < m :: a[i] == a[..m][i] == b[..m][i] == b[i];
  }

  /** A key at or after `start` and, if start is before limit, before limit. */
  method FindShortestSeparator(start: Bytes, limit: Bytes) returns (r: Bytes)
    ensures AtMost(start, r) && (Less(start, limit) ==> Less(r, limit))
    ensures |r| <= |start| && (start == limit ==> r == start)
    ensures forall n: nat | FirstDifference(start, limit, n) && start[n] < 255 && start[n] + 1 < limit[n] ::
            r == Bumped(start, n)
  {
    var diff := 0;
    while diff < |start| && diff < |limit| && start[diff] == limit[diff]
      invariant diff <= |start| && diff <= |limit| && start[..diff] == limit[..diff]
    {
      diff := diff + 1;
    }
    forall n: nat | FirstDifference(start, limit, n) ensures n == diff {
      DifferenceUnique(start, limit, n, diff);
    }
    if diff < |start| && diff < |limit| && start[diff] < 255 && start[diff] + 1 < limit[diff] {
      r := Bumped(start, diff);
      DiffersAt(start, r, diff);
      DiffersAt(r, limit, diff);
    } else {
      r := start;
    }
  }

  /** A key at or after the given one. */
  method FindShortSuccessor(key: Bytes) returns (r: Bytes)
    ensures AtMost(key, r) && |r| <= |key|
    ensures forall n: nat | n < |key| && key[n] < 255 && (forall i | 0 <= i < n :: key[i] == 255) :: r == Bumped(key, n)
  {
    for i := 0 to |key|
      invariant forall j | 0 <= j < i :: key[j] == 255
    {
      if key[i] != 255 {
        r := Bumped(key, i);
        DiffersAt(key, r, i);
        return;
      }
    }
    r := key;
  }

  // ----- internal keys -----

  /** A user key with its packed sequence number and type. */
  datatype InternalKey = InternalKey(user: Bytes, tag: nat)

  /** The greatest tag: the largest sequence number, with the type used for seeking. */
  const MAX_TAG: nat := 0xFF_FFFF_FFFF_FFFF * 256 + 1

  predicate KeyLess(a: InternalKey, b: InternalKey) {
    Less(a.user, b.user) || (a.user == b.user && a.tag > b.tag)
  }

  predicate KeyAtMost(a: InternalKey, b: InternalKey) { a == b || KeyLess(a, b) }

  lemma KeyOrder(a: InternalKey, b: InternalKey, c: InternalKey)
    ensures !KeyLess(a, a)
    ensures KeyLess(a, b) && KeyLess(b, c) ==> KeyLess(a, c)
    ensures a == b || KeyLess(a, b) || KeyLess(b, a)
    ensures KeyLess(a, b) ==> !KeyLess(b, a) && a != b
  {
    hide Less;
    Irreflexive(a.user);
    Irreflexive(b.user);
    Total(a.user, b.user);
    if Less(a.user, b.user) && Less(b.user, c.user) { Transitive(a.user, b.user, c.user); }
    if Less(a.user, b.user) && Less(b.user, a.user) { Transitive(a.user, b.user, a.user); }
  }

  /** Where the user parts differ early enough, r ends there; otherwise nothing changes. */
  ghost predicate ShortensBetween(start: InternalKey, limit: InternalKey, r: InternalKey) {
    && (r != start ==> |r.user| < |start.user| && Less(start.user, r.user) && r.tag == MAX_TAG)
    && forall n: nat | FirstDifference(start.user, limit.user, n) && n + 1 < |start.user| &&
                       start.user[n] < 255 && start.user[n] + 1 < limit.user[n] ::
         r == InternalKey(Bumped(start.user, n), MAX_TAG)
  }

  ghost predicate ShortensAfter(key: InternalKey, r: InternalKey) {
    && (r != key ==> |r.user| < |key.user| && Less(key.user, r.user) && r.tag == MAX_TAG)
    && forall n: nat | n + 1 < |key.user| && key.user[n] < 255 && (forall i | 0 <= i < n :: key.user[i] == 255) ::
         r == InternalKey(Bumped(key.user, n), MAX_TAG)
  }

  /** Shortens the user part if that makes the key later; the new key then sorts before all entries of that user key. */
  method InternalSeparator(start: InternalKey, limit: InternalKey) returns (r: InternalKey)
    ensures KeyAtMost(start, r) && (KeyLess(start, limit) ==> KeyLess(r, limit))
    ensures r == start || (KeyLess(start, limit) ==> Less(r.user, limit.user))
    ensures ShortensBetween(start, limit, r)
  {
    var tmp := FindShortestSeparator(start.user, limit.user);
    hide Less;
    if |tmp| < |start.user| && Less(start.user, tmp) {
      r := InternalKey(tmp, MAX_TAG);
    } else {
      r := start;
    }
  }

  method InternalSuccessor(key: InternalKey) returns (r: InternalKey)
    ensures KeyAtMost(key, r)
    ensures ShortensAfter(key, r)
  {
    var tmp := FindShortSuccessor(key.user);
    if |tmp| < |key.user| && Less(key.user, tmp) {
      r := InternalKey(tmp, MAX_TAG);
    } else {
      r := key;
    }
  }
}
