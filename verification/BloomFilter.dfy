/** The built-in Bloom filter policy (leveldb/util/bloom.cc). */
module BloomFilters {
  import opened Coding

  // ----- bits of bytes -----

  predicate HasBit(b: nat, k: nat) {
    if k == 0 then b % 2 == 1 else HasBit(b / 2, k - 1)
  }

  function WithBit(b: nat, k: nat): nat {
    if k == 0 then (b / 2) * 2 + 1 else WithBit(b / 2, k - 1) * 2 + b % 2
  }

  function Pow2(n: nat): (p: nat)
    ensures p > 0
  {
    if n == 0 then 1 else 2 * Pow2(n - 1)
  }

  lemma {:induction false} WithBitSets(b: nat, k: nat, j: nat)
    ensures HasBit(WithBit(b, k), j) <==> j == k || HasBit(b, j)
  {
    if k > 0 && j > 0 {
      WithBitSets(b / 2, k - 1, j - 1);
      assert WithBit(b, k) / 2 == WithBit(b / 2, k - 1);
    } else if k == 0 && j > 0 {
      assert WithBit(b, 0) / 2 == b / 2;
    }
  }

  lemma {:induction false} WithBitBounded(b: nat, k: nat, n: nat)
    requires k < n && b < Pow2(n)
    ensures WithBit(b, k) < Pow2(n)
  {
    if k > 0 {
      WithBitBounded(b / 2, k - 1, n - 1);
    }
  }

  lemma {:induction false} ZeroHasNone(k: nat)
    ensures !HasBit(0, k)
  {
    if k > 0 {
      ZeroHasNone(k - 1);
    }
  }

  function SetBit(b: Byte, k: nat): Byte
    requires k < 8
  {
    WithBitBounded(b, k, 8);
    assert Pow2(2) == 4 && Pow2(4) == 16 && Pow2(6) == 64;
    WithBit(b, k)
  }

  // ----- probes -----

  /** Any 32-bit hash of a key. */
  type Hash = Bytes -> Word32

  /** The step of the double hashing: the hash rotated right by 17 bits. */
  function Delta(h: Word32): Word32 {
    h / 131072 + (h % 131072) * 32768
  }

  /** The j-th probe into a filter of that many bits. */
  function Probe(h: Word32, bits: nat, j: nat): nat
    requires bits > 0
  {
    ((h + j * Delta(h)) % TWO_32) % bits
  }

  predicate BitSet(bitmap: Bytes, p: nat) {
    p / 8 < |bitmap| && HasBit(bitmap[p / 8], p % 8)
  }

  /** All probes of the key hit set bits. */
  ghost predicate Covered(hash: Hash, bitmap: Bytes, k: nat, key: Bytes)
    requires |bitmap| > 0
  {
    forall j: nat | j < k :: BitSet(bitmap, Probe(hash(key), 8 * |bitmap|, j))
  }

  ghost predicate Hits(hash: Hash, key: Bytes, bits: nat, k: nat, q: nat)
    requires bits > 0
  {
    exists j: nat :: j < k && Probe(hash(key), bits, j) == q
  }

  ghost predicate HitByOne(hash: Hash, keys: seq<Bytes>, bits: nat, k: nat, q: nat)
    requires bits > 0
  {
    exists key | key in keys :: Hits(hash, key, bits, k, q)
  }

  /** No bit is set but by a probe of one of the keys. */
  ghost predicate OnlyHits(hash: Hash, keys: seq<Bytes>, bitmap: Bytes, k: nat)
    requires |bitmap| > 0
  {
    forall q: nat | BitSet(bitmap, q) :: HitByOne(hash, keys, 8 * |bitmap|, k, q)
  }

  /** Setting a bit keeps the others. */
  method SetBitmapBit(bitmap: Bytes, p: nat) returns (r: Bytes)
    requires p < 8 * |bitmap|
    ensures |r| == |bitmap| && forall q: nat :: BitSet(r, q) <==> q == p || BitSet(bitmap, q)
  {
    r := bitmap[p / 8 := SetBit(bitmap[p / 8], p % 8)];
    forall q: nat ensures BitSet(r, q) <==> q == p || BitSet(bitmap, q) {
      WithBitSets(bitmap[p / 8], p % 8, q % 8);
      assert p == 8 * (p / 8) + p % 8 && q == 8 * (q / 8) + q % 8;
    }
  }

  class BloomFilterPolicy {
    const hash: Hash
    const bitsPerKey: nat
    const k: nat

    /** The number of probes is chosen from the bits per key, and kept from 1 to 30. */
    constructor (hash: Hash, bitsPerKey: nat)
      ensures this.hash == hash && this.bitsPerKey == bitsPerKey && 1 <= k <= 30
    {
      this.hash, this.bitsPerKey := hash, bitsPerKey;
      var n := bitsPerKey * 69 / 100;
      k := if n < 1 then 1 else if n > 30 then 30 else n;
    }

    /** At least 64 bits, else the given number per key; exactly the bits that the keys' probes hit are set. */
    method CreateFilter(keys: seq<Bytes>) returns (filter: Bytes)
      requires 1 <= k <= 30
      ensures |filter| == (if |keys| * bitsPerKey < 64 then 8 else (|keys| * bitsPerKey + 7) / 8) + 1 >= 9
      ensures filter[|filter| - 1] == k
      ensures forall i | 0 <= i < |keys| :: Covered(hash, filter[..|filter| - 1], k, keys[i])
      ensures OnlyHits(hash, keys, filter[..|filter| - 1], k)
    {
      var bits := |keys| * bitsPerKey;
      if bits < 64 {
        bits := 64;
      }
      var bytes := (bits + 7) / 8;
      bits := bytes * 8;
      var bitmap: Bytes := seq(bytes, _ => 0);
      forall q: nat ensures !BitSet(bitmap, q) { ZeroHasNone(q % 8); }
      for i := 0 to |keys|
        invariant |bitmap| == bytes
        invariant forall m | 0 <= m < i :: Covered(hash, bitmap, k, keys[m])
        invariant OnlyHits(hash, keys, bitmap, k)
      {
        assert keys[i] in keys;
        bitmap := AddKey(bitmap, keys[i], keys[..i]);
      }
      filter := bitmap + [k];
      assert filter[..|filter| - 1] == bitmap;
    }

    method AddKey(bitmap: Bytes, key: Bytes, ghost before: seq<Bytes>) returns (r: Bytes)
      requires |bitmap| > 0 && forall m | 0 <= m < |before| :: Covered(hash, bitmap, k, before[m])
      ensures |r| == |bitmap| && Covered(hash, r, k, key)
      ensures forall q: nat | BitSet(r, q) :: BitSet(bitmap, q) || Hits(hash, key, 8 * |bitmap|, k, q)
      ensures forall m | 0 <= m < |before| :: Covered(hash, r, k, before[m])
    {
      r := bitmap;
      var start := hash(key);
      var h, delta := start, Delta(start);
      for j := 0 to k
        invariant |r| == |bitmap| && h == (start + j * delta) % TWO_32
        invariant forall q: nat | BitSet(bitmap, q) :: BitSet(r, q)
        invariant forall q: nat | BitSet(r, q) :: BitSet(bitmap, q) || Hits(hash, key, 8 * |bitmap|, k, q)
        invariant forall i: nat | i < j :: BitSet(r, Probe(start, 8 * |bitmap|, i))
      {
        assert Probe(start, 8 * |bitmap|, j) == h % (8 * |bitmap|);
        r := SetBitmapBit(r, h % (8 * |bitmap|));
        Step(start, j);
        h := (h + delta) % TWO_32;
      }
    }

    method KeyMayMatch(key: Bytes, filter: Bytes) returns (r: bool)
      ensures |filter| < 2 ==> !r
      ensures |filter| >= 2 && filter[|filter| - 1] <= 30 ==>
                (r <==> Covered(hash, filter[..|filter| - 1], filter[|filter| - 1], key))
      ensures |filter| >= 2 && filter[|filter| - 1] > 30 ==> r
    {
      if |filter| < 2 {
        return false;
      }
      var bitmap, probes := filter[..|filter| - 1], filter[|filter| - 1];
      if probes > 30 {
        return true;
      }
      var start := hash(key);
      var h, delta := start, Delta(start);
      for j := 0 to probes
        invariant h == (start + j * delta) % TWO_32
        invariant forall i: nat | i < j :: BitSet(bitmap, Probe(start, 8 * |bitmap|, i))
      {
        var p := h % (8 * |bitmap|);
        if !HasBit(bitmap[p / 8], p % 8) {
          assert !BitSet(bitmap, Probe(start, 8 * |bitmap|, j));
          return false;
        }
        Step(start, j);
        h := (h + delta) % TWO_32;
      }
      return true;
    }
  }

  lemma Step(start: Word32, j: nat)
    ensures ((start + j * Delta(start)) % TWO_32 + Delta(start)) % TWO_32 == (start + (j + 1) * Delta(start)) % TWO_32
  {
    var d := Delta(start);
    hide Delta;
    OneMoreTime(j, d);
    AddToRest(start + j * d, d);
  }

  lemma OneMoreTime(j: nat, d: nat)
    ensures (j + 1) * d == j * d + d
  {
  }

  lemma AddToRest(a: nat, d: nat)
    ensures (a % TWO_32 + d) % TWO_32 == (a + d) % TWO_32
  {
    assert a + d == TWO_32 * (a / TWO_32) + (a % TWO_32 + d);
  }

  /** The step of the double hashing is the only number that, turned left by 17 bits, gives the hash. */
  lemma DeltaRotates(h: Word32, d: Word32)
    ensures d == Delta(h) <==> (d % 32768) * 131072 + d / 32768 == h
  {
    var q, r := h / 131072, h % 131072;
    assert h == 131072 * q + r && q < 32768;
    var q', r' := d / 32768, d % 32768;
    assert d == 32768 * q' + r' && q' < 131072;
  }

  /** The bit of probe j: the hash and j times its step, modulo 2^32, modulo the number of bits. */
  ghost predicate ProbesAt(h: Word32, bits: nat, j: nat, q: nat)
    requires bits > 0
  {
    exists d: Word32 :: (d % 32768) * 131072 + d / 32768 == h && q == ((h + j * d) % 0x1_0000_0000) % bits
  }

  lemma ProbeIs(h: Word32, bits: nat, j: nat, q: nat)
    requires bits > 0
    ensures ProbesAt(h, bits, j, q) <==> q == Probe(h, bits, j)
  {
    DeltaRotates(h, Delta(h));
    forall d: Word32 | (d % 32768) * 131072 + d / 32768 == h ensures d == Delta(h) { DeltaRotates(h, d); }
  }

  /** The key probes only bits that some of the keys probe. */
  ghost predicate Collides(hash: Hash, keys: seq<Bytes>, bits: nat, k: nat, key: Bytes)
    requires bits > 0
  {
    forall j: nat, q: nat | j < k && ProbesAt(hash(key), bits, j, q) ::
      exists other, i: nat :: other in keys && i < k && ProbesAt(hash(other), bits, i, q)
  }

  /** A filter made for some keys matches exactly those keys whose probes all fall on theirs. */
  method MatchExactly(policy: BloomFilterPolicy, keys: seq<Bytes>, key: Bytes) returns (r: bool)
    requires 1 <= policy.k <= 30
    ensures var bits := |keys| * policy.bitsPerKey;
            r <==> Collides(policy.hash, keys, if bits < 64 then 64 else (bits + 7) / 8 * 8, policy.k, key)
  {
    hide BitSet, Probe;
    var filter := policy.CreateFilter(keys);
    ghost var bitmap := filter[..|filter| - 1];
    r := policy.KeyMayMatch(key, filter);
    CoveredIsColliding(policy.hash, keys, bitmap, policy.k, key);
  }

  lemma CoveredIsColliding(hash: Hash, keys: seq<Bytes>, bitmap: Bytes, k: nat, key: Bytes)
    requires |bitmap| > 0 && OnlyHits(hash, keys, bitmap, k)
    requires forall i | 0 <= i < |keys| :: Covered(hash, bitmap, k, keys[i])
    ensures Covered(hash, bitmap, k, key) <==> Collides(hash, keys, 8 * |bitmap|, k, key)
  {
    hide BitSet, Probe, ProbesAt;
    var bits := 8 * |bitmap|;
    forall h: Word32, j: nat, q: nat ensures ProbesAt(h, bits, j, q) <==> q == Probe(h, bits, j) {
      ProbeIs(h, bits, j, q);
    }
    forall q: nat ensures BitSet(bitmap, q) <==>
      exists other, i: nat :: other in keys && i < k && ProbesAt(hash(other), bits, i, q)
    {
      SetIsProbed(hash, keys, bitmap, k, q);
    }
    if Collides(hash, keys, bits, k, key) {
      forall j: nat | j < k ensures BitSet(bitmap, Probe(hash(key), bits, j)) {
        assert ProbesAt(hash(key), bits, j, Probe(hash(key), bits, j));
      }
    }
  }

  lemma SetIsProbed(hash: Hash, keys: seq<Bytes>, bitmap: Bytes, k: nat, q: nat)
    requires |bitmap| > 0 && OnlyHits(hash, keys, bitmap, k)
    requires forall i | 0 <= i < |keys| :: Covered(hash, bitmap, k, keys[i])
    ensures BitSet(bitmap, q) <==>
            exists other, i: nat :: other in keys && i < k && ProbesAt(hash(other), 8 * |bitmap|, i, q)
  {
    hide BitSet, Probe, ProbesAt;
    var bits := 8 * |bitmap|;
    if BitSet(bitmap, q) {
      assert HitByOne(hash, keys, bits, k, q);
      var other :| other in keys && Hits(hash, other, bits, k, q);
      var i: nat :| i < k && Probe(hash(other), bits, i) == q;
      ProbeIs(hash(other), bits, i, q);
    }
    if other, i: nat :| other in keys && i < k && ProbesAt(hash(other), bits, i, q) {
      ProbeIs(hash(other), bits, i, q);
      var m :| 0 <= m < |keys| && keys[m] == other;
      assert Covered(hash, bitmap, k, keys[m]);
    }
  }
}
