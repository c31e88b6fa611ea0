/** The Bloom filter over stored values (bloom_hierarchy/bloom_value.cpp). */
module BloomValues {

  const BITS: nat := 2000000
  const HASHES: nat := 3

  type Bits = b: seq<bool> | |b| == BITS witness seq(BITS, _ => false)

  /** std::hash on strings: any function. */
  type Hash = string -> nat

  const EMPTY: Bits := seq(BITS, _ => false)

  /** The bit the i-th hash function selects: the hash of the key followed by the decimal digit i. */
  function Position(hash: Hash, key: string, i: nat): (p: nat)
    requires i < HASHES
    ensures p < BITS
  {
    hash(key + [['0', '1', '2'][i]]) % BITS
  }

  predicate Accepts(hash: Hash, b: Bits, key: string) {
    forall i: nat | i < HASHES :: b[Position(hash, key, i)]
  }

  /** The filter that holds exactly these keys. */
  ghost predicate Holds(hash: Hash, b: Bits, keys: set<string>) {
    forall p | 0 <= p < BITS :: b[p] <==> exists k, i: nat :: k in keys && i < HASHES && Position(hash, k, i) == p
  }

  /** No false negatives. */
  lemma HeldIsAccepted(hash: Hash, b: Bits, keys: set<string>, key: string)
    requires Holds(hash, b, keys) && key in keys
    ensures Accepts(hash, b, key)
  {
  }

  /** The key's hash with digit d falls together with one of the other key's three hashes. */
  ghost predicate Meets(hash: Hash, key: string, d: char, other: string) {
    || hash(key + [d]) % 2000000 == hash(other + ['0']) % 2000000
    || hash(key + [d]) % 2000000 == hash(other + ['1']) % 2000000
    || hash(key + [d]) % 2000000 == hash(other + ['2']) % 2000000
  }

  /** Each of the three hashes of the key falls together with one of some key that is held. */
  ghost predicate Collides(hash: Hash, keys: set<string>, key: string) {
    && (exists k :: k in keys && Meets(hash, key, '0', k))
    && (exists k :: k in keys && Meets(hash, key, '1', k))
    && (exists k :: k in keys && Meets(hash, key, '2', k))
  }

  /** A filter rejects exactly the keys of which some hash falls together with none of those held. */
  lemma AcceptsExactly(hash: Hash, b: Bits, keys: set<string>, key: string)
    requires Holds(hash, b, keys)
    ensures Accepts(hash, b, key) <==> Collides(hash, keys, key)
  {
    hide Meets, Position;
    BitExactly(hash, b, keys, key, 0);
    BitExactly(hash, b, keys, key, 1);
    BitExactly(hash, b, keys, key, 2);
  }

  lemma BitExactly(hash: Hash, b: Bits, keys: set<string>, key: string, i: nat)
    requires Holds(hash, b, keys) && i < HASHES
    ensures b[Position(hash, key, i)] <==> exists k :: k in keys && Meets(hash, key, ['0', '1', '2'][i], k)
  {
    var p := Position(hash, key, i);
    if b[p] {
      var k, j: nat :| k in keys && j < HASHES && Position(hash, k, j) == p;
      assert Meets(hash, key, ['0', '1', '2'][i], k);
    }
    if k :| k in keys && Meets(hash, key, ['0', '1', '2'][i], k) {
      var j: nat := if p == Position(hash, k, 0) then 0 else if p == Position(hash, k, 1) then 1 else 2;
      assert Position(hash, k, j) == p;
    }
  }

  ghost predicate Within(a: Bits, b: Bits) {
    forall p | 0 <= p < BITS :: a[p] ==> b[p]
  }

  lemma AcceptsGrows(hash: Hash, a: Bits, b: Bits, key: string)
    requires Within(a, b) && Accepts(hash, a, key)
    ensures Accepts(hash, b, key)
  {
  }

  function Or(a: Bits, b: Bits): (r: Bits)
    ensures forall p | 0 <= p < BITS :: r[p] <==> a[p] || b[p]
  {
    seq(BITS, p requires 0 <= p < BITS => a[p] || b[p])
  }

  // ----- the bit-packed file -----

  type FileBytes = seq<bv8>

  predicate GetBit(x: bv8, k: nat)
    requires k < 8
  {
    (x >> k) & 1 == 1
  }

  function SetBit(x: bv8, k: nat): bv8
    requires k < 8
  {
    x | (1 << k)
  }

  lemma SetBitSets(x: bv8, k: nat, j: nat)
    requires k < 8 && j < 8
    ensures GetBit(SetBit(x, k), j) <==> j == k || GetBit(x, j)
  {
    assert (x | (1 << k)) >> j == (x >> j) | ((1 << k) >> j);
  }

  const HEADER: nat := 4
  const PACKED: nat := (BITS + 7) / 8

  ghost predicate BitOf(data: FileBytes, p: nat) {
    p / 8 < |data| && GetBit(data[p / 8], p % 8)
  }

  /** The file holds this filter: a four-byte count of hash functions, then bit p at bit p % 8 of byte p / 8. */
  ghost predicate Stores(file: FileBytes, b: Bits) {
    |file| == HEADER + PACKED && forall p | 0 <= p < BITS :: BitOf(file[HEADER..], p) == b[p]
  }

  class BloomValue {
    const hash: Hash
    var bitArray: Bits

    constructor (hash: Hash)
      ensures this.hash == hash && bitArray == EMPTY && Holds(hash, bitArray, {})
    {
      this.hash := hash;
      bitArray := EMPTY;
    }

    method Insert(key: string, ghost keys: set<string>)
      requires Holds(hash, bitArray, keys)
      modifies this
      ensures Holds(hash, bitArray, keys + {key})
    {
      for i := 0 to HASHES
        invariant forall p | 0 <= p < BITS ::
            bitArray[p] <==> old(bitArray)[p] || exists j: nat :: j < i && Position(hash, key, j) == p
      {
        bitArray := bitArray[Position(hash, key, i) := true];
      }
      forall p | 0 <= p < BITS && bitArray[p]
        ensures exists k, i: nat :: k in keys + {key} && i < HASHES && Position(hash, k, i) == p
      {
        if old(bitArray)[p] {
          var k, i: nat :| k in keys && i < HASHES && Position(hash, k, i) == p;
        }
      }
    }

    method Exists(key: string) returns (r: bool)
      ensures r <==> Accepts(hash, bitArray, key)
    {
      for i := 0 to HASHES
        invariant forall j: nat | j < i :: bitArray[Position(hash, key, j)]
      {
        if !bitArray[Position(hash, key, i)] {
          return false;
        }
      }
      return true;
    }

    method SaveToFile() returns (file: FileBytes)
      ensures Stores(file, bitArray) && file[..HEADER] == [HASHES as bv8, 0, 0, 0]
    {
      var buffer := new bv8[PACKED](_ => 0);
      for i := 0 to BITS
        invariant forall p | 0 <= p < BITS :: BitOf(buffer[..], p) == (p < i && bitArray[p])
      {
        SetOneBit(buffer, i, bitArray[i]);
      }
      file := [HASHES as bv8, 0, 0, 0] + buffer[..];
      assert file[HEADER..] == buffer[..];
    }

    static method SetOneBit(buffer: array<bv8>, i: nat, bit: bool)
      requires i / 8 < buffer.Length && !BitOf(buffer[..], i)
      modifies buffer
      ensures forall p: nat :: BitOf(buffer[..], p) == if p == i then bit else old(BitOf(buffer[..], p))
    {
      if bit {
        buffer[i / 8] := SetBit(buffer[i / 8], i % 8);
      }
      forall p: nat ensures BitOf(buffer[..], p) == if p == i then bit else old(BitOf(buffer[..], p)) {
        SetBitSets(old(buffer[i / 8]), i % 8, p % 8);
        assert p == 8 * (p / 8) + p % 8 && i == 8 * (i / 8) + i % 8;
      }
    }

    /** Reads a filter back; bytes the file lacks read as zero. */
    static method LoadFromFile(hash: Hash, file: FileBytes) returns (filter: BloomValue)
      ensures fresh(filter) && filter.hash == hash
      ensures forall p | 0 <= p < BITS :: filter.bitArray[p] == (|file| >= HEADER && BitOf(file[HEADER..], p))
    {
      var data := if |file| < HEADER then [] else file[HEADER..];
      filter := new BloomValue(hash);
      for i := 0 to BITS
        invariant filter.hash == hash
        invariant forall p | 0 <= p < BITS :: filter.bitArray[p] == (p < i && BitOf(data, p))
      {
        filter.bitArray := filter.bitArray[i := i / 8 < |data| && GetBit(data[i / 8], i % 8)];
      }
    }
  }

  /** Saving and loading gives the filter back. */
  method RoundTrip(filter: BloomValue) returns (copy: BloomValue)
    ensures copy.bitArray == filter.bitArray
  {
    var file := filter.SaveToFile();
    copy := BloomValue.LoadFromFile(filter.hash, file);
  }
}
