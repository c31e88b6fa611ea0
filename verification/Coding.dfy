/** Byte encodings (leveldb/util/coding.h, leveldb/util/coding.cc, leveldb/util/crc32c.h). */
module Coding {

  type Byte = b: int | 0 <= b < 256

  type Bytes = seq<Byte>

  const TWO_32: nat := 0x1_0000_0000

  type Word32 = n: nat | n < TWO_32

  // ----- fixed-width integers, little endian -----

  function EncodeFixed32(v: Word32): (r: Bytes)
    ensures |r| == 4
  {
    [v % 256, (v / 256) % 256, (v / 65536) % 256, v / 16777216]
  }

  function DecodeFixed32(b: Bytes): (v: Word32)
    requires |b| >= 4
  {
    var b0: int, b1: int, b2: int, b3: int := b[0], b[1], b[2], b[3];
    b0 + 256 * b1 + 65536 * b2 + 16777216 * b3
  }

  lemma Fixed32RoundTrip(v: Word32, rest: Bytes)
    ensures DecodeFixed32(EncodeFixed32(v) + rest) == v
  {
    var a, b, c := v / 256, v / 65536, v / 16777216;
    assert v == 256 * a + v % 256 && a / 256 == b && b / 256 == c;
    assert a == 256 * b + a % 256 && b == 256 * c + b % 256;
  }

  // ----- checksums as stored -----

  const MASK_DELTA: nat := 0xa282ead8

  /** Rotate right by 15 bits and add a constant, in 32-bit arithmetic. */
  function Mask(crc: Word32): (m: Word32) {
    (crc / 32768 + (crc % 32768) * 131072 + MASK_DELTA) % TWO_32
  }

  function Unmask(masked: Word32): (crc: Word32) {
    var rot := (masked + TWO_32 - MASK_DELTA) % TWO_32;
    rot / 131072 + (rot % 131072) * 32768
  }

  lemma UnmaskMask(crc: Word32)
    ensures Unmask(Mask(crc)) == crc
  {
    var q, r := crc / 32768, crc % 32768;
    var rot := q + r * 131072;
    assert q < 131072 && rot < TWO_32;
    assert (Mask(crc) + TWO_32 - MASK_DELTA) % TWO_32 == rot by {
      if rot + MASK_DELTA < TWO_32 {
        assert Mask(crc) == rot + MASK_DELTA;
      } else {
        assert Mask(crc) == rot + MASK_DELTA - TWO_32;
      }
    }
    assert rot / 131072 == r && rot % 131072 == q;
  }

  /** A checksum that can be computed piece by piece; the real one is CRC-32C (section 12.1 of RFC 3720). */
  ghost predicate ExtendLaw(extend: (Word32, Bytes) -> Word32) {
    forall a, x, y {:trigger extend(extend(a, x), y)} :: extend(extend(a, x), y) == extend(a, x + y)
  }

  // ----- varints -----

  function EncodeVarint(v: nat): (r: Bytes)
    ensures |r| >= 1
  {
    if v < 128 then [v] else [v % 128 + 128] + EncodeVarint(v / 128)
  }

  datatype Decoded<T> = Failed | Got(value: T, rest: Bytes)

  function Pow128(n: nat): (p: nat)
    ensures p > 0
  {
    if n == 0 then 1 else 128 * Pow128(n - 1)
  }

  /** GetVarint32Ptr and GetVarint64Ptr: at most `limit` groups of seven bits. */
  function DecodeVarint(b: Bytes, limit: nat): (r: Decoded<nat>)
    ensures r.Got? ==> |r.rest| < |b|
  {
    if limit == 0 || b == [] then Failed
    else if b[0] < 128 then Got(b[0], b[1..])
    else
      match DecodeVarint(b[1..], limit - 1)
      case Failed => Failed
      case Got(v, rest) => Got(b[0] - 128 + 128 * v, rest)
  }

  /** A number below 128^limit decodes to itself, leaving what follows it. */
  lemma {:induction false} VarintRoundTrip(v: nat, limit: nat, rest: Bytes)
    requires limit > 0 && v < Pow128(limit)
    ensures DecodeVarint(EncodeVarint(v) + rest, limit) == Got(v, rest)
  {
    hide DecodeVarint;
    if v < 128 {
      DecodeLast(v, rest, limit);
    } else {
      assert Pow128(limit) == 128 * Pow128(limit - 1);
      VarintRoundTrip(v / 128, limit - 1, rest);
      DecodeMore(v % 128, EncodeVarint(v / 128) + rest, limit);
      assert EncodeVarint(v) + rest == [v % 128 + 128] + (EncodeVarint(v / 128) + rest);
    }
  }

  lemma DecodeLast(v: nat, rest: Bytes, limit: nat)
    requires v < 128 && limit > 0
    ensures DecodeVarint([v] + rest, limit) == Got(v, rest)
  {
  }

  lemma DecodeMore(low: nat, tail: Bytes, limit: nat)
    requires low < 128 && limit > 0
    requires DecodeVarint(tail, limit - 1).Got?
    ensures var r := DecodeVarint(tail, limit - 1);
            DecodeVarint([low + 128] + tail, limit) == Got(low + 128 * r.value, r.rest)
  {
  }

  const TWO_64: nat := 0x1_0000_0000_0000_0000

  type Word64 = n: nat | n < TWO_64

  function EncodeFixed64(v: Word64): (r: Bytes)
    ensures |r| == 8
  {
    EncodeFixed32(v % TWO_32) + EncodeFixed32(v / TWO_32)
  }

  function DecodeFixed64(b: Bytes): (v: Word64)
    requires |b| >= 8
  {
    DecodeFixed32(b[..4]) + TWO_32 * DecodeFixed32(b[4..8])
  }

  lemma Fixed64RoundTrip(v: Word64, rest: Bytes)
    ensures DecodeFixed64(EncodeFixed64(v) + rest) == v
  {
    var lo, hi := EncodeFixed32(v % TWO_32), EncodeFixed32(v / TWO_32);
    var b := EncodeFixed64(v) + rest;
    assert b[..4] == lo + [] && b[4..8] == hi + [];
    Fixed32RoundTrip(v % TWO_32, []);
    Fixed32RoundTrip(v / TWO_32, []);
  }

  /** At most five groups, and only 32 bits are kept. */
  function GetVarint32(b: Bytes): (r: Decoded<Word32>)
    ensures r.Got? ==> |r.rest| < |b|
  {
    match DecodeVarint(b, 5)
    case Failed => Failed
    case Got(v, rest) => Got(v % TWO_32, rest)
  }

  function GetVarint64(b: Bytes): (r: Decoded<Word64>)
    ensures r.Got? ==> |r.rest| < |b|
  {
    match DecodeVarint(b, 10)
    case Failed => Failed
    case Got(v, rest) => Got(v % TWO_64, rest)
  }

  lemma GetVarintRoundTrip(v: nat, rest: Bytes)
    ensures v < TWO_32 ==> GetVarint32(EncodeVarint(v) + rest) == Got(v, rest)
    ensures v < TWO_64 ==> GetVarint64(EncodeVarint(v) + rest) == Got(v, rest)
  {
    hide DecodeVarint, EncodeVarint, Pow128;
    Powers();
    if v < TWO_32 {
      VarintRoundTrip(v, 5, rest);
    }
    if v < TWO_64 {
      VarintRoundTrip(v, 10, rest);
    }
  }

  lemma Powers()
    ensures Pow128(5) == 0x8_0000_0000 && Pow128(10) == 0x40_0000_0000_0000_0000
  {
  }

  // ----- length-prefixed strings -----

  function PutLengthPrefixed(s: Bytes): (r: Bytes) { EncodeVarint(|s|) + s }

  function GetLengthPrefixed(b: Bytes): (r: Decoded<Bytes>)
    ensures r.Got? ==> |r.rest| < |b|
  {
    match GetVarint32(b)
    case Failed => Failed
    case Got(n, rest) => if n <= |rest| then Got(rest[..n], rest[n..]) else Failed
  }

  lemma LengthPrefixedRoundTrip(s: Bytes, rest: Bytes)
    requires |s| < TWO_32
    ensures GetLengthPrefixed(PutLengthPrefixed(s) + rest) == Got(s, rest)
  {
    GetVarintRoundTrip(|s|, s + rest);
    assert PutLengthPrefixed(s) + rest == EncodeVarint(|s|) + (s + rest);
    assert (s + rest)[..|s|] == s && (s + rest)[|s|..] == rest;
  }

  // ----- arrays of fixed-width integers -----

  predicate AllFit(ns: seq<nat>) {
    forall i | 0 <= i < |ns| :: ns[i] < TWO_32
  }

  function EncodeAll(ns: seq<nat>): (r: Bytes)
    requires AllFit(ns)
    ensures |r| == 4 * |ns|
  {
    if ns == [] then [] else EncodeAll(ns[..|ns| - 1]) + EncodeFixed32(ns[|ns| - 1])
  }

  lemma {:induction false} EncodeAllAt(ns: seq<nat>, j: nat)
    requires AllFit(ns) && j < |ns|
    ensures EncodeAll(ns)[4 * j..4 * j + 4] == EncodeFixed32(ns[j])
  {
    hide EncodeFixed32;
    var n := |ns| - 1;
    var before, last := EncodeAll(ns[..n]), EncodeFixed32(ns[n]);
    if j < n {
      EncodeAllAt(ns[..n], j);
      assert (before + last)[4 * j..4 * j + 4] == before[4 * j..4 * j + 4];
    } else {
      assert (before + last)[4 * j..4 * j + 4] == last;
    }
  }

  // ----- which byte holds what -----

  function Power(base: nat, n: nat): (p: nat)
    requires base > 0
    ensures p > 0
  {
    if n == 0 then 1 else base * Power(base, n - 1)
  }

  /** Byte i of a fixed-width number is its i-th digit to the base 256, from the low end. */
  lemma FixedBytes(v: Word64, i: nat)
    ensures i < 4 && v < TWO_32 ==> EncodeFixed32(v)[i] == v / Power(256, i) % 256
    ensures i < 8 ==> EncodeFixed64(v)[i] == v / Power(256, i) % 256
  {
    Powers256();
    if v < TWO_32 { Fixed32Byte(v, i); }
    Fixed32Byte(v % TWO_32, i);
    if 4 <= i < 8 {
      Fixed32Byte(v / TWO_32, i - 4);
      HighByte(v, i - 4);
    } else if i < 4 {
      LowByte(v, i);
    }
  }

  lemma Powers256()
    ensures Power(256, 0) == 1 && Power(256, 1) == 256 && Power(256, 2) == 65536 && Power(256, 3) == 16777216
    ensures Power(256, 4) == TWO_32 && Power(256, 5) == 256 * TWO_32 && Power(256, 6) == 65536 * TWO_32
    ensures Power(256, 7) == 16777216 * TWO_32
  {
  }

  lemma Fixed32Byte(v: Word32, i: nat)
    ensures i < 4 ==> EncodeFixed32(v)[i] == v / Power(256, i) % 256
  {
    Powers256();
  }

  lemma LowByte(v: Word64, i: nat)
    requires i < 4
    ensures (v % TWO_32) / Power(256, i) % 256 == v / Power(256, i) % 256
  {
    Powers256();
    var q, r := v / TWO_32, v % TWO_32;
    assert v == TWO_32 * q + r;
    if i == 0 { LowDigit(q, r, 1, 16777216); }
    else if i == 1 { LowDigit(q, r, 256, 65536); }
    else if i == 2 { LowDigit(q, r, 65536, 256); }
    else { LowDigit(q, r, 16777216, 1); }
  }

  lemma LowDigit(q: nat, r: nat, p: nat, t: nat)
    requires p > 0 && p * t == 16777216
    ensures (TWO_32 * q + r) / p % 256 == r / p % 256
  {
    var a, b := r / p, r % p;
    assert r == p * a + b;
    assert TWO_32 == p * (256 * t);
    assert TWO_32 * q == p * (256 * t * q) by { TimesRegroups(p, 256 * t, q); }
    assert TWO_32 * q + r == p * (256 * t * q + a) + b;
    Quotient(TWO_32 * q + r, p, 256 * t * q + a, b);
    TimesRegroups(256, t, q);
    AddMultiple(t * q, a);
  }

  lemma TimesRegroups(a: nat, b: nat, c: nat)
    ensures a * b * c == a * (b * c)
  {
  }

  lemma AddMultiple(n: nat, a: nat)
    ensures (256 * n + a) % 256 == a % 256
  {
  }

  lemma HighByte(v: Word64, i: nat)
    requires i < 4
    ensures (v / TWO_32) / Power(256, i) % 256 == v / Power(256, i + 4) % 256
  {
    Powers256();
  }

  /** Byte i of a varint carries its i-th digit to the base 128, from the low end, and the top bit says that more
      follow; the last digit is not zero unless it is the only one. */
  lemma {:induction false} VarintBytes(v: nat, i: nat)
    requires i < |EncodeVarint(v)|
    ensures EncodeVarint(v)[i] % 128 == v / Power(128, i) % 128
    ensures EncodeVarint(v)[i] >= 128 <==> i + 1 < |EncodeVarint(v)|
    ensures i > 0 && i + 1 == |EncodeVarint(v)| ==> EncodeVarint(v)[i] > 0
  {
    if i > 0 {
      VarintBytes(v / 128, i - 1);
      DivideTwice(v, Power(128, i - 1));
    }
  }

  lemma DivideTwice(v: nat, p: nat)
    requires p > 0
    ensures v / 128 / p == v / (128 * p)
  {
    var q, r := v / 128, v % 128;
    var a, b := q / p, q % p;
    assert v == 128 * (p * a + b) + r;
    assert v == (128 * p) * a + (128 * b + r) && 128 * b + r < 128 * p;
    Quotient(v, 128 * p, a, 128 * b + r);
  }

  lemma Quotient(v: nat, d: nat, q: nat, r: nat)
    requires v == d * q + r && r < d
    ensures v / d == q
  {
    var q', r' := v / d, v % d;
    assert v == d * q' + r';
    if q' < q {
      TimesGrows(d, q' + 1, q);
    } else if q < q' {
      TimesGrows(d, q + 1, q');
    }
  }

  lemma TimesGrows(d: nat, a: nat, b: nat)
    requires a <= b
    ensures d * a <= d * b && d * (a + 1) == d * a + d
  {
  }

  /** A stored checksum, less the constant and turned left by 15 bits, is the checksum. */
  lemma MaskRotates(crc: Word32, m: Word32)
    ensures m == Mask(crc) <==>
            var rot := (m + TWO_32 - 0xa282ead8) % TWO_32; rot % 131072 * 32768 + rot / 131072 == crc
  {
    UnmaskMask(crc);
    var rot := (m + TWO_32 - 0xa282ead8) % TWO_32;
    assert Unmask(m) == rot / 131072 + rot % 131072 * 32768;
    if Unmask(m) == crc { MaskUnmask(m); }
  }

  lemma MaskUnmask(m: Word32)
    ensures Mask(Unmask(m)) == m
  {
    var rot := (m + TWO_32 - MASK_DELTA) % TWO_32;
    var q, r := rot / 131072, rot % 131072;
    var crc := q + r * 32768;
    assert q < 32768 && crc / 32768 == r && crc % 32768 == q;
    assert Mask(crc) == (rot + MASK_DELTA) % TWO_32;
  }

  // ----- which bytes are a varint -----

  /** The first byte without the top bit stands at i, among the first `limit`. */
  ghost predicate EndsAt(b: Bytes, limit: nat, i: nat) {
    i < limit && i < |b| && b[i] < 128 && forall j | 0 <= j < i :: b[j] >= 128
  }

  /** The number whose digits to the base 128 are the low bits of the bytes up to i. */
  function Digits(b: Bytes, i: nat): nat
    requires i < |b|
  {
    b[0] % 128 + if i == 0 then 0 else 128 * Digits(b[1..], i - 1)
  }

  /** Any bytes decode exactly when a last group comes soon enough, to the number that the groups up to it give. */
  lemma {:induction false} VarintExactly(b: Bytes, limit: nat, i: nat)
    ensures DecodeVarint(b, limit).Got? ==> exists j: nat :: EndsAt(b, limit, j)
    ensures EndsAt(b, limit, i) ==> DecodeVarint(b, limit) == Got(Digits(b, i), b[i + 1..])
  {
    if limit > 0 && b != [] && b[0] >= 128 {
      VarintExactly(b[1..], limit - 1, if i > 0 then i - 1 else 0);
      if DecodeVarint(b, limit).Got? {
        var j: nat :| EndsAt(b[1..], limit - 1, j);
        assert EndsAt(b, limit, j + 1);
      }
      if EndsAt(b, limit, i) {
        assert EndsAt(b[1..], limit - 1, i - 1);
        assert b[1..][i..] == b[i + 1..];
      }
    } else if limit > 0 && b != [] {
      assert EndsAt(b, limit, 0);
    }
  }
}
