/** The log format: fragmenting writer and reassembling reader
    (leveldb/db/log_format.h, leveldb/db/log_writer.cc, leveldb/db/log_reader.cc). */
module LogFormat {
  import opened Coding

  const BLOCK: nat := 32768
  const HEADER: nat := 7

  const FULL: nat := 1
  const FIRST: nat := 2
  const MIDDLE: nat := 3
  const LAST: nat := 4

  type Extend = (Word32, Bytes) -> Word32

  function BlockEnd(p: nat): (e: nat)
    ensures p < e <= p + BLOCK && e % BLOCK == 0
  {
    p - p % BLOCK + BLOCK
  }

  lemma BlockOf(base: nat, offset: nat)
    requires base % BLOCK == 0 && offset < BLOCK
    ensures BlockEnd(base + offset) == base + BLOCK
  {
  }

  // ----- what the writer lays down -----

  function Emit(extend: Extend, kind: nat, fragment: Bytes): (r: Bytes)
    requires kind < 256 && |fragment| <= BLOCK - HEADER
    ensures |r| == HEADER + |fragment|
  {
    EncodeFixed32(Mask(extend(extend(0, [kind]), fragment))) + [|fragment| % 256, |fragment| / 256, kind] + fragment
  }

  function Zeros(n: nat): (r: Bytes)
    ensures |r| == n
  {
    seq(n, _ => 0)
  }

  /** Bytes left unused before the next header when fewer than a header's worth remain. */
  function Padding(p: nat): (n: nat)
    ensures n < HEADER
    ensures BlockEnd(p + n) - (p + n) >= HEADER
    ensures n > 0 ==> p + n == BlockEnd(p)
  {
    if BlockEnd(p) - p < HEADER then BlockEnd(p) - p else 0
  }

  function FragmentLength(p: nat, left: nat): (n: nat)
    ensures n <= left && n <= BLOCK - HEADER && p + Padding(p) + HEADER + n <= BlockEnd(p + Padding(p))
    ensures n < left ==> p + Padding(p) + HEADER + n == BlockEnd(p + Padding(p))
  {
    var avail := BlockEnd(p + Padding(p)) - (p + Padding(p)) - HEADER;
    if left < avail then left else avail
  }

  /** 1 when only a header fits before the end of the block, so that the piece is empty. */
  function HeaderOnly(p: nat, left: nat): nat { if FragmentLength(p, left) == 0 then 1 else 0 }

  lemma HeaderOnlyOnce(p: nat, left: nat)
    requires FragmentLength(p, left) < left
    ensures FragmentLength(p, left) == 0 ==> HeaderOnly(p, left) == 1
    ensures HeaderOnly(p + Padding(p) + HEADER + FragmentLength(p, left), left - FragmentLength(p, left)) == 0
  {
  }

  function KindOf(begin: bool, end: bool): nat {
    if begin && end then FULL else if begin then FIRST else if end then LAST else MIDDLE
  }

  /** Trailer, header and payload of the first piece of `data` when written at file position p. */
  function Fragment(extend: Extend, p: nat, data: Bytes, begin: bool): (r: Bytes)
    ensures |r| == Padding(p) + HEADER + FragmentLength(p, |data|)
  {
    var n := FragmentLength(p, |data|);
    Zeros(Padding(p)) + Emit(extend, KindOf(begin, n == |data|), data[..n])
  }

  /** The encoding of one record at file position p. */
  function Encode(extend: Extend, p: nat, data: Bytes, begin: bool): (r: Bytes)
    ensures |r| >= HEADER
    decreases |data|, HeaderOnly(p, |data|)
  {
    var n := FragmentLength(p, |data|);
    var here := Fragment(extend, p, data, begin);
    if n == |data| then here
    else HeaderOnlyOnce(p, |data|); here + Encode(extend, p + |here|, data[n..], false)
  }

  lemma Regroup(a: Bytes, b: Bytes, c: Bytes)
    ensures a + (b + c) == a + b + c
  {
  }

  /** Appending a record is appending its first piece, then the record's remainder at the new end of file. */
  lemma EncodeUnfolds(extend: Extend, file: Bytes, data: Bytes, begin: bool)
    ensures var n := FragmentLength(|file|, |data|);
            var longer := file + Fragment(extend, |file|, data, begin);
            file + Encode(extend, |file|, data, begin) ==
            longer + if n == |data| then [] else Encode(extend, |longer|, data[n..], false)
  {
    hide EncodeFixed32, Fragment, FragmentLength, Padding, BlockEnd, HeaderOnly;
    var n := FragmentLength(|file|, |data|);
    var here := Fragment(extend, |file|, data, begin);
    var there := if n == |data| then [] else Encode(extend, |file| + |here|, data[n..], false);
    Regroup(file, here, there);
  }

  /** The log file holding these records, written one after another into an empty file. */
  function Log(extend: Extend, records: seq<Bytes>): (r: Bytes) {
    if records == [] then []
    else
      var before := Log(extend, records[..|records| - 1]);
      before + Encode(extend, |before|, records[|records| - 1], true)
  }

  class Writer {
    const extend: Extend
    var dest: Bytes
    var blockOffset: nat
    ghost var base: nat      // where the current block starts

    ghost predicate Valid()
      reads this
    {
      blockOffset <= BLOCK && base % BLOCK == 0 && |dest| == base + blockOffset
    }

    /** Opens a log whose file already holds some bytes. */
    constructor (extend: Extend, dest: Bytes)
      ensures Valid() && this.dest == dest && this.extend == extend
    {
      this.extend := extend;
      this.dest := dest;
      this.blockOffset := |dest| % BLOCK;
      this.base := |dest| - |dest| % BLOCK;
    }

    method AddRecord(data: Bytes)
      requires Valid()
      modifies this
      ensures Valid()
      ensures dest == old(dest) + Encode(extend, |old(dest)|, data, true)
    {
      hide Encode, Fragment, FragmentLength, HeaderOnly;
      var rest, begin, more := data, true, true;
      ghost var goal := old(dest) + Encode(extend, |old(dest)|, data, true);
      while more
        invariant Valid()
        invariant goal == dest + if more then Encode(extend, |dest|, rest, begin) else []
        decreases more, |rest|, HeaderOnly(|dest|, |rest|)
      {
        ghost var was := dest;
        var n := AppendFragment(rest, begin);
        if n < |rest| { HeaderOnlyOnce(|was|, |rest|); }
        EncodeUnfolds(extend, was, rest, begin);
        rest, begin := rest[n..], false;
        more := |rest| > 0;
      }
    }

    method AppendFragment(rest: Bytes, begin: bool) returns (n: nat)
      requires Valid()
      modifies this
      ensures Valid()
      ensures n == FragmentLength(|old(dest)|, |rest|)
      ensures dest == old(dest) + Fragment(extend, |old(dest)|, rest, begin)
    {
      SkipTrailer();
      var avail := BLOCK - blockOffset - HEADER;
      n := if |rest| < avail then |rest| else avail;
      BlockOf(base, blockOffset);
      EmitPhysicalRecord(KindOf(begin, n == |rest|), rest[..n]);
    }

    /** Moves to the next block when no header fits in this one. */
    method SkipTrailer()
      requires Valid()
      modifies this
      ensures Valid() && blockOffset + HEADER <= BLOCK
      ensures dest == old(dest) + Zeros(Padding(|old(dest)|))
    {
      var leftover := BLOCK - blockOffset;
      if blockOffset < BLOCK {
        BlockOf(base, blockOffset);
      }
      if leftover < HEADER {
        if leftover > 0 {
          dest := dest + Zeros(leftover);
        }
        base := base + BLOCK;
        blockOffset := 0;
      }
    }

    method EmitPhysicalRecord(kind: nat, fragment: Bytes)
      requires Valid() && kind < 256 && blockOffset + HEADER + |fragment| <= BLOCK
      modifies this
      ensures Valid() && base == old(base)
      ensures dest == old(dest) + Emit(extend, kind, fragment)
      ensures blockOffset == old(blockOffset) + HEADER + |fragment|
    {
      var crc := Mask(extend(extend(0, [kind]), fragment));
      var header := EncodeFixed32(crc) + [|fragment| % 256, |fragment| / 256, kind];
      dest := dest + header;
      dest := dest + fragment;
      blockOffset := blockOffset + HEADER + |fragment|;
    }
  }

  // ----- what a reader finds at a file position -----

  const EOF: nat := 5
  const BAD: nat := 6

  /** A physical read: the code, the payload, where the reader then stands, and the drops it reported. */
  datatype Physical = Physical(code: nat, fragment: Bytes, next: nat, reports: seq<nat>)

  /** A type byte as the reader's integer: bytes are signed, and 5 and 6 read as the reader's own codes. */
  function CodeOf(b: Byte): nat { if b < 128 then b else b + TWO_32 - 256 }

  /** The physical record whose header starts at p, in a buffer that ends at `limit`; `whole` when the
      buffer holds a full block. */
  function HeaderAt(extend: Extend, checksum: bool, c: Bytes, p: nat, limit: nat, whole: bool): (r: Physical)
    requires p + HEADER <= limit <= |c|
    ensures p < r.next <= limit
  {
    var lo: int, hi: int := c[p + 4], c[p + 5];
    var n := lo + 256 * hi;
    if HEADER + n > limit - p then
      if whole then Physical(BAD, [], limit, [limit - p]) else Physical(EOF, [], limit, [])
    else if c[p + 6] == 0 && n == 0 then
      Physical(BAD, [], limit, [])
    else if checksum && extend(0, c[p + 6..p + HEADER + n]) != Unmask(DecodeFixed32(c[p..p + 4])) then
      Physical(BAD, [], limit, [limit - p])
    else
      Physical(CodeOf(c[p + 6]), c[p + HEADER..p + HEADER + n], p + HEADER + n, [])
  }

  function PhysicalAt(extend: Extend, checksum: bool, c: Bytes, p: nat): (r: Physical)
    requires p <= |c|
    ensures r.next <= |c|
    ensures r.code != EOF ==> p < r.next
    decreases |c| - p
  {
    var whole := BlockEnd(p) <= |c|;
    var limit := if whole then BlockEnd(p) else |c|;
    if p + HEADER <= limit then HeaderAt(extend, checksum, c, p, limit, whole)
    else if whole then PhysicalAt(extend, checksum, c, limit)
    else Physical(EOF, [], |c|, [])
  }

  /** A logical read, with every drop reported up to its end. */
  datatype Logical = Logical(found: bool, record: Bytes, next: nat, reports: seq<nat>)

  /** The record being put together from its pieces. */
  datatype Assembly = Going(inFragment: bool, scratch: Bytes) | Done(found: bool, record: Bytes)

  /** What one physical read does to the record under assembly. */
  function Assemble(now: Assembly, code: nat, fragment: Bytes): Assembly
    requires now.Going?
  {
    if code == FULL then Done(true, fragment)
    else if code == FIRST then Going(true, fragment)
    else if code == MIDDLE then (if now.inFragment then Going(true, now.scratch + fragment) else now)
    else if code == LAST then (if now.inFragment then Done(true, now.scratch + fragment) else now)
    else if code == EOF then Done(false, [])
    else if code == BAD && !now.inFragment then now
    else Going(false, [])
  }

  /** The bytes it reports as dropped. */
  function Dropped(now: Assembly, code: nat, fragment: Bytes): seq<nat>
    requires now.Going?
  {
    if code == FULL || code == FIRST then (if now.inFragment && now.scratch != [] then [|now.scratch|] else [])
    else if code == MIDDLE || code == LAST then (if now.inFragment then [] else [|fragment|])
    else if code == EOF then []
    else if code == BAD then (if now.inFragment then [|now.scratch|] else [])
    else [|fragment| + if now.inFragment then |now.scratch| else 0]
  }

  function RecordAt(extend: Extend, checksum: bool, c: Bytes, p: nat, now: Assembly, reports: seq<nat>): (r: Logical)
    requires p <= |c| && now.Going?
    ensures r.next <= |c| && (r.found ==> p < r.next)
    decreases |c| - p
  {
    var ph := PhysicalAt(extend, checksum, c, p);
    var sofar := reports + ph.reports + Dropped(now, ph.code, ph.fragment);
    match Assemble(now, ph.code, ph.fragment)
    case Done(found, record) => Logical(found, record, ph.next, sofar)
    case Going(inFragment, scratch) => RecordAt(extend, checksum, c, ph.next, Going(inFragment, scratch), sofar)
  }

  class Reader {
    const extend: Extend
    const checksum: bool
    const file: Bytes
    var consumed: nat        // bytes read from the file so far
    var buffer: Bytes
    var eof: bool
    var reports: seq<nat>

    ghost predicate Valid()
      reads this
    {
      && |buffer| <= consumed <= |file|
      && buffer == file[consumed - |buffer|..consumed]
      && (if eof then consumed == |file| && |buffer| <= |file| % BLOCK
          else consumed % BLOCK == 0 && |buffer| <= BLOCK)
    }

    ghost function Position(): (p: nat)
      requires Valid()
      reads this
      ensures p <= |file|
    {
      consumed - |buffer|
    }

    constructor (extend: Extend, checksum: bool, file: Bytes)
      ensures Valid() && Position() == 0 && reports == []
      ensures this.extend == extend && this.checksum == checksum && this.file == file
    {
      this.extend, this.checksum, this.file := extend, checksum, file;
      consumed, buffer, eof, reports := 0, [], false, [];
    }

    method ReadPhysicalRecord() returns (code: nat, fragment: Bytes)
      requires Valid()
      modifies this
      ensures Valid()
      ensures var r := PhysicalAt(extend, checksum, file, old(Position()));
              code == r.code && fragment == r.fragment && Position() == r.next && reports == old(reports) + r.reports
    {
      ghost var result := PhysicalAt(extend, checksum, file, Position());
      while |buffer| < HEADER
        invariant Valid() && reports == old(reports)
        invariant PhysicalAt(extend, checksum, file, Position()) == result
        decreases |file| - consumed, !eof
      {
        BufferEnds();
        if eof {
          buffer := [];
          return EOF, [];
        }
        Refill();
      }
      BufferEnds();
      code, fragment := Parse();
    }

    /** Where the buffer ends relative to the block its position lies in. */
    lemma BufferEnds()
      requires Valid()
      ensures eof ==> |file| < BlockEnd(Position())
      ensures !eof && buffer != [] ==> consumed == BlockEnd(Position())
      ensures !eof && buffer == [] ==> Position() == consumed
    {
    }

    /** Reads the next block into the buffer, dropping what was left of this one. */
    method Refill()
      requires Valid() && !eof
      modifies this
      ensures Valid() && reports == old(reports)
      ensures Position() == old(consumed)
      ensures consumed > old(consumed) || eof
    {
      var n := if |file| - consumed < BLOCK then |file| - consumed else BLOCK;
      buffer := file[consumed..consumed + n];
      consumed := consumed + n;
      if n < BLOCK {
        eof := true;
        BlockOf(consumed - n, n);
      }
    }

    method Parse() returns (code: nat, fragment: Bytes)
      requires Valid() && |buffer| >= HEADER
      modifies this
      ensures Valid()
      ensures var r := HeaderAt(extend, checksum, file, old(Position()), old(consumed), !old(eof));
              code == r.code && fragment == r.fragment && Position() == r.next && reports == old(reports) + r.reports
    {
      ghost var p := Position();
      assert forall i | 0 <= i < |buffer| :: buffer[i] == file[p + i];
      var lo: int, hi: int := buffer[4], buffer[5];
      var n := lo + 256 * hi;
      if HEADER + n > |buffer| {
        var drop := |buffer|;
        buffer := [];
        if !eof {
          reports := reports + [drop];
          return BAD, [];
        }
        return EOF, [];
      }
      if buffer[6] == 0 && n == 0 {
        buffer := [];
        return BAD, [];
      }
      assert buffer[6..HEADER + n] == file[p + 6..p + HEADER + n];
      assert buffer[..4] == file[p..p + 4];
      assert buffer[HEADER..HEADER + n] == file[p + HEADER..p + HEADER + n];
      if checksum && extend(0, buffer[6..HEADER + n]) != Unmask(DecodeFixed32(buffer[..4])) {
        var drop := |buffer|;
        buffer := [];
        reports := reports + [drop];
        return BAD, [];
      }
      code, fragment := CodeOf(buffer[6]), buffer[HEADER..HEADER + n];
      buffer := buffer[HEADER + n..];
    }

    method ReadRecord() returns (found: bool, record: Bytes)
      requires Valid()
      modifies this
      ensures Valid()
      ensures Logical(found, record, Position(), reports) ==
              RecordAt(extend, checksum, file, old(Position()), Going(false, []), old(reports))
    {
      hide PhysicalAt, Dropped;
      var now := Going(false, []);
      ghost var result := RecordAt(extend, checksum, file, Position(), now, reports);
      while true
        invariant Valid() && now.Going?
        invariant RecordAt(extend, checksum, file, Position(), now, reports) == result
        decreases |file| - Position()
      {
        var code, fragment := ReadPhysicalRecord();
        now := Accept(now, code, fragment);
        if now.Done? {
          return now.found, now.record;
        }
      }
    }

    /** One turn of the reassembly loop. */
    method Accept(now: Assembly, code: nat, fragment: Bytes) returns (next: Assembly)
      requires Valid() && now.Going?
      modifies this`reports
      ensures next == Assemble(now, code, fragment)
      ensures reports == old(reports) + Dropped(now, code, fragment)
    {
      var inFragment, scratch := now.inFragment, now.scratch;
      if code == FULL {
        if inFragment && scratch != [] {
          reports := reports + [|scratch|];
        }
        return Done(true, fragment);
      } else if code == FIRST {
        if inFragment && scratch != [] {
          reports := reports + [|scratch|];
        }
        inFragment, scratch := true, fragment;
      } else if code == MIDDLE {
        if !inFragment {
          reports := reports + [|fragment|];
        } else {
          scratch := scratch + fragment;
        }
      } else if code == LAST {
        if !inFragment {
          reports := reports + [|fragment|];
        } else {
          return Done(true, scratch + fragment);
        }
      } else if code == EOF {
        return Done(false, []);
      } else if code == BAD {
        if inFragment {
          reports := reports + [|scratch|];
          inFragment, scratch := false, [];
        }
      } else {
        reports := reports + [|fragment| + if inFragment then |scratch| else 0];
        inFragment, scratch := false, [];
      }
      next := Going(inFragment, scratch);
    }
  }
}
