/** Reading back any byte prefix of a log gives exactly the records that lie wholly inside it. */
module LogProofs {
  import opened Coding
  import opened LogFormat

  lemma ChecksumReads(extend: Extend, kind: Byte, fragment: Bytes)
    requires ExtendLaw(extend)
    ensures Unmask(DecodeFixed32(EncodeFixed32(Mask(extend(extend(0, [kind]), fragment)))))
            == extend(0, [kind] + fragment)
  {
    var crc := extend(extend(0, [kind]), fragment);
    Fixed32RoundTrip(Mask(crc), []);
    assert EncodeFixed32(Mask(crc)) + [] == EncodeFixed32(Mask(crc));
    UnmaskMask(crc);
  }

  /** The fields of a piece as found in the file. */
  lemma PieceFields(extend: Extend, c: Bytes, p: nat, kind: Byte, fragment: Bytes)
    requires |fragment| <= BLOCK - HEADER && p + HEADER + |fragment| <= |c|
    requires c[p..p + HEADER + |fragment|] == Emit(extend, kind, fragment)
    ensures c[p..p + 4] == EncodeFixed32(Mask(extend(extend(0, [kind]), fragment)))
    ensures c[p + 4] == |fragment| % 256 && c[p + 5] == |fragment| / 256 && c[p + 6] == kind
    ensures c[p + 6..p + HEADER + |fragment|] == [kind] + fragment
    ensures c[p + HEADER..p + HEADER + |fragment|] == fragment
  {
    var stored := EncodeFixed32(Mask(extend(extend(0, [kind]), fragment)));
    Slices(c, p, stored, [|fragment| % 256, |fragment| / 256], kind, fragment);
  }

  lemma Slices(c: Bytes, p: nat, a: Bytes, b: Bytes, kind: Byte, fragment: Bytes)
    requires |a| == 4 && |b| == 2 && p + 7 + |fragment| <= |c|
    requires c[p..p + 7 + |fragment|] == a + (b + [kind]) + fragment
    ensures c[p..p + 4] == a && c[p + 4] == b[0] && c[p + 5] == b[1] && c[p + 6] == kind
    ensures c[p + 6..p + 7 + |fragment|] == [kind] + fragment
    ensures c[p + 7..p + 7 + |fragment|] == fragment
  {
    var e := a + (b + [kind]) + fragment;
    assert forall i | 0 <= i < |e| :: c[p..p + |e|][i] == c[p + i] == e[i];
    assert forall i | 0 <= i < 4 :: c[p + i] == e[i] == a[i];
  }

  /** A piece wholly inside the buffer reads back as written. */
  lemma PieceReads(extend: Extend, checksum: bool, c: Bytes, p: nat, limit: nat, whole: bool,
                   kind: nat, fragment: Bytes)
    requires ExtendLaw(extend) && 1 <= kind <= 4 && |fragment| <= BLOCK - HEADER
    requires p + HEADER + |fragment| <= limit <= |c|
    requires c[p..p + HEADER + |fragment|] == Emit(extend, kind, fragment)
    ensures HeaderAt(extend, checksum, c, p, limit, whole) == Physical(kind, fragment, p + HEADER + |fragment|, [])
  {
    PieceFields(extend, c, p, kind, fragment);
    ChecksumReads(extend, kind, fragment);
  }

  /** A piece cut off by the end of the file reads as the end of the file. */
  lemma CutPieceReads(extend: Extend, checksum: bool, c: Bytes, p: nat, kind: nat, fragment: Bytes)
    requires kind < 256 && |fragment| <= BLOCK - HEADER
    requires p + HEADER <= |c| < p + HEADER + |fragment|
    requires c[p..] <= Emit(extend, kind, fragment)
    ensures HeaderAt(extend, checksum, c, p, |c|, false) == Physical(EOF, [], |c|, [])
  {
  }

  /** Reading where a header fits in the block and a piece that fits in the block was written. */
  lemma PieceAtReads(extend: Extend, checksum: bool, c: Bytes, full: Bytes, p: nat, kind: nat, fragment: Bytes)
    requires ExtendLaw(extend) && 1 <= kind <= 4 && |fragment| <= BLOCK - HEADER
    requires c <= full && p <= |c| && p + HEADER + |fragment| <= |full| && p + HEADER + |fragment| <= BlockEnd(p)
    requires full[p..p + HEADER + |fragment|] == Emit(extend, kind, fragment)
    ensures PhysicalAt(extend, checksum, c, p) ==
            if p + HEADER + |fragment| <= |c| then Physical(kind, fragment, p + HEADER + |fragment|, [])
            else Physical(EOF, [], |c|, [])
  {
    var end := p + HEADER + |fragment|;
    if end <= |c| {
      assert c[p..end] == full[p..end];
      var whole := BlockEnd(p) <= |c|;
      PieceReads(extend, checksum, c, p, if whole then BlockEnd(p) else |c|, whole, kind, fragment);
    } else if p + HEADER <= |c| {
      assert c[p..] <= full[p..end];
      CutPieceReads(extend, checksum, c, p, kind, fragment);
    }
  }

  /** A block's unused trailer is skipped. */
  lemma TrailerSkipped(extend: Extend, checksum: bool, c: Bytes, p: nat)
    requires p <= |c|
    ensures PhysicalAt(extend, checksum, c, p) ==
            if p + Padding(p) <= |c| then PhysicalAt(extend, checksum, c, p + Padding(p))
                else Physical(EOF, [], |c|, [])
  {
  }

  lemma FragmentParts(extend: Extend, full: Bytes, p: nat, data: Bytes, begin: bool)
    requires var f := Fragment(extend, p, data, begin); p + |f| <= |full| && full[p..p + |f|] == f
    ensures var n := FragmentLength(p, |data|);
            var kind := KindOf(begin, n == |data|);
            && 1 <= kind <= 4
            && full[p + Padding(p)..p + Padding(p) + HEADER + n] == Emit(extend, kind, data[..n])
  {
  }

  /** Reading where a record's first piece was written. */
  lemma FragmentReads(extend: Extend, checksum: bool, c: Bytes, full: Bytes, p: nat, data: Bytes, begin: bool)
    requires ExtendLaw(extend) && c <= full && p <= |c|
    requires var f := Fragment(extend, p, data, begin); p + |f| <= |full| && full[p..p + |f|] == f
    ensures var n := FragmentLength(p, |data|);
            var end := p + |Fragment(extend, p, data, begin)|;
            PhysicalAt(extend, checksum, c, p) ==
            if end <= |c| then Physical(KindOf(begin, n == |data|), data[..n], end, []) else Physical(EOF, [], |c|, [])
  {
    hide *;
    var f := Fragment(extend, p, data, begin);
    var pad, n := Padding(p), FragmentLength(p, |data|);
    TrailerSkipped(extend, checksum, c, p);
    if p + pad <= |c| {
      FragmentParts(extend, full, p, data, begin);
      PieceAtReads(extend, checksum, c, full, p + pad, KindOf(begin, n == |data|), data[..n]);
    }
  }

  /** What one good piece does to the record under assembly. */
  lemma PieceJoins(extend: Extend, checksum: bool, c: Bytes, p: nat, begin: bool, last: bool, fragment: Bytes,
                   next: nat,
                   scratch: Bytes, reports: seq<nat>)
    requires p <= |c| && next <= |c| && (begin ==> scratch == [])
    requires PhysicalAt(extend, checksum, c, p) == Physical(KindOf(begin, last), fragment, next, [])
    ensures RecordAt(extend, checksum, c, p, Going(!begin, scratch), reports) ==
            if last then Logical(true, scratch + fragment, next, reports)
            else RecordAt(extend, checksum, c, next, Going(true, scratch + fragment), reports)
  {
    assert begin ==> scratch + fragment == fragment;
    assert reports + [] + [] == reports;
  }

  lemma EndOfFile(extend: Extend, checksum: bool, c: Bytes, p: nat, now: Assembly, reports: seq<nat>)
    requires p <= |c| && now.Going? && PhysicalAt(extend, checksum, c, p) == Physical(EOF, [], |c|, [])
    ensures RecordAt(extend, checksum, c, p, now, reports) == Logical(false, [], |c|, reports)
  {
  }

  // ----- checksums -----

  /** At p stands a piece of type t with n bytes, whole, inside its block and with a good checksum. */
  ghost predicate GoodPiece(extend: Extend, checksum: bool, c: Bytes, p: nat, t: Byte, n: nat) {
    && p + HEADER + n <= |c| && p + HEADER + n <= BlockEnd(p)
    && (var lo: int, hi: int := c[p + 4], c[p + 5]; lo + 256 * hi == n) && c[p + 6] == t
    && (checksum ==> extend(0, c[p + 6..p + HEADER + n]) == Unmask(DecodeFixed32(c[p..p + 4])))
  }

  /** The length that the header at p gives, and where the reader's buffer ends there. */
  function LengthAt(c: Bytes, p: nat): nat
    requires p + HEADER <= |c|
  {
    var lo: int, hi: int := c[p + 4], c[p + 5]; lo + 256 * hi
  }

  function BufferEnd(c: Bytes, p: nat): nat { if BlockEnd(p) <= |c| then BlockEnd(p) else |c| }

  /** A whole piece stands at p, not one of the all-zero fillers, and the checksum in its header is not that of its
      type and payload. */
  ghost predicate Corrupt(extend: Extend, c: Bytes, p: nat) {
    && p + HEADER <= BufferEnd(c, p) && p + HEADER + LengthAt(c, p) <= BufferEnd(c, p)
    && !(c[p + 6] == 0 && LengthAt(c, p) == 0)
    && Unmask(DecodeFixed32(c[p..p + 4])) != extend(0, [c[p + 6]] + c[p + HEADER..p + HEADER + LengthAt(c, p)])
  }

  /** Nothing of it is handed on; the rest of the buffer is reported as dropped, and reading goes on behind it. */
  lemma CorruptIsDropped(extend: Extend, c: Bytes, p: nat)
    requires Corrupt(extend, c, p)
    ensures PhysicalAt(extend, true, c, p) == Physical(BAD, [], BufferEnd(c, p), [BufferEnd(c, p) - p])
  {
    hide DecodeFixed32, Unmask;
    assert c[p + 6..p + HEADER + LengthAt(c, p)] == [c[p + 6]] + c[p + HEADER..p + HEADER + LengthAt(c, p)];
  }

  /** A header whose length points past the buffer: in a whole block it is reported as dropped, at the end of the file
      it is a write that did not finish.  A header of zeros without payload is skipped in silence. */
  lemma OtherHeaders(extend: Extend, checksum: bool, c: Bytes, p: nat)
    requires p + HEADER <= BufferEnd(c, p)
    ensures p + HEADER + LengthAt(c, p) > BufferEnd(c, p) ==>
              PhysicalAt(extend, checksum, c, p) ==
              if BlockEnd(p) <= |c| then Physical(BAD, [], BufferEnd(c, p), [BufferEnd(c, p) - p])
              else Physical(EOF, [], |c|, [])
    ensures c[p + 6] == 0 && LengthAt(c, p) == 0 ==>
              PhysicalAt(extend, checksum, c, p) == Physical(BAD, [], BufferEnd(c, p), [])
  {
  }

  /** For the record under assembly: what was gathered of it is dropped and reported too. */
  lemma CorruptReadOn(extend: Extend, c: Bytes, p: nat, now: Assembly, reports: seq<nat>)
    requires Corrupt(extend, c, p) && now.Going?
    ensures RecordAt(extend, true, c, p, now, reports) ==
            RecordAt(extend, true, c, BufferEnd(c, p), if now.inFragment then Going(false, []) else now,
                     reports + [BufferEnd(c, p) - p] + if now.inFragment then [|now.scratch|] else [])
  {
    hide PhysicalAt, Corrupt;
    CorruptIsDropped(extend, c, p);
  }

  /** A piece of a record: where it starts, its type and its length. */
  datatype Piece = Piece(at: nat, kind: Byte, length: nat)

  function Payload(c: Bytes, q: Piece): Bytes
    requires q.at + HEADER + q.length <= |c|
  {
    c[q.at + HEADER..q.at + HEADER + q.length]
  }

  /** The pieces stand in the file one after another, each with the checksum of its type and payload in its header,
      and give these bytes together. */
  ghost predicate Checked(extend: Extend, c: Bytes, pieces: seq<Piece>, bytes: Bytes) {
    && (forall i | 0 <= i < |pieces| :: GoodPiece(extend, true, c, pieces[i].at, pieces[i].kind, pieces[i].length))
    && (forall i | 0 < i < |pieces| :: pieces[i - 1].at + HEADER + pieces[i - 1].length <= pieces[i].at)
    && bytes == Joined(c, pieces)
  }

  function Joined(c: Bytes, pieces: seq<Piece>): Bytes {
    if pieces == [] then []
    else
      var q := pieces[|pieces| - 1];
      Joined(c, pieces[..|pieces| - 1]) + if q.at + HEADER + q.length <= |c| then Payload(c, q) else []
  }

  /** A record is one whole piece, or a first one, some in between, and a last one. */
  ghost predicate Whole(pieces: seq<Piece>) {
    || (|pieces| == 1 && pieces[0].kind == FULL)
    || (|pieces| >= 2 && Started(pieces[..|pieces| - 1]) && pieces[|pieces| - 1].kind == LAST)
  }

  ghost predicate Started(pieces: seq<Piece>) {
    && |pieces| >= 1 && pieces[0].kind == FIRST
    && forall i | 0 < i < |pieces| :: pieces[i].kind == MIDDLE
  }

  /** What a physical read hands on is a good piece that ends where the reader then stands. */
  lemma HandedOnIsGood(extend: Extend, c: Bytes, p: nat) returns (q: Piece)
    requires p <= |c|
    ensures var ph := PhysicalAt(extend, true, c, p);
            ph.code <= LAST ==>
              && GoodPiece(extend, true, c, q.at, q.kind, q.length) && q.kind == ph.code
              && p <= q.at && ph.fragment == Payload(c, q) && ph.next == q.at + HEADER + q.length
    decreases |c| - p
  {
    hide DecodeFixed32, Unmask;
    q := Piece(0, 0, 0);
    if p + HEADER <= BufferEnd(c, p) {
      q := Piece(p, c[p + 6], LengthAt(c, p));
    } else if BlockEnd(p) <= |c| {
      q := HandedOnIsGood(extend, c, BlockEnd(p));
    }
  }

  lemma OneMorePiece(extend: Extend, c: Bytes, pieces: seq<Piece>, bytes: Bytes, q: Piece)
    requires Checked(extend, c, pieces, bytes) && GoodPiece(extend, true, c, q.at, q.kind, q.length)
    requires |pieces| > 0 ==> pieces[|pieces| - 1].at + HEADER + pieces[|pieces| - 1].length <= q.at
    ensures Checked(extend, c, pieces + [q], bytes + Payload(c, q))
  {
    hide GoodPiece;
    assert q.at + HEADER + q.length <= |c| by { GoodFits(extend, c, q); }
    assert (pieces + [q])[..|pieces|] == pieces;
  }

  lemma GoodFits(extend: Extend, c: Bytes, q: Piece)
    requires GoodPiece(extend, true, c, q.at, q.kind, q.length)
    ensures q.at + HEADER + q.length <= |c|
  {
  }

  /** Where the reader stands with what it has gathered: the good pieces of a record that has begun. */
  ghost predicate Assembled(extend: Extend, c: Bytes, p: nat, now: Assembly, pieces: seq<Piece>) {
    now.Going? && (now.inFragment ==>
      && Started(pieces) && Checked(extend, c, pieces, now.scratch)
      && pieces[|pieces| - 1].at + HEADER + pieces[|pieces| - 1].length <= p)
  }

  /** Every record that is returned, from any bytes, consists of pieces whose checksums match. */
  lemma {:induction false} ReturnedIsChecked(extend: Extend, c: Bytes, p: nat, now: Assembly, reports: seq<nat>,
                                             pieces: seq<Piece>)
    returns (all: seq<Piece>)
    requires p <= |c| && Assembled(extend, c, p, now, pieces)
    ensures var r := RecordAt(extend, true, c, p, now, reports);
            r.found ==> Whole(all) && Checked(extend, c, all, r.record)
    decreases |c| - p
  {
    hide PhysicalAt, Dropped, GoodPiece, Checked;
    var ph := PhysicalAt(extend, true, c, p);
    var q := HandedOnIsGood(extend, c, p);
    var next := Assemble(now, ph.code, ph.fragment);
    all := [];
    if ph.code == FULL {
      all := OnePiece(extend, c, q);
    } else if ph.code == LAST && now.inFragment {
      OneMorePiece(extend, c, pieces, now.scratch, q);
      all := pieces + [q];
      assert all[..|pieces|] == pieces;
    } else if next.Going? {
      var more := GatherMore(extend, c, p, now, pieces, ph, q);
      var sofar := reports + ph.reports + Dropped(now, ph.code, ph.fragment);
      all := ReturnedIsChecked(extend, c, ph.next, next, sofar, more);
    }
  }

  lemma OnePiece(extend: Extend, c: Bytes, q: Piece) returns (pieces: seq<Piece>)
    requires GoodPiece(extend, true, c, q.at, q.kind, q.length)
    ensures pieces == [q] && Checked(extend, c, pieces, c[q.at + HEADER..q.at + HEADER + q.length])
  {
    pieces := [q];
    assert [q][..0] == [];
  }

  lemma GatherMore(extend: Extend, c: Bytes, p: nat, now: Assembly, pieces: seq<Piece>, ph: Physical, q: Piece)
    returns (more: seq<Piece>)
    requires Assembled(extend, c, p, now, pieces) && p <= ph.next && Assemble(now, ph.code, ph.fragment).Going?
    requires ph.code <= LAST ==>
               && GoodPiece(extend, true, c, q.at, q.kind, q.length) && q.kind == ph.code
               && p <= q.at && ph.fragment == Payload(c, q) && ph.next == q.at + HEADER + q.length
    ensures Assembled(extend, c, ph.next, Assemble(now, ph.code, ph.fragment), more)
  {
    hide GoodPiece, Checked;
    more := pieces;
    if ph.code == FIRST {
      more := OnePiece(extend, c, q);
    } else if ph.code == MIDDLE && now.inFragment {
      OneMorePiece(extend, c, pieces, now.scratch, q);
      more := pieces + [q];
    }
  }

  /** A good piece while a fragmented record is open, or while none is: what does not belong together is given up and
      reported, with its number of bytes. */
  lemma PieceAccepted(extend: Extend, checksum: bool, c: Bytes, p: nat, t: Byte, n: nat, now: Assembly,
                      reports: seq<nat>)
    requires GoodPiece(extend, checksum, c, p, t, n) && FULL <= t <= LAST && now.Going?
    ensures var next, payload := p + HEADER + n, c[p + HEADER..p + HEADER + n];
            var given := if now.inFragment && now.scratch != [] then [|now.scratch|] else [];
            RecordAt(extend, checksum, c, p, now, reports) ==
            if t == FULL then Logical(true, payload, next, reports + given)
            else if t == FIRST then RecordAt(extend, checksum, c, next, Going(true, payload), reports + given)
            else if !now.inFragment then RecordAt(extend, checksum, c, next, now, reports + [n])
            else if t == MIDDLE then
              RecordAt(extend, checksum, c, next, Going(true, now.scratch + payload), reports)
            else Logical(true, now.scratch + payload, next, reports)
  {
    hide DecodeFixed32, Unmask;
    GoodReads(extend, checksum, c, p, t, n);
    hide PhysicalAt;
    assert reports + [] == reports;
  }

  lemma GoodReads(extend: Extend, checksum: bool, c: Bytes, p: nat, t: Byte, n: nat)
    requires GoodPiece(extend, checksum, c, p, t, n) && t > 0
    ensures PhysicalAt(extend, checksum, c, p) == Physical(CodeOf(t), c[p + HEADER..p + HEADER + n], p + HEADER + n, [])
  {
  }

  /** A record of one byte, of which a bit was lost: with checksums on it is dropped and reported, and not found. */
  method LostBitIsDropped(extend: Extend) returns (found: bool, reports: seq<nat>)
    requires ExtendLaw(extend) && extend(0, [FULL, 8]) != extend(0, [FULL, 9])
    ensures !found && reports == [8]
  {
    var file := Emit(extend, FULL, [9])[..7] + [8];
    var reader := new Reader(extend, true, file);
    LostBitIsCorrupt(extend, file);
    CorruptReadOn(extend, file, 0, Going(false, []), []);
    assert [] + [8] + [] == [8];
    EndOfFile(extend, true, file, 8, Going(false, []), [8]);
    var record;
    found, record := reader.ReadRecord();
    reports := reader.reports;
  }

  lemma LostBitIsCorrupt(extend: Extend, c: Bytes)
    requires ExtendLaw(extend) && extend(0, [FULL, 8]) != extend(0, [FULL, 9])
    requires c == Emit(extend, FULL, [9])[..7] + [8]
    ensures |c| == 8 == BufferEnd(c, 0) && Corrupt(extend, c, 0)
  {
    hide DecodeFixed32, Unmask, EncodeFixed32, Mask;
    ChecksumReads(extend, FULL, [9]);
    assert c[0..4] == EncodeFixed32(Mask(extend(extend(0, [FULL]), [9])));
    assert [FULL as Byte] + [9] == [FULL, 9];
    assert [c[6]] + c[7..8] == [FULL, 8];
  }

  // ----- types that no writer uses -----

  /** Whether the read of that piece reports a drop. */
  ghost predicate Reported(extend: Extend, checksum: bool, c: Bytes, p: nat, now: Assembly)
    requires p <= |c| && now.Going?
  {
    var ph := PhysicalAt(extend, checksum, c, p);
    ph.reports + Dropped(now, ph.code, ph.fragment) != []
  }

  lemma HighTypeReads(extend: Extend, checksum: bool, c: Bytes, p: nat, t: Byte, n: nat)
    requires GoodPiece(extend, checksum, c, p, t, n) && t > LAST
    ensures PhysicalAt(extend, checksum, c, p) == Physical(CodeOf(t), c[p + HEADER..p + HEADER + n], p + HEADER + n, [])
  {
  }

  /** A good piece of an unknown type is reported exactly when its type is neither of the reader's own codes, or is
      that of a bad record while a fragmented record is open. */
  lemma HighTypeReported(extend: Extend, checksum: bool, c: Bytes, p: nat, t: Byte, n: nat, now: Assembly)
    requires GoodPiece(extend, checksum, c, p, t, n) && t > LAST && now.Going?
    ensures Reported(extend, checksum, c, p, now) <==> (t != EOF && t != BAD) || (t == BAD && now.inFragment)
  {
    HighTypeReads(extend, checksum, c, p, t, n);
    assert CodeOf(t) == EOF <==> t == EOF;
    assert CodeOf(t) == BAD <==> t == BAD;
  }

  /** What reading does there: code 5 ends it, code 6 outside a record is skipped, anything else gives up the record. */
  lemma HighTypeReadOn(extend: Extend, checksum: bool, c: Bytes, p: nat, t: Byte, n: nat, now: Assembly,
                       reports: seq<nat>)
    requires GoodPiece(extend, checksum, c, p, t, n) && t > LAST && now.Going?
    ensures var next := p + HEADER + n;
            var held := if now.inFragment then |now.scratch| else 0;
            RecordAt(extend, checksum, c, p, now, reports) ==
            if t == EOF then Logical(false, [], next, reports)
            else if t == BAD && !now.inFragment then RecordAt(extend, checksum, c, next, now, reports)
            else RecordAt(extend, checksum, c, next, Going(false, []), reports + [if t == BAD then held else n + held])
  {
    HighTypeReads(extend, checksum, c, p, t, n);
    assert reports + [] + [] == reports;
    assert reports + [] == reports;
  }

  lemma EmittedIsGood(extend: Extend, checksum: bool, c: Bytes, p: nat, kind: nat, fragment: Bytes)
    requires ExtendLaw(extend) && kind < 256 && |fragment| <= BLOCK - HEADER
    requires p + HEADER + |fragment| <= |c| && p + HEADER + |fragment| <= BlockEnd(p)
    requires c[p..p + HEADER + |fragment|] == Emit(extend, kind, fragment)
    ensures GoodPiece(extend, checksum, c, p, kind, |fragment|)
  {
    PieceFields(extend, c, p, kind, fragment);
    ChecksumReads(extend, kind, fragment);
  }

  /** A good piece of type 5 before a whole record: the reader finds nothing and reports nothing, although the record
      is there to be read after that piece. */
  method TypeFiveHidesRecord(extend: Extend, checksum: bool) returns (file: Bytes, found: bool, reports: seq<nat>)
    requires ExtendLaw(extend)
    ensures GoodPiece(extend, checksum, file, 0, EOF, 0)
    ensures RecordAt(extend, checksum, file, HEADER, Going(false, []), []) == Logical(true, [9], |file|, [])
    ensures !found && reports == []
  {
    hide Emit, RecordAt, PhysicalAt;
    var odd, good := Emit(extend, EOF, []), Emit(extend, FULL, [9]);
    file := odd + good;
    assert file[0..HEADER] == odd && file[HEADER..HEADER + HEADER + 1] == good;
    EmittedIsGood(extend, checksum, file, 0, EOF, []);
    HighTypeReadOn(extend, checksum, file, 0, EOF, 0, Going(false, []), []);
    PieceAtReads(extend, checksum, file, file, HEADER, FULL, [9]);
    PieceJoins(extend, checksum, file, HEADER, true, true, [9], |file|, [], []);
    var reader := new Reader(extend, checksum, file);
    var record;
    found, record := reader.ReadRecord();
    reports := reader.reports;
  }

  /** The bytes of a record's first piece and of its remainder, in the file. */
  lemma EncodeParts(extend: Extend, full: Bytes, p: nat, data: Bytes, begin: bool)
    requires var e := Encode(extend, p, data, begin); p + |e| <= |full| && full[p..p + |e|] == e
    ensures var e := Encode(extend, p, data, begin);
            var f := Fragment(extend, p, data, begin);
            var n := FragmentLength(p, |data|);
            && |f| <= |e| && full[p..p + |f|] == f
            && if n == |data| then |e| == |f|
               else var r := Encode(extend, p + |f|, data[n..], false);
                    |e| == |f| + |r| && full[p + |f|..p + |f| + |r|] == r
  {
    var e := Encode(extend, p, data, begin);
    var f := Fragment(extend, p, data, begin);
    assert full[p..p + |f|] == e[..|f|];
    assert full[p + |f|..p + |e|] == e[|f|..];
  }

  /** Reading where a record, or the remainder of one, was written: the whole record if the file holds its end. */
  lemma {:induction false} RecordReads(extend: Extend, checksum: bool, c: Bytes, full: Bytes, p: nat, data: Bytes,
                                       begin: bool, scratch: Bytes, reports: seq<nat>)
    requires ExtendLaw(extend) && c <= full && p <= |c| && (begin ==> scratch == [])
    requires var e := Encode(extend, p, data, begin); p + |e| <= |full| && full[p..p + |e|] == e
    ensures var end := p + |Encode(extend, p, data, begin)|;
            RecordAt(extend, checksum, c, p, Going(!begin, scratch), reports) ==
            if end <= |c| then Logical(true, scratch + data, end, reports) else Logical(false, [], |c|, reports)
    decreases |data|, HeaderOnly(p, |data|)
  {
    hide *;
    var f := Fragment(extend, p, data, begin);
    var n := FragmentLength(p, |data|);
    EncodeParts(extend, full, p, data, begin);
    FragmentReads(extend, checksum, c, full, p, data, begin);
    if p + |f| <= |c| {
      PieceJoins(extend, checksum, c, p, begin, n == |data|, data[..n], p + |f|, scratch, reports);
      if n == |data| {
        assert data[..n] == data;
      } else {
        HeaderOnlyOnce(p, |data|);
        RecordReads(extend, checksum, c, full, p + |f|, data[n..], false, scratch + data[..n], reports);
        Regroup(scratch, data[..n], data[n..]);
        assert data[..n] + data[n..] == data;
      }
    } else {
      EndOfFile(extend, checksum, c, p, Going(!begin, scratch), reports);
    }
  }

  /** Each record's bytes stand in the log where the records before it end. */
  lemma {:induction false} LogParts(extend: Extend, records: seq<Bytes>, k: nat)
    requires k <= |records|
    ensures Log(extend, records[..k]) <= Log(extend, records)
    ensures k < |records| ==>
              var before := Log(extend, records[..k]);
              var e := Encode(extend, |before|, records[k], true);
              |before| + |e| == |Log(extend, records[..k + 1])| <= |Log(extend, records)| && |e| > 0 &&
              Log(extend, records)[|before|..|before| + |e|] == e
  {
    hide Encode;
    if k == |records| {
      assert records[..k] == records;
    } else {
      var m := |records| - 1;
      assert records[..k + 1][..k] == records[..k];
      if k == m {
        assert records[..k + 1] == records;
      } else {
        LogParts(extend, records[..m], k);
        assert records[..m][..k] == records[..k] && records[..m][..k + 1] == records[..k + 1];
      }
    }
  }

  /** Writes a fresh log. */
  method WriteAll(extend: Extend, records: seq<Bytes>) returns (file: Bytes)
    ensures file == Log(extend, records)
  {
    hide Encode;
    var writer := new Writer(extend, []);
    for i := 0 to |records|
      invariant writer.Valid() && writer.extend == extend
      invariant writer.dest == Log(extend, records[..i])
    {
      writer.AddRecord(records[i]);
      assert records[..i + 1][..i] == records[..i];
    }
    file := writer.dest;
    assert records[..|records|] == records;
  }

  lemma LogGrows(extend: Extend, records: seq<Bytes>, i: nat, k: nat)
    ensures i <= k <= |records| ==> |Log(extend, records[..i])| <= |Log(extend, records[..k])|
  {
    hide *;
    if i <= k <= |records| {
      LogParts(extend, records[..k], i);
      assert records[..k][..i] == records[..i];
    }
  }

  lemma EmptyLog(extend: Extend, records: seq<Bytes>)
    ensures Log(extend, records[..0]) == []
  {
  }

  /** Nothing is read at the end of the file. */
  lemma EndReads(extend: Extend, checksum: bool, c: Bytes)
    ensures RecordAt(extend, checksum, c, |c|, Going(false, []), []) == Logical(false, [], |c|, [])
  {
  }

  /** Reading after the k-th record of a log that has been cut off somewhere at or after its end. */
  lemma NextReads(extend: Extend, checksum: bool, file: Bytes, records: seq<Bytes>, k: nat)
    requires ExtendLaw(extend) && file <= Log(extend, records) && k <= |records|
    requires |Log(extend, records[..k])| <= |file|
    ensures RecordAt(extend, checksum, file, |Log(extend, records[..k])|, Going(false, []), []) ==
            if k < |records| && |Log(extend, records[..k + 1])| <= |file|
            then Logical(true, records[k], |Log(extend, records[..k + 1])|, [])
            else Logical(false, [], |file|, [])
  {
    hide *;
    LogParts(extend, records, k);
    if k < |records| {
      RecordReads(extend, checksum, file, Log(extend, records), |Log(extend, records[..k])|, records[k], true, [], []);
      assert [] + records[k] == records[k];
    } else {
      assert records[..k] == records;
      EndReads(extend, checksum, file);
    }
  }

  /** Opens a log file and reads it to its end, as recovery does: it gets exactly the records whose last
      byte is in the file, and reports no drop. */
  method ReadAll(extend: Extend, checksum: bool, file: Bytes, ghost records: seq<Bytes>)
    returns (got: seq<Bytes>, reports: seq<nat>)
    requires ExtendLaw(extend) && file <= Log(extend, records)
    ensures got <= records && reports == []
    ensures |Log(extend, records[..|got|])| <= |file|
    ensures |got| < |records| ==> |file| < |Log(extend, records[..|got| + 1])|
    ensures forall k | 0 <= k <= |records| && |Log(extend, records[..k])| <= |file| :: k <= |got|
  {
    hide *;
    got := [];
    var reader := new Reader(extend, checksum, file);
    assert Log(extend, records[..0]) == [] by { EmptyLog(extend, records); }
    var found := true;
    while found
      invariant reader.Valid() && reader.reports == [] && got <= records
      invariant reader.extend == extend && reader.checksum == checksum && reader.file == file
      invariant |Log(extend, records[..|got|])| <= |file|
      invariant found ==> reader.Position() == |Log(extend, records[..|got|])|
      invariant !found && |got| < |records| ==> |file| < |Log(extend, records[..|got| + 1])|
      decreases found, |records| - |got|
    {
      NextReads(extend, checksum, file, records, |got|);
      var record: Bytes;
      found, record := reader.ReadRecord();
      if found {
        got := got + [record];
      }
    }
    reports := reader.reports;
    forall k | 0 <= k <= |records| && |Log(extend, records[..k])| <= |file| ensures k <= |got| {
      LogGrows(extend, records, |got| + 1, k);
    }
  }

  /** The records that a reader gets from position p on. */
  ghost function ReadFrom(extend: Extend, checksum: bool, c: Bytes, p: nat): seq<Bytes>
    requires p <= |c|
    decreases |c| - p
  {
    var r := RecordAt(extend, checksum, c, p, Going(false, []), []);
    if r.found then [r.record] + ReadFrom(extend, checksum, c, r.next) else []
  }

  /** What is read from a cut log is a front of its records, up to the first that does not end in the file. */
  lemma {:induction false} ReadFromCut(extend: Extend, checksum: bool, file: Bytes, records: seq<Bytes>, k: nat)
    returns (m: nat)
    requires ExtendLaw(extend) && file <= Log(extend, records) && k <= |records|
             && |Log(extend, records[..k])| <= |file|
    ensures k <= m <= |records| && ReadFrom(extend, checksum, file, |Log(extend, records[..k])|) == records[k..m]
    ensures |Log(extend, records[..m])| <= |file| && (m < |records| ==> |file| < |Log(extend, records[..m + 1])|)
    decreases |records| - k
  {
    hide Log, RecordAt;
    NextReads(extend, checksum, file, records, k);
    if k < |records| && |Log(extend, records[..k + 1])| <= |file| {
      m := ReadFromCut(extend, checksum, file, records, k + 1);
      assert [records[k]] + records[k + 1..m] == records[k..m];
    } else {
      m := k;
    }
  }
}
