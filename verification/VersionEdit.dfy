/** The record of a descriptor file and its encoding (leveldb/db/version_edit.cc). */
module VersionEdits {
  import opened Options
  import opened Coding
  import Versions

  datatype Pointer = Pointer(level: nat, key: Bytes)
  datatype Removed = Removed(level: nat, number: nat)
  datatype Added = Added(level: nat, number: nat, size: nat, smallest: Bytes, largest: Bytes)

  datatype Edit = Edit(comparator: Option<Bytes>, logNumber: Option<nat>, prevLogNumber: Option<nat>,
                       nextFileNumber: Option<nat>, lastSequence: Option<nat>,
                       compactPointers: seq<Pointer>, deletedFiles: set<Removed>, newFiles: seq<Added>)

  const CLEARED := Edit(None, None, None, None, None, [], {}, [])

  /** One tagged item of the encoding. */
  datatype Field =
    | Comparator(name: Bytes)
    | LogNumber(n: nat)
    | NextFileNumber(n: nat)
    | LastSequence(n: nat)
    | CompactPointer(p: Pointer)
    | DeletedFile(d: Removed)
    | NewFile(f: Added)
    | PrevLogNumber(n: nat)

  /** Values that the encoding can carry: 64-bit numbers, levels that exist, and non-empty internal keys. */
  predicate KeyFits(k: Bytes) { 0 < |k| < TWO_32 }

  predicate Fits(x: Field) {
    match x
    case Comparator(name) => |name| < TWO_32
    case LogNumber(n) => n < TWO_64
    case NextFileNumber(n) => n < TWO_64
    case LastSequence(n) => n < TWO_64
    case PrevLogNumber(n) => n < TWO_64
    case CompactPointer(p) => p.level < Versions.NUM_LEVELS && KeyFits(p.key)
    case DeletedFile(d) => d.level < Versions.NUM_LEVELS && d.number < TWO_64
    case NewFile(f) =>
      f.level < Versions.NUM_LEVELS && f.number < TWO_64 && f.size < TWO_64 && KeyFits(f.smallest) && KeyFits(f.largest)
  }

  function TagOf(x: Field): nat {
    match x
    case Comparator(_) => 1
    case LogNumber(_) => 2
    case NextFileNumber(_) => 3
    case LastSequence(_) => 4
    case CompactPointer(_) => 5
    case DeletedFile(_) => 6
    case NewFile(_) => 7
    case PrevLogNumber(_) => 9
  }

  function EncodeBody(x: Field): Bytes {
    match x
    case Comparator(name) => PutLengthPrefixed(name)
    case LogNumber(n) => EncodeVarint(n)
    case NextFileNumber(n) => EncodeVarint(n)
    case LastSequence(n) => EncodeVarint(n)
    case PrevLogNumber(n) => EncodeVarint(n)
    case CompactPointer(p) => EncodeVarint(p.level) + PutLengthPrefixed(p.key)
    case DeletedFile(d) => EncodeVarint(d.level) + EncodeVarint(d.number)
    case NewFile(f) =>
      EncodeVarint(f.level) +
      (EncodeVarint(f.number) + (EncodeVarint(f.size) + (PutLengthPrefixed(f.smallest) + PutLengthPrefixed(f.largest))))
  }

  function EncodeField(x: Field): Bytes { EncodeVarint(TagOf(x)) + EncodeBody(x) }

  // ----- decoding -----

  function GetLevel(b: Bytes): (r: Decoded<nat>)
    ensures r.Got? ==> |r.rest| < |b|
  {
    match GetVarint32(b)
    case Failed => Failed
    case Got(v, rest) => if v < Versions.NUM_LEVELS then Got(v, rest) else Failed
  }

  function GetInternalKey(b: Bytes): (r: Decoded<Bytes>)
    ensures r.Got? ==> |r.rest| < |b|
  {
    match GetLengthPrefixed(b)
    case Failed => Failed
    case Got(key, rest) => if key == [] then Failed else Got(key, rest)
  }

  function NumberField(tag: nat, n: nat): Field {
    if tag == 2 then LogNumber(n) else if tag == 3 then NextFileNumber(n)
    else if tag == 4 then LastSequence(n) else PrevLogNumber(n)
  }

  function GetNewFile(b: Bytes): (r: Decoded<Field>)
    ensures r.Got? ==> |r.rest| < |b|
  {
    var level := GetLevel(b);
    if level.Failed? then Failed else
    var number := GetVarint64(level.rest);
    if number.Failed? then Failed else
    var size := GetVarint64(number.rest);
    if size.Failed? then Failed else
    var smallest := GetInternalKey(size.rest);
    if smallest.Failed? then Failed else
    var largest := GetInternalKey(smallest.rest);
    if largest.Failed? then Failed else
    Got(NewFile(Added(level.value, number.value, size.value, smallest.value, largest.value)), largest.rest)
  }

  function GetBody(tag: nat, b: Bytes): (r: Decoded<Field>)
    ensures r.Got? ==> |r.rest| < |b|
  {
    if tag == 1 then
      (match GetLengthPrefixed(b)
       case Failed => Failed
       case Got(name, rest) => Got(Comparator(name), rest))
    else if tag == 2 || tag == 3 || tag == 4 || tag == 9 then
      (match GetVarint64(b)
       case Failed => Failed
       case Got(n, rest) => Got(NumberField(tag, n), rest))
    else if tag == 5 then
      (match GetLevel(b)
       case Failed => Failed
       case Got(level, rest) =>
         match GetInternalKey(rest)
         case Failed => Failed
         case Got(key, rest') => Got(CompactPointer(Pointer(level, key)), rest'))
    else if tag == 6 then
      (match GetLevel(b)
       case Failed => Failed
       case Got(level, rest) =>
         match GetVarint64(rest)
         case Failed => Failed
         case Got(n, rest') => Got(DeletedFile(Removed(level, n)), rest'))
    else if tag == 7 then GetNewFile(b)
    else Failed
  }

  function DecodeField(b: Bytes): (r: Decoded<Field>)
    ensures r.Got? ==> |r.rest| < |b|
  {
    match GetVarint32(b)
    case Failed => Failed
    case Got(tag, rest) => GetBody(tag, rest)
  }

  /** The first byte of a field names its kind. */
  lemma TagByte(x: Field)
    ensures EncodeField(x)[0] == match x
            case Comparator(_) => 1
            case LogNumber(_) => 2
            case NextFileNumber(_) => 3
            case LastSequence(_) => 4
            case CompactPointer(_) => 5
            case DeletedFile(_) => 6
            case NewFile(_) => 7
            case PrevLogNumber(_) => 9
  {
  }

  /** Whatever decodes starts with the tag of its kind; with any other tag nothing does. */
  lemma TagDecides(b: Bytes)
    ensures DecodeField(b).Got? ==>
              && GetVarint32(b).Got?
              && GetVarint32(b).value == match DecodeField(b).value
                 case Comparator(_) => 1
                 case LogNumber(_) => 2
                 case NextFileNumber(_) => 3
                 case LastSequence(_) => 4
                 case CompactPointer(_) => 5
                 case DeletedFile(_) => 6
                 case NewFile(_) => 7
                 case PrevLogNumber(_) => 9
  {
    hide GetVarint32, GetVarint64, GetLengthPrefixed, GetInternalKey, GetLevel;
  }

  lemma LevelRoundTrip(level: nat, rest: Bytes)
    requires level < Versions.NUM_LEVELS
    ensures GetLevel(EncodeVarint(level) + rest) == Got(level, rest)
  {
  }

  lemma KeyRoundTrip(key: Bytes, rest: Bytes)
    requires KeyFits(key)
    ensures GetInternalKey(PutLengthPrefixed(key) + rest) == Got(key, rest)
  {
    hide PutLengthPrefixed, GetLengthPrefixed;
    LengthPrefixedRoundTrip(key, rest);
  }

  lemma Assoc(a: Bytes, b: Bytes, c: Bytes)
    ensures (a + b) + c == a + (b + c)
  {
  }

  lemma NewFileRoundTrip(f: Added, rest: Bytes)
    requires Fits(NewFile(f))
    ensures GetNewFile(EncodeBody(NewFile(f)) + rest) == Got(NewFile(f), rest)
  {
    hide EncodeVarint, GetVarint64, PutLengthPrefixed, GetInternalKey, GetLevel;
    var a, b, c, d, e := EncodeVarint(f.level), EncodeVarint(f.number), EncodeVarint(f.size),
        PutLengthPrefixed(f.smallest), PutLengthPrefixed(f.largest);
    KeyRoundTrip(f.largest, rest);
    KeyRoundTrip(f.smallest, e + rest);
    GetVarintRoundTrip(f.size, d + (e + rest));
    GetVarintRoundTrip(f.number, c + (d + (e + rest)));
    LevelRoundTrip(f.level, b + (c + (d + (e + rest))));
    Assoc(a, b + (c + (d + e)), rest);
    Assoc(b, c + (d + e), rest);
    Assoc(c, d + e, rest);
    Assoc(d, e, rest);
  }

  lemma BodyRoundTrip(x: Field, rest: Bytes)
    requires Fits(x)
    ensures GetBody(TagOf(x), EncodeBody(x) + rest) == Got(x, rest)
  {
    hide EncodeVarint, GetVarint64, GetLengthPrefixed, PutLengthPrefixed, GetInternalKey, GetLevel, GetNewFile;
    match x
    case Comparator(name) => LengthPrefixedRoundTrip(name, rest);
    case LogNumber(n) => GetVarintRoundTrip(n, rest);
    case NextFileNumber(n) => GetVarintRoundTrip(n, rest);
    case LastSequence(n) => GetVarintRoundTrip(n, rest);
    case PrevLogNumber(n) => GetVarintRoundTrip(n, rest);
    case CompactPointer(p) =>
      KeyRoundTrip(p.key, rest);
      LevelRoundTrip(p.level, PutLengthPrefixed(p.key) + rest);
      Assoc(EncodeVarint(p.level), PutLengthPrefixed(p.key), rest);
    case DeletedFile(d) =>
      GetVarintRoundTrip(d.number, rest);
      LevelRoundTrip(d.level, EncodeVarint(d.number) + rest);
      Assoc(EncodeVarint(d.level), EncodeVarint(d.number), rest);
    case NewFile(f) => NewFileRoundTrip(f, rest);
  }

  lemma FieldRoundTrip(x: Field, rest: Bytes)
    requires Fits(x)
    ensures DecodeField(EncodeField(x) + rest) == Got(x, rest)
  {
    hide EncodeVarint, GetVarint32, EncodeBody, GetBody;
    GetVarintRoundTrip(TagOf(x), EncodeBody(x) + rest);
    Assoc(EncodeVarint(TagOf(x)), EncodeBody(x), rest);
    BodyRoundTrip(x, rest);
  }

  // ----- whole edits -----

  function EncodeFields(xs: seq<Field>): Bytes {
    if xs == [] then [] else EncodeField(xs[0]) + EncodeFields(xs[1..])
  }

  lemma {:induction false} EncodeConcat(a: seq<Field>, b: seq<Field>)
    ensures EncodeFields(a + b) == EncodeFields(a) + EncodeFields(b)
  {
    hide EncodeField;
    if a == [] {
      assert a + b == b;
    } else {
      EncodeConcat(a[1..], b);
      assert (a + b)[1..] == a[1..] + b;
      Assoc(EncodeField(a[0]), EncodeFields(a[1..]), EncodeFields(b));
    }
  }

  /** The fields that decode, and whether they reach the end. */
  datatype Parse = Parse(fields: seq<Field>, complete: bool)

  function ParseFields(b: Bytes): Parse
    decreases |b|
  {
    if b == [] then Parse([], true)
    else
      match DecodeField(b)
      case Failed => Parse([], false)
      case Got(x, rest) => var p := ParseFields(rest); Parse([x] + p.fields, p.complete)
  }

  lemma {:induction false} ParseEncoded(xs: seq<Field>)
    requires forall i | 0 <= i < |xs| :: Fits(xs[i])
    ensures ParseFields(EncodeFields(xs)) == Parse(xs, true)
  {
    hide EncodeField, DecodeField, Fits;
    if xs != [] {
      FieldRoundTrip(xs[0], EncodeFields(xs[1..]));
      ParseEncoded(xs[1..]);
      Shorter(xs[0]);
    }
  }

  lemma Shorter(x: Field)
    ensures EncodeField(x) != []
  {
  }

  /** What one decoded field does to the edit. */
  function Apply(e: Edit, x: Field): Edit {
    match x
    case Comparator(name) => e.(comparator := Some(name))
    case LogNumber(n) => e.(logNumber := Some(n))
    case NextFileNumber(n) => e.(nextFileNumber := Some(n))
    case LastSequence(n) => e.(lastSequence := Some(n))
    case PrevLogNumber(n) => e.(prevLogNumber := Some(n))
    case CompactPointer(p) => e.(compactPointers := e.compactPointers + [p])
    case DeletedFile(d) => e.(deletedFiles := e.deletedFiles + {d})
    case NewFile(f) => e.(newFiles := e.newFiles + [f])
  }

  function ApplyAll(e: Edit, xs: seq<Field>): Edit
    decreases |xs|
  {
    if xs == [] then e else ApplyAll(Apply(e, xs[0]), xs[1..])
  }

  lemma {:induction false} ApplyConcat(e: Edit, a: seq<Field>, b: seq<Field>)
    ensures ApplyAll(e, a + b) == ApplyAll(ApplyAll(e, a), b)
    decreases |a|
  {
    hide Apply;
    if a == [] {
      assert a + b == b;
    } else {
      ApplyConcat(Apply(e, a[0]), a[1..], b);
      assert (a + b)[1..] == a[1..] + b;
    }
  }

  ghost predicate EditFits(e: Edit) {
    && (e.comparator.Some? ==> Fits(Comparator(e.comparator.value)))
    && (e.logNumber.Some? ==> Fits(LogNumber(e.logNumber.value)))
    && (e.prevLogNumber.Some? ==> Fits(PrevLogNumber(e.prevLogNumber.value)))
    && (e.nextFileNumber.Some? ==> Fits(NextFileNumber(e.nextFileNumber.value)))
    && (e.lastSequence.Some? ==> Fits(LastSequence(e.lastSequence.value)))
    && (forall i | 0 <= i < |e.compactPointers| :: Fits(CompactPointer(e.compactPointers[i])))
    && (forall d | d in e.deletedFiles :: Fits(DeletedFile(d)))
    && (forall i | 0 <= i < |e.newFiles| :: Fits(NewFile(e.newFiles[i])))
  }

  /** The encoding of an edit is that of fields which, applied to a cleared edit, give the edit. */
  ghost predicate Encodes(dst: Bytes, e: Edit, xs: seq<Field>) {
    && dst == EncodeFields(xs) && ApplyAll(CLEARED, xs) == e
    && forall i | 0 <= i < |xs| :: Fits(xs[i])
  }

  lemma AppendField(dst: Bytes, e: Edit, xs: seq<Field>, x: Field)
    requires Encodes(dst, e, xs) && Fits(x)
    ensures Encodes(dst + EncodeField(x), Apply(e, x), xs + [x])
  {
    hide EncodeField, Fits, Apply;
    EncodeConcat(xs, [x]);
    ApplyConcat(CLEARED, xs, [x]);
    assert EncodeFields([x]) == EncodeField(x) + [] && [x][1..] == [];
    assert ApplyAll(ApplyAll(CLEARED, xs), [x]) == Apply(e, x);
  }

  /** Appends one field, keeping track of the edit encoded so far. */
  method Put(dst: Bytes, x: Field, ghost e: Edit, ghost xs: seq<Field>)
    returns (dst': Bytes, ghost e': Edit, ghost xs': seq<Field>)
    requires Encodes(dst, e, xs) && Fits(x)
    ensures e' == Apply(e, x) && Encodes(dst', e', xs')
  {
    hide Encodes, Apply, EncodeField, Fits;
    AppendField(dst, e, xs, x);
    dst', e', xs' := dst + EncodeField(x), Apply(e, x), xs + [x];
  }

  /** VersionEdit::EncodeTo; the set of deleted files may be visited in any order. */
  method EncodeTo(e: Edit) returns (dst: Bytes, ghost xs: seq<Field>)
    requires EditFits(e)
    ensures Encodes(dst, e, xs)
  {
    hide Encodes, Fits, Apply;
    ghost var so: Edit;
    dst, so, xs := EncodeScalars(e);
    for i := 0 to |e.compactPointers|
      invariant Encodes(dst, so, xs)
                && so == e.(compactPointers := e.compactPointers[..i], deletedFiles := {}, newFiles := [])
    {
      dst, so, xs := PutPointer(dst, e.compactPointers[i], so, xs);
    }
    dst, so, xs := EncodeDeleted(dst, e, so, xs);
    for i := 0 to |e.newFiles|
      invariant Encodes(dst, so, xs) && so == e.(newFiles := e.newFiles[..i])
    {
      dst, so, xs := PutFile(dst, e.newFiles[i], so, xs);
    }
    assert e.newFiles[..|e.newFiles|] == e.newFiles;
  }

  method PutPointer(dst: Bytes, p: Pointer, ghost e: Edit, ghost xs: seq<Field>)
    returns (dst': Bytes, ghost e': Edit, ghost xs': seq<Field>)
    requires Encodes(dst, e, xs) && Fits(CompactPointer(p))
    ensures e' == e.(compactPointers := e.compactPointers + [p]) && Encodes(dst', e', xs')
  {
    hide Encodes, Fits;
    dst', e', xs' := Put(dst, CompactPointer(p), e, xs);
  }

  method PutFile(dst: Bytes, f: Added, ghost e: Edit, ghost xs: seq<Field>)
    returns (dst': Bytes, ghost e': Edit, ghost xs': seq<Field>)
    requires Encodes(dst, e, xs) && Fits(NewFile(f))
    ensures e' == e.(newFiles := e.newFiles + [f]) && Encodes(dst', e', xs')
  {
    hide Encodes, Fits;
    dst', e', xs' := Put(dst, NewFile(f), e, xs);
  }

  method EncodeScalars(e: Edit) returns (dst: Bytes, ghost so: Edit, ghost xs: seq<Field>)
    requires EditFits(e)
    ensures Encodes(dst, so, xs) && so == e.(compactPointers := [], deletedFiles := {}, newFiles := [])
  {
    hide Encodes, Fits;
    dst, so, xs := [], CLEARED, [];
    Nothing();
    if e.comparator.Some? { dst, so, xs := Put(dst, Comparator(e.comparator.value), so, xs); }
    if e.logNumber.Some? { dst, so, xs := Put(dst, LogNumber(e.logNumber.value), so, xs); }
    if e.prevLogNumber.Some? { dst, so, xs := Put(dst, PrevLogNumber(e.prevLogNumber.value), so, xs); }
    if e.nextFileNumber.Some? { dst, so, xs := Put(dst, NextFileNumber(e.nextFileNumber.value), so, xs); }
    if e.lastSequence.Some? { dst, so, xs := Put(dst, LastSequence(e.lastSequence.value), so, xs); }
  }

  method EncodeDeleted(dst: Bytes, e: Edit, ghost so: Edit, ghost xs: seq<Field>)
    returns (dst': Bytes, ghost so': Edit, ghost xs': seq<Field>)
    requires EditFits(e) && Encodes(dst, so, xs) && so == e.(deletedFiles := {}, newFiles := [])
    ensures Encodes(dst', so', xs') && so' == e.(newFiles := [])
  {
    hide Encodes, Fits;
    dst', so', xs' := dst, so, xs;
    var left := e.deletedFiles;
    while left != {}
      invariant left <= e.deletedFiles
      invariant Encodes(dst', so', xs') && so' == e.(deletedFiles := e.deletedFiles - left, newFiles := [])
      decreases |left|
    {
      var d :| d in left;
      dst', so', xs' := Put(dst', DeletedFile(d), so', xs');
      left := left - {d};
    }
  }

  lemma Nothing()
    ensures Encodes([], CLEARED, [])
  {
  }

  /** VersionEdit::DecodeFrom: fails when some field does not decode. */
  method DecodeFrom(src: Bytes) returns (ok: bool, e: Edit)
    ensures var p := ParseFields(src); ok == p.complete && e == ApplyAll(CLEARED, p.fields)
  {
    e := CLEARED;
    var input := src;
    ghost var p := ParseFields(src);
    while input != []
      invariant ParseFields(input).complete == p.complete
      invariant ApplyAll(e, ParseFields(input).fields) == ApplyAll(CLEARED, p.fields)
      decreases |input|
    {
      hide DecodeField, Apply;
      var d := DecodeField(input);
      if d.Failed? {
        return false, e;
      }
      ghost var rest := ParseFields(d.rest).fields;
      assert ([d.value] + rest)[1..] == rest;
      e := Apply(e, d.value);
      input := d.rest;
    }
    ok := true;
  }

  /** Decoding an encoded edit gives it back. */
  method RoundTrip(e: Edit) returns (r: Edit)
    requires EditFits(e)
    ensures r == e
  {
    hide EditFits, ParseFields, ApplyAll;
    var dst, xs := EncodeTo(e);
    ParseEncoded(xs);
    var ok;
    ok, r := DecodeFrom(dst);
  }
}
