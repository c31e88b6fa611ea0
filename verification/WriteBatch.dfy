/** Batches of updates and their encoding (leveldb/db/write_batch.cc). */
module WriteBatches {
  import opened Coding

  datatype Update = Put(key: Bytes, value: Bytes) | Delete(key: Bytes)

  const HEADER: nat := 12
  const TAG_DELETION: Byte := 0
  const TAG_VALUE: Byte := 1

  /** Strings whose length a varint32 can carry. */
  predicate Fits(u: Update) {
    |u.key| < TWO_32 && (u.Put? ==> |u.value| < TWO_32)
  }

  function EncodeUpdate(u: Update): (r: Bytes)
    ensures |r| > 0
  {
    match u
    case Put(key, value) => [TAG_VALUE] + PutLengthPrefixed(key) + PutLengthPrefixed(value)
    case Delete(key) => [TAG_DELETION] + PutLengthPrefixed(key)
  }

  function EncodeUpdates(us: seq<Update>): Bytes {
    if us == [] then [] else EncodeUpdates(us[..|us| - 1]) + EncodeUpdate(us[|us| - 1])
  }

  lemma {:induction false} EncodeConcat(a: seq<Update>, b: seq<Update>)
    ensures EncodeUpdates(a + b) == EncodeUpdates(a) + EncodeUpdates(b)
  {
    hide EncodeUpdate;
    if b == [] {
      assert a + b == a;
    } else {
      EncodeConcat(a, b[..|b| - 1]);
      assert (a + b)[..|a + b| - 1] == a + b[..|b| - 1];
    }
  }

  // ----- decoding -----

  function DecodeUpdate(b: Bytes): (r: Decoded<Update>)
    ensures r.Got? ==> |r.rest| < |b|
  {
    if b == [] then Failed
    else if b[0] == TAG_VALUE then
      match GetLengthPrefixed(b[1..])
      case Failed => Failed
      case Got(key, rest) =>
        (match GetLengthPrefixed(rest)
         case Failed => Failed
         case Got(value, rest') => Got(Put(key, value), rest'))
    else if b[0] == TAG_DELETION then
      match GetLengthPrefixed(b[1..])
      case Failed => Failed
      case Got(key, rest) => Got(Delete(key), rest)
    else Failed
  }

  /** The first byte of an update tells a value, 1, from a deletion, 0. */
  lemma TagByte(u: Update)
    ensures EncodeUpdate(u)[0] == if u.Put? then 1 else 0
  {
  }

  /** Whatever decodes starts with one of the two tags, and the tag tells which update it is. */
  lemma TagDecides(b: Bytes)
    ensures DecodeUpdate(b).Got? ==> b != [] && b[0] == if DecodeUpdate(b).value.Put? then 1 else 0
  {
  }

  lemma UpdateRoundTrip(u: Update, rest: Bytes)
    requires Fits(u)
    ensures DecodeUpdate(EncodeUpdate(u) + rest) == Got(u, rest)
  {
    hide GetLengthPrefixed, PutLengthPrefixed;
    var b := EncodeUpdate(u) + rest;
    match u
    case Put(key, value) =>
      var tail := PutLengthPrefixed(value) + rest;
      assert b[1..] == PutLengthPrefixed(key) + tail;
      LengthPrefixedRoundTrip(key, tail);
      LengthPrefixedRoundTrip(value, rest);
    case Delete(key) =>
      assert b[1..] == PutLengthPrefixed(key) + rest;
      LengthPrefixedRoundTrip(key, rest);
  }

  /** The updates up to the end of the data, or up to the first that does not decode. */
  datatype Parse = Parse(updates: seq<Update>, complete: bool)

  function ParseUpdates(b: Bytes): Parse
    decreases |b|
  {
    if b == [] then Parse([], true)
    else
      match DecodeUpdate(b)
      case Failed => Parse([], false)
      case Got(u, rest) =>
        var p := ParseUpdates(rest);
        Parse([u] + p.updates, p.complete)
  }

  lemma {:induction false} ParseEncoded(us: seq<Update>)
    requires forall u | u in us :: Fits(u)
    ensures ParseUpdates(EncodeUpdates(us)) == Parse(us, true)
  {
    hide EncodeUpdates, DecodeUpdate, EncodeUpdate;
    if us == [] {
      EncodeNone();
    } else {
      var rest := EncodeUpdates(us[1..]);
      assert us == [us[0]] + us[1..];
      EncodeConcat([us[0]], us[1..]);
      EncodeOne(us[0]);
      UpdateRoundTrip(us[0], rest);
      ParseEncoded(us[1..]);
    }
  }

  lemma EncodeNone()
    ensures EncodeUpdates([]) == []
  {
  }

  lemma EncodeOne(u: Update)
    ensures EncodeUpdates([u]) == EncodeUpdate(u)
  {
  }

  class WriteBatch {
    var rep: Bytes
    ghost var updates: seq<Update>

    ghost predicate Valid()
      reads this
    {
      && |rep| >= HEADER && rep[HEADER..] == EncodeUpdates(updates)
      && |updates| < TWO_32 && rep[8..12] == EncodeFixed32(|updates|)
      && forall u | u in updates :: Fits(u)
    }

    constructor ()
      ensures Valid() && updates == []
    {
      rep := seq(HEADER, _ => 0);
      updates := [];
      new;
      assert rep[8..12] == [0, 0, 0, 0];
    }

    function Count(): Word32
      reads this
      requires |rep| >= HEADER
    {
      DecodeFixed32(rep[8..12])
    }

    lemma CountIs()
      requires Valid()
      ensures Count() == |updates|
    {
      Fixed32RoundTrip(|updates|, []);
      assert rep[8..12] == EncodeFixed32(|updates|) + [];
    }

    method SetCount(n: Word32)
      requires |rep| >= HEADER
      modifies this`rep
      ensures rep == old(rep)[..8] + EncodeFixed32(n) + old(rep)[12..]
      ensures |rep| == |old(rep)| && rep[8..12] == EncodeFixed32(n) && rep[12..] == old(rep)[12..]
              && rep[..8] == old(rep)[..8]
    {
      rep := rep[..8] + EncodeFixed32(n) + rep[12..];
    }

    method SetSequence(n: Word64)
      requires Valid()
      modifies this`rep
      ensures Valid() && Sequence() == n && rep == EncodeFixed64(n) + old(rep)[8..]
    {
      rep := EncodeFixed64(n) + rep[8..];
      Fixed64RoundTrip(n, []);
      assert rep[..8] == EncodeFixed64(n) + [];
    }

    function Sequence(): Word64
      reads this
      requires |rep| >= HEADER
    {
      DecodeFixed64(rep[..8])
    }

    method AddPut(key: Bytes, value: Bytes)
      requires Valid() && Fits(Put(key, value)) && |updates| + 1 < TWO_32
      modifies this
      ensures Valid() && updates == old(updates) + [Put(key, value)] && rep[..8] == old(rep)[..8]
    {
      Add(Put(key, value), [TAG_VALUE] + PutLengthPrefixed(key) + PutLengthPrefixed(value));
    }

    method AddDelete(key: Bytes)
      requires Valid() && Fits(Delete(key)) && |updates| + 1 < TWO_32
      modifies this
      ensures Valid() && updates == old(updates) + [Delete(key)] && rep[..8] == old(rep)[..8]
    {
      Add(Delete(key), [TAG_DELETION] + PutLengthPrefixed(key));
    }

    method Add(ghost u: Update, data: Bytes)
      requires Valid() && Fits(u) && |updates| + 1 < TWO_32 && data == EncodeUpdate(u)
      modifies this
      ensures Valid() && updates == old(updates) + [u] && rep[..8] == old(rep)[..8]
    {
      hide EncodeUpdate, EncodeUpdates, EncodeFixed32;
      CountIs();
      SetCount(Count() + 1);
      rep := rep + data;
      EncodeConcat(updates, [u]);
      EncodeOne(u);
      updates := updates + [u];
    }

    /** The other batch's updates follow this one's. */
    method Append(src: WriteBatch)
      requires Valid() && src.Valid() && |updates| + |src.updates| < TWO_32
      modifies this
      ensures Valid() && updates == old(updates) + old(src.updates) && rep[..8] == old(rep)[..8]
    {
      hide EncodeUpdates, EncodeFixed32;
      CountIs();
      src.CountIs();
      SetCount(Count() + src.Count());
      rep := rep + src.rep[HEADER..];
      EncodeConcat(updates, src.updates);
      updates := updates + src.updates;
    }

    /** Hands the updates to a handler in order, up to the first that does not decode; succeeds when all do
        and their number is the batch's count. */
    method Iterate() returns (ok: bool, handled: seq<Update>)
      ensures |rep| < HEADER ==> !ok && handled == []
      ensures |rep| >= HEADER ==>
                var p := ParseUpdates(rep[HEADER..]);
                handled == p.updates && (ok <==> p.complete && |handled| == Count())
    {
      handled := [];
      if |rep| < HEADER {
        return false, [];
      }
      var input := rep[HEADER..];
      ghost var p := ParseUpdates(input);
      while input != []
        invariant p == Parse(handled + ParseUpdates(input).updates, ParseUpdates(input).complete)
        decreases |input|
      {
        hide DecodeUpdate;
        var d := DecodeUpdate(input);
        if d.Failed? {
          assert handled + [] == handled;
          return false, handled;
        }
        handled, input := handled + [d.value], d.rest;
      }
      assert handled + [] == handled;
      ok := |handled| == Count();
    }

    /** A batch that was built by its operations is read back whole. */
    lemma WellFormed()
      requires Valid()
      ensures ParseUpdates(rep[HEADER..]) == Parse(updates, true) && Count() == |updates|
    {
      ParseEncoded(updates);
      CountIs();
    }
  }
}
