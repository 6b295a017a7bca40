/** What MarshalToSizedBufferVT writes for one field, and that NextRecord reads it back. */
module Encoding {
  import opened Ints
  import opened Results
  import opened Varints
  import opened Wire

  /** Field numbers of the messages stay far below the limit of the encoding. */
  const MAX_FIELD: int := 0x2000_0000

  function Key(num: nat, wireType: nat): seq<byte> {
    Varint(8 * num + wireType)
  }

  function EncodeBytes(num: nat, body: seq<byte>): seq<byte> {
    Key(num, 2) + Varint(|body|) + body
  }

  function EncodeNumber(num: nat, value: nat): seq<byte> {
    Key(num, 0) + Varint(value)
  }

  function EncodeEntry(key: seq<byte>, value: nat): seq<byte> {
    EncodeBytes(1, key) + EncodeNumber(2, value)
  }

  function Encode(rec: Record): seq<byte> {
    match rec
    case NumberField(num, value) => EncodeNumber(num, value)
    case BytesField(num, body) => EncodeBytes(num, body)
    case EntryField(num, key, value) => EncodeBytes(num, EncodeEntry(key, value))
    case Unknown(raw) => raw
  }

  function EncodeAll(recs: seq<Record>): seq<byte> {
    if recs == [] then [] else Encode(recs[0]) + EncodeAll(recs[1..])
  }

  lemma {:induction false} EncodeAllAppend(a: seq<Record>, b: seq<Record>)
    ensures EncodeAll(a + b) == EncodeAll(a) + EncodeAll(b)
  {
    if a == [] {
      assert a + b == b;
    } else {
      assert (a + b)[1..] == a[1..] + b;
      EncodeAllAppend(a[1..], b);
    }
  }

  /** A number is written unless it is zero. */
  function OptNumber(num: nat, value: uint64): seq<Record> {
    if value == 0 then [] else [NumberField(num, value)]
  }

  /** A boolean is written, as the number one, if it is true. */
  function OptBool(num: nat, value: bool): seq<Record> {
    if value then [NumberField(num, 1)] else []
  }

  /** Bytes are written unless they are empty. */
  function OptBytes(num: nat, body: seq<byte>): seq<Record> {
    if body == [] then [] else [BytesField(num, body)]
  }

  lemma EncodeMore(opt: seq<Record>, rest: seq<Record>, u: seq<byte>)
    ensures EncodeAll(opt + rest) + u == EncodeAll(opt) + (EncodeAll(rest) + u)
  {
    EncodeAllAppend(opt, rest);
  }

  /** A submessage is written whenever it is present, even if it is empty. */
  function OptMessage(num: nat, body: Option<seq<byte>>): seq<Record> {
    if body == None then [] else [BytesField(num, body.value)]
  }

  /** A field that may occur any number of times is written once for each value. */
  function Repeated(num: nat, items: seq<seq<byte>>): seq<Record> {
    if items == [] then [] else [BytesField(num, items[0])] + Repeated(num, items[1..])
  }

  /** What a message writes for each of its field numbers. */
  type Layout = nat -> seq<Record>

  /** The fields from number num to number last, in order. */
  function FieldsFrom(layout: Layout, num: nat, last: nat): seq<Record>
    decreases last + 1 - num
  {
    if num > last then [] else layout(num) + FieldsFrom(layout, num + 1, last)
  }

  /** The end of a message: the fields from number num on, and the bytes it does not know. */
  function BytesFrom(layout: Layout, u: seq<byte>, num: nat, last: nat): seq<byte> {
    EncodeAll(FieldsFrom(layout, num, last)) + u
  }

  /** rec is a field of the schema. */
  predicate Fits(schema: Schema, rec: Record) {
    && !rec.Unknown?
    && 1 <= rec.num < MAX_FIELD
    && rec.num in schema
    && schema[rec.num] == (
         match rec
         case NumberField(_, _) => NumberKind
         case BytesField(_, _) => BytesKind
         case EntryField(_, _, _) => EntryKind
         case Unknown(_) => NumberKind)
  }

  lemma TagReadsBack(num: nat, wireType: nat, s: seq<byte>, i: nat)
    requires 1 <= num < MAX_FIELD && wireType < 8 && wireType != 4
    requires Within(Key(num, wireType), s, i)
    ensures TagAt(s, i) == Ok(Tag(num, wireType, i + |Key(num, wireType)|))
    ensures Scan(s, i, 0) == Ok(Number(8 * num + wireType, i + |Key(num, wireType)|))
    ensures FieldNum(8 * num + wireType) == num
  {
    hide Scan, Varint, Within, Shl, Low;
    var key := 8 * num + wireType;
    Uint64Length(key);
    ScanVarint(key, s, i, 0);
    PowersOfTwo();
    LowBound(key, 64);
    LowBound(num, 32);
    assert key / 8 == num && key % 8 == wireType;
  }

  lemma NumberReadsBack(value: uint64, s: seq<byte>, i: nat)
    requires Within(Varint(value), s, i)
    ensures Scan(s, i, 0) == Ok(Number(value, i + |Varint(value)|))
    ensures Uint64(value) == value
  {
    Uint64Length(value);
    ScanVarint(value, s, i, 0);
    PowersOfTwo();
    LowBound(value, 64);
  }

  /**
   * A signed 32-bit number travels as a sign-extended 64-bit varint, of ten bytes when negative, and
   * the 32-bit loop that reads it gets the same number back.
   */
  lemma SignedReadsBack(x: int32)
    ensures ToInt32(Uint32(ToUint64(x))) == x
    ensures x < 0 ==> |Varint(ToUint64(x))| == 10
  {
    PowersOfTwo();
    var v := ToUint64(x);
    if x >= 0 {
      LowBound(x, 32);
    } else {
      Scale(TWO_32 - 1, 32, TWO_32);
      LowAddShl(x + TWO_32, TWO_32 - 1, 32);
      assert Shl(1, 64) == 2 * Shl(1, 63);
      VarintLength(v, 9);
      Uint64Length(v);
    }
  }

  lemma SpanReadsBack(body: seq<byte>, s: seq<byte>, i: nat)
    requires |s| <= MAX_INT && Within(Varint(|body|) + body, s, i)
    ensures SpanAt(s, i) == Ok(Span(i + |Varint(|body|)|, i + |Varint(|body|)| + |body|))
    ensures s[i + |Varint(|body|)|..i + |Varint(|body|)| + |body|] == body
  {
    hide Scan, Varint;
    WithinParts(Varint(|body|), body, s, i);
    NumberReadsBack(|body|, s, i);
  }

  /** A string that holds a concatenation holds its parts. */
  lemma WithinParts(a: seq<byte>, b: seq<byte>, s: seq<byte>, i: nat)
    requires Within(a + b, s, i)
    ensures Within(a, s, i) && Within(b, s, i + |a|)
  {
    var whole := s[i..i + |a + b|];
    assert whole[..|a|] == a && whole[|a|..] == b;
    assert s[i..i + |a|] == whole[..|a|];
    assert s[i + |a|..i + |a| + |b|] == whole[|a|..];
  }

  lemma OrUint64Zero(value: uint64)
    ensures OrUint64(0, value) == value
  {
    PowersOfTwo();
    LowBound(value, 64);
    OrZero(value);
  }

  lemma EntryReadsBack(key: seq<byte>, value: uint64, s: seq<byte>, i: nat)
    requires |s| <= MAX_INT && Within(EncodeEntry(key, value), s, i)
    ensures EntryFrom(s, i, i + |EncodeEntry(key, value)|, [], 0) ==
              Ok(Entry(key, value, i + |EncodeEntry(key, value)|))
  {
    hide EncodeBytes, EncodeNumber, EntryTurn, Within;
    var first, second := EncodeBytes(1, key), EncodeNumber(2, value);
    var mid, post := i + |first|, i + |EncodeEntry(key, value)|;
    WithinParts(first, second, s, i);
    EntryKeyReadsBack(key, s, i, post);
    EntryValueReadsBack(key, 0, value, s, mid, post);
    OrUint64Zero(value);
    assert EntryFrom(s, post, post, key, value) == Ok(Entry(key, value, post));
    assert EntryFrom(s, mid, post, key, 0) == Ok(Entry(key, value, post));
  }

  lemma EntryKeyReadsBack(key: seq<byte>, s: seq<byte>, i: nat, post: nat)
    requires |s| <= MAX_INT && post <= |s| && Within(EncodeBytes(1, key), s, i)
    ensures EntryTurn(s, i, post, [], 0) == Ok(Entry(key, 0, i + |EncodeBytes(1, key)|))
  {
    hide Scan, Varint, Within, SpanAt, SkipAt, FieldNum;
    assert EncodeBytes(1, key) == Key(1, 2) + (Varint(|key|) + key);
    WithinParts(Key(1, 2), Varint(|key|) + key, s, i);
    TagReadsBack(1, 2, s, i);
    SpanReadsBack(key, s, i + |Key(1, 2)|);
  }

  lemma EntryValueReadsBack(key: seq<byte>, before: uint64, value: uint64, s: seq<byte>, i: nat, post: nat)
    requires |s| <= MAX_INT && post <= |s| && Within(EncodeNumber(2, value), s, i)
    ensures EntryTurn(s, i, post, key, before) == Ok(Entry(key, OrUint64(before, value), i + |EncodeNumber(2, value)|))
  {
    hide Scan, Varint, Within, SpanAt, SkipAt, FieldNum, OrUint64;
    WithinParts(Key(2, 0), Varint(value), s, i);
    TagReadsBack(2, 0, s, i);
    NumberReadsBack(value, s, i + |Key(2, 0)|);
  }

  lemma NumberFieldReadsBack(num: nat, value: uint64)
    requires 1 <= num < MAX_FIELD
    ensures TagAt(EncodeNumber(num, value), 0).Ok?
    ensures TagAt(EncodeNumber(num, value), 0).value.num == num
    ensures FieldAt(NumberKind, EncodeNumber(num, value), TagAt(EncodeNumber(num, value), 0).value)
         == Ok(Step(NumberField(num, value), |EncodeNumber(num, value)|))
  {
    hide Scan, Varint, Key, TagAt, FieldNum;
    var s := EncodeNumber(num, value);
    WithinParts(Key(num, 0), Varint(value), s, 0);
    TagReadsBack(num, 0, s, 0);
    NumberReadsBack(value, s, |Key(num, 0)|);
  }

  lemma BytesHeaderReadsBack(num: nat, body: seq<byte>)
    returns (start: nat)
    requires 1 <= num < MAX_FIELD && |EncodeBytes(num, body)| <= MAX_INT
    ensures TagAt(EncodeBytes(num, body), 0).Ok?
    ensures TagAt(EncodeBytes(num, body), 0).value.num == num
    ensures TagAt(EncodeBytes(num, body), 0).value.wireType == 2
    ensures start + |body| == |EncodeBytes(num, body)|
    ensures SpanAt(EncodeBytes(num, body), TagAt(EncodeBytes(num, body), 0).value.next) ==
              Ok(Span(start, start + |body|))
    ensures EncodeBytes(num, body)[start..start + |body|] == body
  {
    hide Scan, Varint, Key, TagAt, FieldNum, SpanAt;
    var s := EncodeBytes(num, body);
    assert s == Key(num, 2) + (Varint(|body|) + body);
    start := |Key(num, 2)| + |Varint(|body|)|;
    WithinParts(Key(num, 2), Varint(|body|) + body, s, 0);
    TagReadsBack(num, 2, s, 0);
    SpanReadsBack(body, s, |Key(num, 2)|);
  }

  /** One field, written and read back. */
  lemma RecordReadsBack(schema: Schema, rec: Record)
    requires Fits(schema, rec) && |Encode(rec)| <= MAX_INT
    ensures |Encode(rec)| > 0
    ensures NextRecord(schema, Encode(rec), 0) == Ok(Step(rec, |Encode(rec)|))
  {
    hide Scan, Varint, SpanAt, SkipAt, FieldNum, EntryFrom, TagAt, EncodeBytes, EncodeNumber;
    match rec
    case NumberField(num, value) => NumberFieldReadsBack(num, value);
    case BytesField(num, body) => var _ := BytesHeaderReadsBack(num, body);
    case EntryField(num, key, value) =>
      var body := EncodeEntry(key, value);
      var start := BytesHeaderReadsBack(num, body);
      EntryReadsBack(key, value, Encode(rec), start);
  }
}
