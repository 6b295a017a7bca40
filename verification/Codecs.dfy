/**
 * Decoding a whole message: the loop of UnmarshalVT for any message, given its schema and how one
 * field changes it. The laws of the wire format are proved here once, for every message.
 */
module Codecs {
  import opened Ints
  import opened Results
  import opened Varints
  import opened Wire
  import opened Encoding

  /** A message: the fields it knows and the raw bytes of those it does not. */
  datatype Message<+B> = Message(body: B, unknown: seq<byte>)

  /** A message type: the fields it knows and what reading one of them does. */
  datatype Codec<!B> = Codec(schema: Schema, apply: (B, Record) -> Result<B>)

  function Absorb<B>(c: Codec<B>, m: Message<B>, rec: Record): Result<Message<B>> {
    if rec.Unknown? then Ok(Message(m.body, m.unknown + rec.raw))
    else match c.apply(m.body, rec)
      case Err(e) => Err(e)
      case Ok(body) => Ok(Message(body, m.unknown))
  }

  function AbsorbAll<B>(c: Codec<B>, m: Message<B>, recs: seq<Record>): Result<Message<B>>
    decreases |recs|
  {
    if recs == [] then Ok(m)
    else match Absorb(c, m, recs[0])
      case Err(e) => Err(e)
      case Ok(m') => AbsorbAll(c, m', recs[1..])
  }

  /** UnmarshalVT from index i on, into a message that is already m. */
  function Parse<B>(c: Codec<B>, m: Message<B>, s: seq<byte>, i: nat): Result<Message<B>>
    requires i <= |s|
    decreases |s| - i
  {
    if i == |s| then Ok(m)
    else match NextRecord(c.schema, s, i)
      case Err(e) => Err(e)
      case Ok(step) =>
        match Absorb(c, m, step.record)
        case Err(e) => Err(e)
        case Ok(m') => Parse(c, m', s, step.next)
  }

  function Unmarshal<B>(c: Codec<B>, m: Message<B>, s: seq<byte>): Result<Message<B>> {
    Parse(c, m, s, 0)
  }

  /** One turn of the loop: a bad tag, a known field, or a field to skip. */
  lemma ParseTurn<B>(c: Codec<B>, m: Message<B>, s: seq<byte>, i: nat)
    requires i < |s|
    ensures TagAt(s, i).Err? ==> Parse(c, m, s, i) == Err(TagAt(s, i).error)
    ensures TagAt(s, i).Ok? && TagAt(s, i).value.num in c.schema ==>
              Parse(c, m, s, i) == ParseField(c, m, s, TagAt(s, i).value)
    ensures TagAt(s, i).Ok? && TagAt(s, i).value.num !in c.schema ==> Parse(c, m, s, i) == ParseSkip(c, m, s, i)
  {
    hide TagAt, FieldAt, SkipAt;
  }

  lemma ParseEnd<B>(c: Codec<B>, m: Message<B>, s: seq<byte>)
    ensures Parse(c, m, s, |s|) == Ok(m)
  {
  }

  function ParseField<B>(c: Codec<B>, m: Message<B>, s: seq<byte>, tag: Tag): Result<Message<B>>
    requires tag.num in c.schema && tag.num > 0
  {
    match FieldAt(c.schema[tag.num], s, tag)
    case Err(e) => Err(e)
    case Ok(step) =>
      match c.apply(m.body, step.record)
      case Err(e) => Err(e)
      case Ok(body) => Parse(c, Message(body, m.unknown), s, step.next)
  }

  function ParseSkip<B>(c: Codec<B>, m: Message<B>, s: seq<byte>, i: nat): Result<Message<B>>
    requires i < |s|
  {
    match SkipAt(s, i, |s|)
    case Err(e) => Err(e)
    case Ok(next) => Parse(c, Message(m.body, m.unknown + s[i..next]), s, next)
  }

  /** Both succeed with the same value, or both fail. */
  ghost predicate SameOutcome<T>(a: Result<T>, b: Result<T>) {
    (a.Ok? <==> b.Ok?) && (a.Ok? ==> a.value == b.value)
  }

  lemma {:induction false} ParseSuffix<B>(c: Codec<B>, m: Message<B>, s: seq<byte>, t: seq<byte>, at: nat, i: nat)
    requires i <= |s| && Within(s, t, at) && at + |s| == |t| <= MAX_INT
    ensures SameOutcome(Parse(c, m, t, at + i), Parse(c, m, s, i))
    decreases |s| - i
  {
    hide NextRecord, Absorb, Within;
    if i < |s| {
      NextRecordWithin(c.schema, s, t, at, i);
      if NextRecord(c.schema, s, i).Ok? {
        var step := NextRecord(c.schema, s, i).value;
        if Absorb(c, m, step.record).Ok? {
          ParseSuffix(c, Absorb(c, m, step.record).value, s, t, at, step.next);
        }
      }
    }
  }

  lemma {:induction false} ParseAppend<B>(c: Codec<B>, m: Message<B>, a: seq<byte>, b: seq<byte>, i: nat)
    requires i <= |a| && |a + b| <= MAX_INT && Parse(c, m, a, i).Ok?
    ensures SameOutcome(Parse(c, m, a + b, i), Parse(c, Parse(c, m, a, i).value, b, 0))
    decreases |a| - i
  {
    hide NextRecord, Absorb, Within;
    AppendWithin(a, b);
    if i == |a| {
      ParseSuffix(c, m, b, a + b, |a|, 0);
    } else {
      NextRecordWithin(c.schema, a, a + b, 0, i);
      var step := NextRecord(c.schema, a, i).value;
      ParseAppend(c, Absorb(c, m, step.record).value, a, b, step.next);
    }
  }

  /**
   * Concatenation is merge: decoding a followed by b is decoding b into the result of decoding a.
   * Scalars are overwritten, repeated fields appended to, submessages merged, map keys overridden.
   */
  lemma ConcatenationIsMerge<B>(c: Codec<B>, m: Message<B>, a: seq<byte>, b: seq<byte>)
    requires |a + b| <= MAX_INT && Unmarshal(c, m, a).Ok?
    ensures SameOutcome(Unmarshal(c, m, a + b), Unmarshal(c, Unmarshal(c, m, a).value, b))
  {
    ParseAppend(c, m, a, b, 0);
  }

  predicate AllFit(schema: Schema, recs: seq<Record>) {
    forall rec | rec in recs :: Fits(schema, rec)
  }

  /** Reading the fields recs, which are fields of the message, turns b into result. */
  ghost predicate Makes<B>(c: Codec<B>, b: B, recs: seq<Record>, result: B) {
    AllFit(c.schema, recs) && AbsorbAll(c, Message(b, []), recs) == Ok(Message(result, []))
  }

  lemma MakesFit<B>(c: Codec<B>, b: B, recs: seq<Record>, result: B)
    requires Makes(c, b, recs, result)
    ensures AllFit(c.schema, recs)
  {
  }

  lemma MakesNothing<B>(c: Codec<B>, b: B)
    ensures Makes(c, b, [], b)
  {
  }

  /** A field that may be absent can be read before the rest: it turns b into b'. */
  lemma MakesMore<B>(c: Codec<B>, b: B, opt: seq<Record>, b': B, rest: seq<Record>, result: B)
    requires opt == [] ==> b' == b
    requires opt != [] ==> |opt| == 1 && Fits(c.schema, opt[0]) && c.apply(b, opt[0]) == Ok(b')
    ensures Makes(c, b, opt + rest, result) <==> Makes(c, b', rest, result)
  {
    hide Fits;
    if opt == [] {
      assert opt + rest == rest;
    } else {
      assert (opt + rest)[1..] == rest;
      assert !opt[0].Unknown? by { FitsIsKnown(c.schema, opt[0]); }
      assert AllFit(c.schema, opt + rest) <==> AllFit(c.schema, rest);
    }
  }

  lemma FitsIsKnown(schema: Schema, rec: Record)
    requires Fits(schema, rec)
    ensures !rec.Unknown?
  {
  }

  /** A single field makes what applying it gives. */
  lemma MakesOne<B>(c: Codec<B>, b: B, rec: Record, result: B)
    requires Fits(c.schema, rec)
    ensures Makes(c, b, [rec], result) <==> c.apply(b, rec) == Ok(result)
  {
    hide Fits;
    FitsIsKnown(c.schema, rec);
    assert [rec][1..] == [];
    var m := Message(b, []);
    assert AbsorbAll(c, m, [rec]) == Absorb(c, m, rec) by {
      if Absorb(c, m, rec).Ok? {
        assert AbsorbAll(c, Absorb(c, m, rec).value, []) == Absorb(c, m, rec);
      }
    }
    assert AllFit(c.schema, [rec]);
  }

  lemma NothingUnknown(schema: Schema)
    ensures UnknownOnly(schema, [], 0)
  {
  }

  predicate Field(schema: Schema, num: nat, kind: Kind) {
    1 <= num < MAX_FIELD && num in schema && schema[num] == kind
  }

  lemma MakesBytes<B>(c: Codec<B>, b: B, num: nat, body: seq<byte>, b': B, rest: seq<Record>, result: B)
    requires Field(c.schema, num, BytesKind)
    requires if body == [] then b' == b else c.apply(b, BytesField(num, body)) == Ok(b')
    ensures Makes(c, b, OptBytes(num, body) + rest, result) <==> Makes(c, b', rest, result)
  {
    hide Makes;
    MakesMore(c, b, OptBytes(num, body), b', rest, result);
  }

  lemma MakesNumber<B>(c: Codec<B>, b: B, num: nat, value: uint64, b': B, rest: seq<Record>, result: B)
    requires Field(c.schema, num, NumberKind)
    requires if value == 0 then b' == b else c.apply(b, NumberField(num, value)) == Ok(b')
    ensures Makes(c, b, OptNumber(num, value) + rest, result) <==> Makes(c, b', rest, result)
  {
    hide Makes;
    MakesMore(c, b, OptNumber(num, value), b', rest, result);
  }

  lemma MakesBool<B>(c: Codec<B>, b: B, num: nat, value: bool, b': B, rest: seq<Record>, result: B)
    requires Field(c.schema, num, NumberKind)
    requires if value then c.apply(b, NumberField(num, 1)) == Ok(b') else b' == b
    ensures Makes(c, b, OptBool(num, value) + rest, result) <==> Makes(c, b', rest, result)
  {
    hide Makes;
    MakesMore(c, b, OptBool(num, value), b', rest, result);
  }

  lemma ParseFirst<B>(c: Codec<B>, m: Message<B>, rec: Record, rest: seq<byte>)
    requires Fits(c.schema, rec) && |Encode(rec) + rest| <= MAX_INT
    ensures Absorb(c, m, rec).Err? ==> Unmarshal(c, m, Encode(rec) + rest).Err?
    ensures Absorb(c, m, rec).Ok? ==>
              SameOutcome(Unmarshal(c, m, Encode(rec) + rest), Unmarshal(c, Absorb(c, m, rec).value, rest))
  {
    hide NextRecord, Encode, Fits, Absorb, Within;
    var first := Encode(rec);
    AppendWithin(first, rest);
    RecordReadsBack(c.schema, rec);
    NextRecordWithin(c.schema, first, first + rest, 0, 0);
    if Absorb(c, m, rec).Ok? {
      ParseSuffix(c, Absorb(c, m, rec).value, rest, first + rest, |first|, 0);
    }
  }

  /** Decoding the encoding of some fields does to the message what these fields do, one by one. */
  lemma {:induction false} ParseRecords<B>(c: Codec<B>, m: Message<B>, recs: seq<Record>, u: seq<byte>)
    requires AllFit(c.schema, recs) && |EncodeAll(recs) + u| <= MAX_INT
    ensures AbsorbAll(c, m, recs).Err? ==> Unmarshal(c, m, EncodeAll(recs) + u).Err?
    ensures AbsorbAll(c, m, recs).Ok? ==>
              SameOutcome(Unmarshal(c, m, EncodeAll(recs) + u), Unmarshal(c, AbsorbAll(c, m, recs).value, u))
    decreases |recs|
  {
    hide NextRecord, Encode, Fits, Absorb, Unmarshal;
    if recs == [] {
      assert EncodeAll(recs) + u == u;
    } else {
      var rest := EncodeAll(recs[1..]) + u;
      assert EncodeAll(recs) + u == Encode(recs[0]) + rest;
      ParseFirst(c, m, recs[0], rest);
      if Absorb(c, m, recs[0]).Ok? {
        ParseRecords(c, Absorb(c, m, recs[0]).value, recs[1..], u);
      }
    }
  }

  /** The end of the field at index i, if the schema does not know it. */
  function UnknownEnd(schema: Schema, u: seq<byte>, i: nat): (r: Option<nat>)
    requires i < |u|
    ensures r.Some? ==> i < r.value <= |u|
  {
    match NextRecord(schema, u, i)
    case Ok(Step(Unknown(_), next)) => Some(next)
    case _ => None
  }

  /** From index i on, u is a sequence of fields the schema does not know. */
  predicate UnknownOnly(schema: Schema, u: seq<byte>, i: nat)
    requires i <= |u|
    decreases |u| - i
  {
    i == |u| || (UnknownEnd(schema, u, i).Some? && UnknownOnly(schema, u, UnknownEnd(schema, u, i).value))
  }

  lemma UnknownEndWithin(schema: Schema, s: seq<byte>, t: seq<byte>, at: nat, i: nat)
    requires Within(s, t, at) && |t| <= MAX_INT && i < |s| && UnknownEnd(schema, s, i).Some?
    ensures UnknownEnd(schema, t, at + i) == Some(at + UnknownEnd(schema, s, i).value)
  {
    hide NextRecord;
    NextRecordWithin(schema, s, t, at, i);
  }

  lemma RawIsSlice(schema: Schema, u: seq<byte>, i: nat)
    requires i < |u| && UnknownEnd(schema, u, i).Some?
    ensures NextRecord(schema, u, i) ==
              Ok(Step(Unknown(u[i..UnknownEnd(schema, u, i).value]), UnknownEnd(schema, u, i).value))
  {
    hide TagAt, SkipAt;
  }

  lemma {:induction false} ParseUnknown<B>(c: Codec<B>, m: Message<B>, u: seq<byte>, i: nat)
    requires i <= |u| && UnknownOnly(c.schema, u, i)
    ensures Parse(c, m, u, i) == Ok(Message(m.body, m.unknown + u[i..]))
    decreases |u| - i
  {
    if i == |u| {
      assert m.unknown + u[i..] == m.unknown;
    } else {
      hide NextRecord, UnknownEnd;
      RawIsSlice(c.schema, u, i);
      var next := UnknownEnd(c.schema, u, i).value;
      var m' := Message(m.body, m.unknown + u[i..next]);
      ParseUnknown(c, m', u, next);
      assert m.unknown + u[i..next] + u[next..] == m.unknown + u[i..];
    }
  }

  /** Every byte of the input ends up among the unknown ones only if no field was known. */
  lemma {:induction false} UnknownLength<B>(c: Codec<B>, m: Message<B>, u: seq<byte>, i: nat)
    requires i <= |u| && Parse(c, m, u, i).Ok?
    ensures |Parse(c, m, u, i).value.unknown| <= |m.unknown| + |u| - i
    ensures |Parse(c, m, u, i).value.unknown| == |m.unknown| + |u| - i ==> UnknownOnly(c.schema, u, i)
    decreases |u| - i
  {
    if i < |u| {
      hide NextRecord;
      var step := NextRecord(c.schema, u, i).value;
      if step.record.Unknown? {
        RawIsSlice(c.schema, u, i);
      }
      UnknownLength(c, Absorb(c, m, step.record).value, u, step.next);
    }
  }

  lemma TailIsUnknown<B>(c: Codec<B>, m: B, b: B, u: seq<byte>)
    ensures Unmarshal(c, Message(m, []), u) == Ok(Message(b, u)) <==> m == b && UnknownOnly(c.schema, u, 0)
  {
    if UnknownOnly(c.schema, u, 0) {
      ParseUnknown(c, Message(m, []), u, 0);
      assert [] + u[0..] == u;
    } else if Parse(c, Message(m, []), u, 0).Ok? {
      UnknownLength(c, Message(m, []), u, 0);
    }
  }

  lemma {:induction false} AbsorbedUnknown<B>(c: Codec<B>, m: Message<B>, recs: seq<Record>)
    requires AllFit(c.schema, recs) && AbsorbAll(c, m, recs).Ok?
    ensures AbsorbAll(c, m, recs).value.unknown == m.unknown
    decreases |recs|
  {
    if recs != [] {
      hide Fits;
      FitsIsKnown(c.schema, recs[0]);
      AbsorbedUnknown(c, Absorb(c, m, recs[0]).value, recs[1..]);
    }
  }

  /**
   * The round trip: the encoding of fields recs followed by the unknown bytes u decodes, into an
   * empty message, to body b and unknown bytes u exactly when the fields make b and u is a
   * well-formed sequence of fields the message does not know.
   */
  lemma RoundTrip<B>(c: Codec<B>, empty: B, b: B, recs: seq<Record>, u: seq<byte>)
    requires AllFit(c.schema, recs) && |EncodeAll(recs) + u| <= MAX_INT
    ensures Unmarshal(c, Message(empty, []), EncodeAll(recs) + u) == Ok(Message(b, u))
       <==> Makes(c, empty, recs, b) && UnknownOnly(c.schema, u, 0)
  {
    hide Unmarshal, AbsorbAll, AllFit;
    var e := Message(empty, []);
    ParseRecords(c, e, recs, u);
    if AbsorbAll(c, e, recs).Ok? {
      AbsorbedUnknown(c, e, recs);
      TailIsUnknown(c, AbsorbAll(c, e, recs).value.body, b, u);
    }
  }

  lemma {:induction false} AbsorbBeside<B>(c: Codec<B>, b: B, recs: seq<Record>, u: seq<byte>)
    requires AllFit(c.schema, recs) && AbsorbAll(c, Message(b, []), recs).Ok?
    ensures AbsorbAll(c, Message(b, u), recs) == Ok(Message(AbsorbAll(c, Message(b, []), recs).value.body, u))
    decreases |recs|
  {
    if recs != [] {
      hide Fits;
      FitsIsKnown(c.schema, recs[0]);
      AbsorbBeside(c, Absorb(c, Message(b, []), recs[0]).value.body, recs[1..], u);
    }
  }

  /**
   * Decoding the encoding of a message into another one: the fields act on its body, and the unknown
   * bytes are appended to those it has.
   */
  lemma DecodingMerges<B>(c: Codec<B>, m: Message<B>, recs: seq<Record>, b: B, u: seq<byte>)
    requires Makes(c, m.body, recs, b) && UnknownOnly(c.schema, u, 0) && |EncodeAll(recs) + u| <= MAX_INT
    ensures Unmarshal(c, m, EncodeAll(recs) + u) == Ok(Message(b, m.unknown + u))
  {
    hide AllFit, UnknownOnly;
    AbsorbBeside(c, m.body, recs, m.unknown);
    ParseRecords(c, m, recs, u);
    ParseUnknown(c, Message(b, m.unknown), u, 0);
    assert u[0..] == u;
  }

  // ---------------------------------------------------------------- what decoding leaves unknown

  lemma TagInSlice(s: seq<byte>, i: nat, next: nat)
    requires i < next <= |s| && SkipAt(s, i, |s|) == Ok(next) && TagAt(s, i).Ok?
    ensures TagAt(s[i..next], 0).Ok? && TagAt(s[i..next], 0).value.num == TagAt(s, i).value.num
  {
    SkipTagBound(s, i, |s|);
    TagWithin(s[i..next], s, i, 0);
  }

  lemma SkipTagBound(s: seq<byte>, i: nat, limit: nat)
    requires i <= |s| && SkipAt(s, i, limit).Ok?
    ensures Scan(s, i, 0).Ok? && Scan(s, i, 0).value.next <= SkipAt(s, i, limit).value
  {
    ScanWithin(s[i..], s, i, 0, 0);
  }

  /** The raw bytes kept for an unknown field are, on their own, that unknown field. */
  lemma RawReadsBack(schema: Schema, s: seq<byte>, i: nat)
    requires i < |s| <= MAX_INT && UnknownEnd(schema, s, i).Some?
    ensures UnknownOnly(schema, s[i..UnknownEnd(schema, s, i).value], 0)
  {
    hide TagAt, SkipAt;
    var next := UnknownEnd(schema, s, i).value;
    var raw := s[i..next];
    TagInSlice(s, i, next);
    SkipUpTo(s, i, next, |s|);
    SkipAtWithin(raw, s, i, 0, |raw|);
    assert UnknownEnd(schema, raw, 0) == Some(|raw|);
  }

  lemma SkipUpTo(s: seq<byte>, i: nat, next: nat, limit: nat)
    requires i <= |s| && SkipAt(s, i, limit) == Ok(next)
    ensures SkipAt(s, i, next) == Ok(next)
  {
  }

  lemma {:induction false} UnknownSuffix(schema: Schema, s: seq<byte>, t: seq<byte>, at: nat, i: nat)
    requires i <= |s| && Within(s, t, at) && at + |s| == |t| <= MAX_INT && UnknownOnly(schema, s, i)
    ensures UnknownOnly(schema, t, at + i)
    decreases |s| - i
  {
    hide UnknownEnd, Within;
    if i < |s| {
      UnknownEndWithin(schema, s, t, at, i);
      UnknownSuffix(schema, s, t, at, UnknownEnd(schema, s, i).value);
    }
  }

  lemma {:induction false} UnknownAppend(schema: Schema, a: seq<byte>, b: seq<byte>, i: nat)
    requires i <= |a| && |a + b| <= MAX_INT && UnknownOnly(schema, a, i) && UnknownOnly(schema, b, 0)
    ensures UnknownOnly(schema, a + b, i)
    decreases |a| - i
  {
    hide UnknownEnd, Within;
    AppendWithin(a, b);
    if i < |a| {
      UnknownEndWithin(schema, a, a + b, 0, i);
      UnknownAppend(schema, a, b, UnknownEnd(schema, a, i).value);
    } else {
      UnknownSuffix(schema, b, a + b, |a|, 0);
    }
  }

  /** Decoding leaves a message whose unknown bytes are well-formed unknown fields, if they were. */
  lemma {:induction false} UnknownKept<B>(c: Codec<B>, m: Message<B>, s: seq<byte>, i: nat)
    requires i <= |s| && |m.unknown| + |s| - i <= MAX_INT && |s| <= MAX_INT
    requires UnknownOnly(c.schema, m.unknown, 0) && Parse(c, m, s, i).Ok?
    ensures UnknownOnly(c.schema, Parse(c, m, s, i).value.unknown, 0)
    decreases |s| - i
  {
    if i < |s| {
      hide NextRecord;
      var step := NextRecord(c.schema, s, i).value;
      if step.record.Unknown? {
        RawIsSlice(c.schema, s, i);
        RawReadsBack(c.schema, s, i);
        UnknownAppend(c.schema, m.unknown, step.record.raw, 0);
      }
      UnknownKept(c, Absorb(c, m, step.record).value, s, step.next);
    }
  }
}
