/**
 * The timestamp inside a service's health. Its code is not part of the repository, nor of this model:
 * it is written as values, from the definition of google.protobuf.Timestamp (seconds, nanos).
 */
module Timestamp {
  import opened Ints
  import opened Results
  import opened Wire
  import opened Encoding
  import opened Codecs

  datatype Stamp = Stamp(seconds: int64, nanos: int32)

  const NO_TIME: Message<Stamp> := Message(Stamp(0, 0), [])

  const SCHEMA: Schema := map[1 := NumberKind, 2 := NumberKind]

  function Apply(t: Stamp, rec: Record): (r: Result<Stamp>)
    ensures r.Ok?
  {
    match rec
    case NumberField(1, v) => Ok(t.(seconds := ToInt64(v)))
    case NumberField(2, v) => Ok(t.(nanos := ToInt32(Uint32(v))))
    case _ => Ok(t)
  }

  const CODEC: Codec<Stamp> := Codec(SCHEMA, Apply)

  function StampField(t: Stamp, num: nat): seq<Record> {
    match num
    case 1 => OptNumber(1, ToUint64(t.seconds))
    case 2 => OptNumber(2, ToUint64(t.nanos))
    case _ => []
  }

  function StampLayout(t: Stamp): Layout {
    (num: nat) => StampField(t, num)
  }

  function StampBytes(m: Message<Stamp>): seq<byte> {
    BytesFrom(StampLayout(m.body), m.unknown, 1, 2)
  }

  /** Two timestamps merged: what the second one writes wins. */
  function Merged(a: Stamp, b: Stamp): Stamp {
    Stamp(if b.seconds == 0 then a.seconds else b.seconds, if b.nanos == 0 then a.nanos else b.nanos)
  }

  lemma FieldsMerge(a: Stamp, t: Stamp)
    ensures Makes(CODEC, a, FieldsFrom(StampLayout(t), 1, 2), Merged(a, t))
  {
    hide Makes, OptNumber, Uint32;
    var layout, r := StampLayout(t), Merged(a, t);
    var t1 := a.(seconds := r.seconds);
    MakesNothing(CODEC, r);
    SignedReadsBack(t.nanos);
    MakesNumber(CODEC, a, 1, ToUint64(t.seconds), t1, FieldsFrom(layout, 2, 2), r);
    MakesNumber(CODEC, t1, 2, ToUint64(t.nanos), r, [], r);
  }

  /** Decoding the encoding of a timestamp into another one merges the two. */
  lemma StampMerges(m: Message<Stamp>, n: Message<Stamp>)
    requires |StampBytes(n)| <= MAX_INT && UnknownOnly(SCHEMA, n.unknown, 0)
    ensures Unmarshal(CODEC, m, StampBytes(n)) == Ok(Message(Merged(m.body, n.body), m.unknown + n.unknown))
  {
    FieldsMerge(m.body, n.body);
    DecodingMerges(CODEC, m, FieldsFrom(StampLayout(n.body), 1, 2), Merged(m.body, n.body), n.unknown);
  }

  lemma StampRoundTrip(m: Message<Stamp>)
    requires |StampBytes(m)| <= MAX_INT
    ensures Unmarshal(CODEC, NO_TIME, StampBytes(m)) == Ok(m) <==> UnknownOnly(SCHEMA, m.unknown, 0)
  {
    var recs := FieldsFrom(StampLayout(m.body), 1, 2);
    FieldsMerge(Stamp(0, 0), m.body);
    assert Merged(Stamp(0, 0), m.body) == m.body;
    MakesFit(CODEC, Stamp(0, 0), recs, m.body);
    RoundTrip(CODEC, Stamp(0, 0), m.body, recs, m.unknown);
  }
}
