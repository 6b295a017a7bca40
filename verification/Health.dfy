/** The codec of ServiceSpec_Health: two booleans, a string and a timestamp that may be absent. */
module Health {
  import opened Ints
  import opened Results
  import opened Varints
  import opened Wire
  import opened Encoding
  import opened Codecs
  import opened Reader
  import opened Writer
  import T = Timestamp

  type TimeMessage = Message<T.Stamp>

  datatype Condition = Condition(unknown: bool, healthy: bool, lastMessage: seq<byte>, lastChange: Option<TimeMessage>)

  const EMPTY: Condition := Condition(false, false, [], None)
  const FRESH: Message<Condition> := Message(EMPTY, [])

  const SCHEMA: Schema := map[1 := NumberKind, 2 := NumberKind, 3 := BytesKind, 4 := BytesKind]

  /** Reading a timestamp merges it into the one that is already there. */
  function MergeTime(t: Option<TimeMessage>, b: seq<byte>): Result<TimeMessage> {
    Unmarshal(T.CODEC, if t == None then T.NO_TIME else t.value, b)
  }

  function Apply(h: Condition, rec: Record): Result<Condition> {
    match rec
    case NumberField(1, v) => Ok(h.(unknown := v != 0))
    case NumberField(2, v) => Ok(h.(healthy := v != 0))
    case BytesField(3, b) => Ok(h.(lastMessage := b))
    case BytesField(4, b) => (
      match MergeTime(h.lastChange, b)
      case Err(e) => Err(e)
      case Ok(t) => Ok(h.(lastChange := Some(t)))
    )
    case _ => Ok(h)
  }

  const CODEC: Codec<Condition> := Codec(SCHEMA, Apply)

  function TimeBytes(t: Option<TimeMessage>): Option<seq<byte>> {
    if t == None then None else Some(T.StampBytes(t.value))
  }

  function HealthField(h: Condition, num: nat): seq<Record> {
    match num
    case 1 => OptBool(1, h.unknown)
    case 2 => OptBool(2, h.healthy)
    case 3 => OptBytes(3, h.lastMessage)
    case 4 => OptMessage(4, TimeBytes(h.lastChange))
    case _ => []
  }

  function HealthLayout(h: Condition): Layout {
    (num: nat) => HealthField(h, num)
  }

  /** The encoding of a message: its fields in order, then the bytes it does not know. */
  function Bytes(m: Message<Condition>): seq<byte> {
    BytesFrom(HealthLayout(m.body), m.unknown, 1, 4)
  }

  /** The unknown bytes of the message, and of the timestamp inside it, are unknown fields. */
  predicate WellFormed(m: Message<Condition>) {
    UnknownOnly(SCHEMA, m.unknown, 0) && TimeWellFormed(m.body.lastChange)
  }

  predicate TimeWellFormed(t: Option<TimeMessage>) {
    t == None || UnknownOnly(T.SCHEMA, t.value.unknown, 0)
  }

  lemma HealthFit(h: Condition)
    ensures AllFit(SCHEMA, FieldsFrom(HealthLayout(h), 1, 4))
  {
    hide TimeBytes;
  }

  /** The fields of a condition make it exactly when its timestamp survives its own round trip. */
  lemma FieldsMakeHealth(h: Condition)
    requires h.lastChange != None ==> |T.StampBytes(h.lastChange.value)| <= MAX_INT
    ensures Makes(CODEC, EMPTY, FieldsFrom(HealthLayout(h), 1, 4), h) <==> TimeWellFormed(h.lastChange)
  {
    hide Makes, OptBytes, OptBool, OptMessage;
    var layout := HealthLayout(h);
    var h1 := EMPTY.(unknown := h.unknown);
    var h2 := h1.(healthy := h.healthy);
    var h3 := h2.(lastMessage := h.lastMessage);
    MakesBool(CODEC, EMPTY, 1, h.unknown, h1, FieldsFrom(layout, 2, 4), h);
    MakesBool(CODEC, h1, 2, h.healthy, h2, FieldsFrom(layout, 3, 4), h);
    MakesBytes(CODEC, h2, 3, h.lastMessage, h3, FieldsFrom(layout, 4, 4), h);
    assert FieldsFrom(layout, 4, 4) == HealthField(h, 4) + [];
    TimeMakes(h3, h);
  }

  lemma TimeMakes(b: Condition, h: Condition)
    requires b == h.(lastChange := None)
    requires h.lastChange != None ==> |T.StampBytes(h.lastChange.value)| <= MAX_INT
    ensures Makes(CODEC, b, HealthField(h, 4) + [], h) <==> TimeWellFormed(h.lastChange)
  {
    if h.lastChange == None {
      MakesNothing(CODEC, b);
      assert HealthField(h, 4) + [] == [];
    } else {
      var rec := BytesField(4, T.StampBytes(h.lastChange.value));
      assert HealthField(h, 4) + [] == [rec];
      T.StampRoundTrip(h.lastChange.value);
      MakesOne(CODEC, b, rec, h);
    }
  }

  /**
   * Decoding the encoding of a health message gives it back, exactly when its unknown bytes, and
   * those of its timestamp, are unknown fields. A timestamp that is present but empty stays present.
   */
  lemma HealthRoundTrip(m: Message<Condition>)
    requires |Bytes(m)| <= MAX_INT
    ensures Unmarshal(CODEC, FRESH, Bytes(m)) == Ok(m) <==> WellFormed(m)
  {
    hide Makes, UnknownOnly;
    TimeFits(m);
    HealthFit(m.body);
    FieldsMakeHealth(m.body);
    RoundTrip(CODEC, EMPTY, m.body, FieldsFrom(HealthLayout(m.body), 1, 4), m.unknown);
  }

  lemma TimeFits(m: Message<Condition>)
    ensures m.body.lastChange != None ==> |T.StampBytes(m.body.lastChange.value)| <= |Bytes(m)|
  {
    hide EncodeAll;
    var layout := HealthLayout(m.body);
    BytesSteps(layout, m.unknown, 4);
    BytesStep(layout, m.unknown, 4, 4);
    if m.body.lastChange != None {
      EncodeOne(BytesField(4, T.StampBytes(m.body.lastChange.value)));
    }
  }

  // ---------------------------------------------------------------- merging

  /** The timestamp of the second condition, if it has one, is merged into that of the first. */
  function MergedTime(a: Option<TimeMessage>, b: Option<TimeMessage>): Option<TimeMessage> {
    if b == None then a
    else
      var there := if a == None then T.NO_TIME else a.value;
      Some(Message(T.Merged(there.body, b.value.body), there.unknown + b.value.unknown))
  }

  function Merged(a: Condition, b: Condition): Condition {
    Condition(
      a.unknown || b.unknown, a.healthy || b.healthy, if b.lastMessage == [] then a.lastMessage else b.lastMessage,
      MergedTime(a.lastChange, b.lastChange))
  }

  lemma TimeMerges(b: Condition, h: Condition, r: Condition)
    requires TimeWellFormed(h.lastChange) && r == b.(lastChange := MergedTime(b.lastChange, h.lastChange))
    requires h.lastChange != None ==> |T.StampBytes(h.lastChange.value)| <= MAX_INT
    ensures Makes(CODEC, b, HealthField(h, 4) + [], r)
  {
    if h.lastChange == None {
      MakesNothing(CODEC, b);
      assert HealthField(h, 4) + [] == [];
    } else {
      var rec := BytesField(4, T.StampBytes(h.lastChange.value));
      assert HealthField(h, 4) + [] == [rec];
      T.StampMerges(if b.lastChange == None then T.NO_TIME else b.lastChange.value, h.lastChange.value);
      MakesOne(CODEC, b, rec, r);
    }
  }

  lemma FieldsMerge(a: Condition, h: Condition)
    requires TimeWellFormed(h.lastChange)
    requires h.lastChange != None ==> |T.StampBytes(h.lastChange.value)| <= MAX_INT
    ensures Makes(CODEC, a, FieldsFrom(HealthLayout(h), 1, 4), Merged(a, h))
  {
    hide Makes, OptBytes, OptBool, OptMessage, MergedTime, TimeWellFormed;
    var layout, r := HealthLayout(h), Merged(a, h);
    var h1 := a.(unknown := r.unknown);
    var h2 := h1.(healthy := r.healthy);
    var h3 := h2.(lastMessage := r.lastMessage);
    MakesBool(CODEC, a, 1, h.unknown, h1, FieldsFrom(layout, 2, 4), r);
    MakesBool(CODEC, h1, 2, h.healthy, h2, FieldsFrom(layout, 3, 4), r);
    MakesBytes(CODEC, h2, 3, h.lastMessage, h3, FieldsFrom(layout, 4, 4), r);
    assert FieldsFrom(layout, 4, 4) == HealthField(h, 4) + [];
    TimeMerges(h3, h, r);
  }

  /** Decoding the encoding of a health message into another one merges the two, timestamps included. */
  lemma HealthMerges(m: Message<Condition>, n: Message<Condition>)
    requires |Bytes(n)| <= MAX_INT && WellFormed(n)
    ensures Unmarshal(CODEC, m, Bytes(n)) == Ok(Message(Merged(m.body, n.body), m.unknown + n.unknown))
  {
    hide Makes, UnknownOnly, Unmarshal;
    TimeFits(n);
    FieldsMerge(m.body, n.body);
    DecodingMerges(CODEC, m, FieldsFrom(HealthLayout(n.body), 1, 4), Merged(m.body, n.body), n.unknown);
  }

  // ---------------------------------------------------------------- what decoding leaves unknown

  function TimeUnknown(h: Condition): nat {
    if h.lastChange == None then 0 else |h.lastChange.value.unknown|
  }

  lemma ApplyKeeps(h: Condition, rec: Record)
    requires TimeWellFormed(h.lastChange) && Apply(h, rec).Ok?
    requires rec.BytesField? ==> TimeUnknown(h) + |rec.body| <= MAX_INT
    ensures TimeWellFormed(Apply(h, rec).value.lastChange)
    ensures TimeUnknown(Apply(h, rec).value) <= TimeUnknown(h) + if rec.BytesField? then |rec.body| else 0
  {
    hide UnknownOnly, Parse;
    if rec.BytesField? && rec.num == 4 {
      var t := if h.lastChange == None then T.NO_TIME else h.lastChange.value;
      NothingUnknown(T.SCHEMA);
      UnknownKept(T.CODEC, t, rec.body, 0);
      UnknownLength(T.CODEC, t, rec.body, 0);
    }
  }

  lemma AbsorbKeeps(m: Message<Condition>, rec: Record, length: nat)
    requires WellFormed(m) && Absorb(CODEC, m, rec).Ok?
    requires |m.unknown| + length <= MAX_INT && TimeUnknown(m.body) + length <= MAX_INT
    requires rec.BytesField? ==> |rec.body| <= length
    requires rec.Unknown? ==> |rec.raw| == length && UnknownOnly(SCHEMA, rec.raw, 0)
    ensures WellFormed(Absorb(CODEC, m, rec).value)
    ensures |Absorb(CODEC, m, rec).value.unknown| <= |m.unknown| + length
    ensures TimeUnknown(Absorb(CODEC, m, rec).value.body) <= TimeUnknown(m.body) + length
  {
    hide UnknownOnly, Apply;
    if rec.Unknown? {
      UnknownAppend(SCHEMA, m.unknown, rec.raw, 0);
    } else {
      ApplyKeeps(m.body, rec);
    }
  }

  /** Decoding into a well-formed message leaves a well-formed one. */
  lemma {:induction false} HealthKept(m: Message<Condition>, s: seq<byte>, i: nat)
    requires i <= |s| <= MAX_INT && WellFormed(m) && Parse(CODEC, m, s, i).Ok?
    requires |m.unknown| + |s| - i <= MAX_INT && TimeUnknown(m.body) + |s| - i <= MAX_INT
    ensures WellFormed(Parse(CODEC, m, s, i).value)
    ensures |Parse(CODEC, m, s, i).value.unknown| <= |m.unknown| + |s| - i
    ensures TimeUnknown(Parse(CODEC, m, s, i).value.body) <= TimeUnknown(m.body) + |s| - i
    decreases |s| - i
  {
    if i < |s| {
      hide NextRecord, Absorb, WellFormed, UnknownOnly;
      var step := NextRecord(SCHEMA, s, i).value;
      if step.record.Unknown? {
        RawIsSlice(SCHEMA, s, i);
        RawReadsBack(SCHEMA, s, i);
      }
      AbsorbKeeps(m, step.record, step.next - i);
      HealthKept(Absorb(CODEC, m, step.record).value, s, step.next);
    }
  }

  /** Whatever bytes a health message was decoded from, encoding and decoding it again changes nothing. */
  lemma HealthReencodes(s: seq<byte>, m: Message<Condition>)
    requires |s| <= MAX_INT && |Bytes(m)| <= MAX_INT && Unmarshal(CODEC, FRESH, s) == Ok(m)
    ensures Unmarshal(CODEC, FRESH, Bytes(m)) == Ok(m)
  {
    hide Parse, Bytes;
    NothingUnknown(SCHEMA);
    HealthKept(FRESH, s, 0);
    HealthRoundTrip(m);
  }

  class ServiceSpec_Health {
    var unknown: bool
    var healthy: bool
    var lastMessage: seq<byte>
    var lastChange: Option<TimeMessage>
    var unknownFields: seq<byte>

    ghost function Value(): Message<Condition>
      reads this
    {
      Message(Condition(unknown, healthy, lastMessage, lastChange), unknownFields)
    }

    constructor ()
      ensures Value() == FRESH
    {
      unknown, healthy, lastMessage, lastChange, unknownFields := false, false, [], None, [];
    }

    method SizeVT() returns (n: nat)
      ensures n == |Bytes(Value())|
    {
      hide OptBytes, OptBool, OptMessage, EncodeAll, BytesFrom, Extends;
      ghost var layout, u := HealthLayout(Value().body), unknownFields;
      BytesSteps(layout, u, 4);
      n := SizeOfOptBool(1, unknown);
      BytesStep(layout, u, 1, 4);
      var l := SizeOfOptBool(2, healthy);
      BytesStep(layout, u, 2, 4);
      n := n + l;
      l := SizeOfOptBytes(3, lastMessage);
      BytesStep(layout, u, 3, 4);
      n := n + l;
      var size := if lastChange == None then 0 else |T.StampBytes(lastChange.value)|;
      l := SizeOfOptMessage(4, lastChange != None, size, TimeBytes(lastChange));
      BytesStep(layout, u, 4, 4);
      n := n + l;
      n := n + |unknownFields|;
    }

    /** Writes the message into the bytes of dAtA that end just before index end. */
    method MarshalToSizedBufferVT(dAtA: array<byte>, end: nat) returns (size: nat)
      requires |Bytes(Value())| <= end <= dAtA.Length <= MAX_INT
      modifies dAtA
      ensures size == |Bytes(Value())|
      ensures dAtA[..] == Overwrite(old(dAtA[..]), end - size, Bytes(Value()))
    {
      hide OptBytes, OptBool, OptMessage, EncodeAll, BytesFrom, Written, Extends, Overwrite;
      ghost var layout, u, was := HealthLayout(Value().body), unknownFields, dAtA[..];
      BytesSteps(layout, u, 4);
      var i := PutUnknown(dAtA, end, unknownFields);
      i := PutTime(dAtA, i, was, BytesFrom(layout, u, 5, 4), BytesFrom(layout, u, 4, 4));
      i := PutOptBytes(dAtA, i, 3, lastMessage, was, BytesFrom(layout, u, 4, 4), BytesFrom(layout, u, 3, 4));
      i := PutOptBool(dAtA, i, 2, healthy, was, BytesFrom(layout, u, 3, 4), BytesFrom(layout, u, 2, 4));
      i := PutOptBool(dAtA, i, 1, unknown, was, BytesFrom(layout, u, 2, 4), Bytes(Value()));
      WrittenIsOverwrite(was, dAtA[..], i, Bytes(Value()));
      size := end - i;
    }

    /** The timestamp is written by its own code, then its length and key. */
    method PutTime(dAtA: array<byte>, i: nat, ghost was: seq<byte>, ghost tail: seq<byte>, ghost whole: seq<byte>)
      returns (j: nat)
      requires Extends(whole, OptMessage(4, TimeBytes(lastChange)), tail) && Written(was, dAtA[..], i, tail)
      requires |whole| - |tail| <= i <= dAtA.Length <= MAX_INT
      modifies dAtA
      ensures j + |whole| == i + |tail| && Written(was, dAtA[..], j, whole)
    {
      hide Written;
      MessageBytes(4, TimeBytes(lastChange), tail, whole);
      j := i;
      if lastChange != None {
        KeyIsByte(4, 2);
        var body := T.StampBytes(lastChange.value);
        j := PutRaw(dAtA, i, body, was, tail);
        j := PutHeader(dAtA, j, 4, |body|, was, body + tail);
      }
    }

    method MarshalVT() returns (dAtA: array<byte>)
      requires |Bytes(Value())| <= MAX_INT
      ensures fresh(dAtA) && dAtA[..] == Bytes(Value())
    {
      hide Bytes, Overwrite;
      ghost var m := Value();
      var size := SizeVT();
      dAtA := new byte[size];
      OverwriteAll(dAtA[..], Bytes(m));
      var n := MarshalToSizedBufferVT(dAtA, size);
    }

    /** On success the message is what Unmarshal says; an error leaves it partly filled. */
    method UnmarshalVT(dAtA: seq<byte>) returns (err: Option<Error>)
      requires |dAtA| <= MAX_INT
      modifies this
      ensures Unmarshal(CODEC, old(Value()), dAtA).Ok? ==>
                err == None && Value() == Unmarshal(CODEC, old(Value()), dAtA).value
      ensures Unmarshal(CODEC, old(Value()), dAtA).Err? ==> err == Some(Unmarshal(CODEC, old(Value()), dAtA).error)
    {
      hide TagAt, FieldAt, SkipAt, Apply, Parse;
      var iNdEx := 0;
      err := None;
      while iNdEx < |dAtA|
        invariant 0 <= iNdEx <= |dAtA| && err == None
        invariant Parse(CODEC, Value(), dAtA, iNdEx) == Unmarshal(CODEC, old(Value()), dAtA)
        decreases |dAtA| - iNdEx
      {
        ParseTurn(CODEC, Value(), dAtA, iNdEx);
        var preIndex := iNdEx;
        var fieldNum: int32, wireType: nat;
        err, fieldNum, wireType, iNdEx := ReadTag(dAtA, iNdEx);
        if err != None {
          return;
        }
        if fieldNum in SCHEMA {
          err, iNdEx := UnmarshalField(dAtA, fieldNum, wireType, iNdEx);
        } else {
          err, iNdEx := SkipField(dAtA, preIndex, |dAtA|);
          if err == None {
            unknownFields := unknownFields + dAtA[preIndex..iNdEx];
          }
        }
        if err != None {
          return;
        }
      }
      ParseEnd(CODEC, Value(), dAtA);
    }

    /** The switch over the known fields in UnmarshalVT. */
    method UnmarshalField(dAtA: seq<byte>, fieldNum: int32, wireType: nat, start: nat)
      returns (err: Option<Error>, iNdEx: nat)
      requires |dAtA| <= MAX_INT && fieldNum in SCHEMA
      modifies this
      ensures FieldAt(SCHEMA[fieldNum], dAtA, Tag(fieldNum, wireType, start)).Err? ==>
                err == Some(FieldAt(SCHEMA[fieldNum], dAtA, Tag(fieldNum, wireType, start)).error)
      ensures FieldAt(SCHEMA[fieldNum], dAtA, Tag(fieldNum, wireType, start)).Ok? ==> (
                var step := FieldAt(SCHEMA[fieldNum], dAtA, Tag(fieldNum, wireType, start)).value;
                var applied := Apply(old(Value().body), step.record);
                && (applied.Err? ==> err == Some(applied.error))
                && (applied.Ok? ==> err == None && iNdEx == step.next)
                && (applied.Ok? ==> Value() == Message(applied.value, old(unknownFields))))
    {
      hide Scan, SpanAt, Unmarshal;
      var v: uint64, post: nat;
      iNdEx := start;
      if fieldNum <= 2 {
        if wireType != 0 {
          return Some(WrongWireType(fieldNum, wireType)), start;
        }
        err, v, iNdEx := ReadUint64(dAtA, iNdEx);
        if err == None {
          if fieldNum == 1 {
            unknown := v != 0;
          } else {
            healthy := v != 0;
          }
        }
      } else {
        if wireType != 2 {
          return Some(WrongWireType(fieldNum, wireType)), start;
        }
        err, iNdEx, post := ReadSpan(dAtA, iNdEx);
        if err != None {
          return;
        }
        if fieldNum == 3 {
          lastMessage := dAtA[iNdEx..post];
        } else {
          var merged := MergeTime(lastChange, dAtA[iNdEx..post]);
          if merged.Err? {
            return Some(merged.error), post;
          }
          lastChange := Some(merged.value);
        }
        iNdEx := post;
      }
    }

    method EqualVT(that: ServiceSpec_Health) returns (equal: bool)
      ensures equal <==> Value() == that.Value()
    {
      if this == that {
        return true;
      }
      if unknown != that.unknown || healthy != that.healthy || lastMessage != that.lastMessage {
        return false;
      }
      if lastChange != that.lastChange {
        return false;
      }
      return unknownFields == that.unknownFields;
    }

    method CloneVT() returns (r: ServiceSpec_Health)
      ensures fresh(r) && r.Value() == Value()
    {
      r := new ServiceSpec_Health();
      r.unknown, r.healthy, r.lastMessage := unknown, healthy, lastMessage;
      r.lastChange, r.unknownFields := lastChange, unknownFields;
    }
  }
}
