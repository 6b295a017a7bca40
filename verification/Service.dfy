/** The codec of ServiceSpec: two strings and a health message that may be absent. */
module Service {
  import opened Ints
  import opened Results
  import opened Varints
  import opened Wire
  import opened Encoding
  import opened Codecs
  import opened Reader
  import opened Writer
  import H = Health

  type HealthMessage = Message<H.Condition>

  datatype Unit = Unit(id: seq<byte>, state: seq<byte>, health: Option<HealthMessage>)

  const EMPTY: Unit := Unit([], [], None)
  const FRESH: Message<Unit> := Message(EMPTY, [])

  const SCHEMA: Schema := map[1 := BytesKind, 2 := BytesKind, 3 := BytesKind]

  /** Reading a health message merges it into the one that is already there. */
  function MergeHealth(h: Option<HealthMessage>, b: seq<byte>): Result<HealthMessage> {
    Unmarshal(H.CODEC, if h == None then H.FRESH else h.value, b)
  }

  function Apply(t: Unit, rec: Record): Result<Unit> {
    match rec
    case BytesField(1, b) => Ok(t.(id := b))
    case BytesField(2, b) => Ok(t.(state := b))
    case BytesField(3, b) => (
      match MergeHealth(t.health, b)
      case Err(e) => Err(e)
      case Ok(h) => Ok(t.(health := Some(h)))
    )
    case _ => Ok(t)
  }

  const CODEC: Codec<Unit> := Codec(SCHEMA, Apply)

  function HealthBytes(h: Option<HealthMessage>): Option<seq<byte>> {
    if h == None then None else Some(H.Bytes(h.value))
  }

  function UnitField(t: Unit, num: nat): seq<Record> {
    match num
    case 1 => OptBytes(1, t.id)
    case 2 => OptBytes(2, t.state)
    case 3 => OptMessage(3, HealthBytes(t.health))
    case _ => []
  }

  function UnitLayout(t: Unit): Layout {
    (num: nat) => UnitField(t, num)
  }

  /** The encoding of a message: its fields in order, then the bytes it does not know. */
  function Bytes(m: Message<Unit>): seq<byte> {
    BytesFrom(UnitLayout(m.body), m.unknown, 1, 3)
  }

  /** The unknown bytes of the message, and of every message inside it, are unknown fields. */
  predicate WellFormed(m: Message<Unit>) {
    UnknownOnly(SCHEMA, m.unknown, 0) && HealthWellFormed(m.body.health)
  }

  predicate HealthWellFormed(h: Option<HealthMessage>) {
    h == None || H.WellFormed(h.value)
  }

  lemma UnitFit(t: Unit)
    ensures AllFit(SCHEMA, FieldsFrom(UnitLayout(t), 1, 3))
  {
    hide HealthBytes;
  }

  /** The fields of a service make it exactly when its health survives its own round trip. */
  lemma FieldsMakeUnit(t: Unit)
    requires t.health != None ==> |H.Bytes(t.health.value)| <= MAX_INT
    ensures Makes(CODEC, EMPTY, FieldsFrom(UnitLayout(t), 1, 3), t) <==> HealthWellFormed(t.health)
  {
    hide Makes, OptBytes, OptMessage;
    var layout := UnitLayout(t);
    var t1 := EMPTY.(id := t.id);
    var t2 := t1.(state := t.state);
    MakesBytes(CODEC, EMPTY, 1, t.id, t1, FieldsFrom(layout, 2, 3), t);
    MakesBytes(CODEC, t1, 2, t.state, t2, FieldsFrom(layout, 3, 3), t);
    assert FieldsFrom(layout, 3, 3) == UnitField(t, 3) + [];
    HealthMakes(t2, t);
  }

  lemma HealthMakes(b: Unit, t: Unit)
    requires b == t.(health := None)
    requires t.health != None ==> |H.Bytes(t.health.value)| <= MAX_INT
    ensures Makes(CODEC, b, UnitField(t, 3) + [], t) <==> HealthWellFormed(t.health)
  {
    if t.health == None {
      MakesNothing(CODEC, b);
      assert UnitField(t, 3) + [] == [];
    } else {
      var rec := BytesField(3, H.Bytes(t.health.value));
      assert UnitField(t, 3) + [] == [rec];
      H.HealthRoundTrip(t.health.value);
      MakesOne(CODEC, b, rec, t);
    }
  }

  /**
   * Decoding the encoding of a service gives it back, exactly when the unknown bytes at every level
   * are unknown fields. A health message that is present but empty stays present.
   */
  lemma ServiceRoundTrip(m: Message<Unit>)
    requires |Bytes(m)| <= MAX_INT
    ensures Unmarshal(CODEC, FRESH, Bytes(m)) == Ok(m) <==> WellFormed(m)
  {
    hide Makes, UnknownOnly;
    HealthFits(m);
    UnitFit(m.body);
    FieldsMakeUnit(m.body);
    RoundTrip(CODEC, EMPTY, m.body, FieldsFrom(UnitLayout(m.body), 1, 3), m.unknown);
  }

  lemma HealthFits(m: Message<Unit>)
    ensures m.body.health != None ==> |H.Bytes(m.body.health.value)| <= |Bytes(m)|
  {
    hide EncodeAll;
    var layout := UnitLayout(m.body);
    BytesSteps(layout, m.unknown, 3);
    BytesStep(layout, m.unknown, 3, 3);
    if m.body.health != None {
      EncodeOne(BytesField(3, H.Bytes(m.body.health.value)));
    }
  }

  // ---------------------------------------------------------------- merging

  /** The health of the second service, if it has one, is merged into that of the first. */
  function MergedHealth(a: Option<HealthMessage>, b: Option<HealthMessage>): Option<HealthMessage> {
    if b == None then a
    else
      var there := if a == None then H.FRESH else a.value;
      Some(Message(H.Merged(there.body, b.value.body), there.unknown + b.value.unknown))
  }

  function Merged(a: Unit, b: Unit): Unit {
    Unit(
      if b.id == [] then a.id else b.id, if b.state == [] then a.state else b.state,
      MergedHealth(a.health, b.health))
  }

  lemma HealthMerges(b: Unit, t: Unit, r: Unit)
    requires HealthWellFormed(t.health) && r == b.(health := MergedHealth(b.health, t.health))
    requires t.health != None ==> |H.Bytes(t.health.value)| <= MAX_INT
    ensures Makes(CODEC, b, UnitField(t, 3) + [], r)
  {
    if t.health == None {
      MakesNothing(CODEC, b);
      assert UnitField(t, 3) + [] == [];
    } else {
      var rec := BytesField(3, H.Bytes(t.health.value));
      assert UnitField(t, 3) + [] == [rec];
      H.HealthMerges(if b.health == None then H.FRESH else b.health.value, t.health.value);
      MakesOne(CODEC, b, rec, r);
    }
  }

  lemma FieldsMerge(a: Unit, t: Unit)
    requires HealthWellFormed(t.health)
    requires t.health != None ==> |H.Bytes(t.health.value)| <= MAX_INT
    ensures Makes(CODEC, a, FieldsFrom(UnitLayout(t), 1, 3), Merged(a, t))
  {
    hide Makes, OptBytes, OptMessage, MergedHealth, HealthWellFormed;
    var layout, r := UnitLayout(t), Merged(a, t);
    var t1 := a.(id := r.id);
    var t2 := t1.(state := r.state);
    MakesBytes(CODEC, a, 1, t.id, t1, FieldsFrom(layout, 2, 3), r);
    MakesBytes(CODEC, t1, 2, t.state, t2, FieldsFrom(layout, 3, 3), r);
    assert FieldsFrom(layout, 3, 3) == UnitField(t, 3) + [];
    HealthMerges(t2, t, r);
  }

  /** Decoding the encoding of a service into another one merges the two, and their healths. */
  lemma ServiceMerges(m: Message<Unit>, n: Message<Unit>)
    requires |Bytes(n)| <= MAX_INT && WellFormed(n)
    ensures Unmarshal(CODEC, m, Bytes(n)) == Ok(Message(Merged(m.body, n.body), m.unknown + n.unknown))
  {
    hide Makes, UnknownOnly, Unmarshal;
    HealthFits(n);
    FieldsMerge(m.body, n.body);
    DecodingMerges(CODEC, m, FieldsFrom(UnitLayout(n.body), 1, 3), Merged(m.body, n.body), n.unknown);
  }

  // ---------------------------------------------------------------- what decoding leaves unknown

  /** The most unknown bytes at one level below the message itself. */
  predicate Light(t: Unit, limit: int) {
    t.health == None || (|t.health.value.unknown| <= limit && H.TimeUnknown(t.health.value.body) <= limit)
  }

  lemma ApplyKeeps(t: Unit, rec: Record, limit: nat, length: nat)
    requires HealthWellFormed(t.health) && Light(t, limit) && Apply(t, rec).Ok? && limit + length <= MAX_INT
    requires rec.BytesField? ==> |rec.body| <= length
    ensures HealthWellFormed(Apply(t, rec).value.health) && Light(Apply(t, rec).value, limit + length)
  {
    hide Parse, H.WellFormed;
    if rec.BytesField? && rec.num == 3 {
      var h := if t.health == None then H.FRESH else t.health.value;
      FreshHealth();
      H.HealthKept(h, rec.body, 0);
    }
  }

  lemma FreshHealth()
    ensures H.WellFormed(H.FRESH) && H.TimeUnknown(H.EMPTY) == 0
  {
    NothingUnknown(H.SCHEMA);
  }

  lemma AbsorbKeeps(m: Message<Unit>, rec: Record, limit: nat, length: nat)
    requires WellFormed(m) && |m.unknown| <= limit && Light(m.body, limit) && limit + length <= MAX_INT
    requires Absorb(CODEC, m, rec).Ok?
    requires rec.BytesField? ==> |rec.body| <= length
    requires rec.Unknown? ==> |rec.raw| == length && UnknownOnly(SCHEMA, rec.raw, 0)
    ensures WellFormed(Absorb(CODEC, m, rec).value)
    ensures |Absorb(CODEC, m, rec).value.unknown| <= limit + length
    ensures Light(Absorb(CODEC, m, rec).value.body, limit + length)
  {
    hide UnknownOnly, Apply, HealthWellFormed;
    if rec.Unknown? {
      UnknownAppend(SCHEMA, m.unknown, rec.raw, 0);
    } else {
      ApplyKeeps(m.body, rec, limit, length);
    }
  }

  /** Decoding into a well-formed message leaves a well-formed one. */
  lemma {:induction false} ServiceKept(m: Message<Unit>, s: seq<byte>, i: nat, limit: nat)
    requires i <= |s| <= MAX_INT && WellFormed(m) && Parse(CODEC, m, s, i).Ok?
    requires |m.unknown| <= limit && Light(m.body, limit) && limit + |s| - i <= MAX_INT
    ensures WellFormed(Parse(CODEC, m, s, i).value)
    decreases |s| - i
  {
    if i < |s| {
      hide NextRecord, Absorb, WellFormed, UnknownOnly, Light;
      var step := NextRecord(SCHEMA, s, i).value;
      if step.record.Unknown? {
        RawIsSlice(SCHEMA, s, i);
        RawReadsBack(SCHEMA, s, i);
      }
      AbsorbKeeps(m, step.record, limit, step.next - i);
      ServiceKept(Absorb(CODEC, m, step.record).value, s, step.next, limit + step.next - i);
    }
  }

  /** Whatever bytes a service was decoded from, encoding and decoding it again changes nothing. */
  lemma ServiceReencodes(s: seq<byte>, m: Message<Unit>)
    requires |s| <= MAX_INT && |Bytes(m)| <= MAX_INT && Unmarshal(CODEC, FRESH, s) == Ok(m)
    ensures Unmarshal(CODEC, FRESH, Bytes(m)) == Ok(m)
  {
    hide Parse, Bytes, UnknownOnly;
    NothingUnknown(SCHEMA);
    ServiceKept(FRESH, s, 0, 0);
    ServiceRoundTrip(m);
  }

  class ServiceSpec {
    var id: seq<byte>
    var state: seq<byte>
    var health: H.ServiceSpec_Health?
    var unknownFields: seq<byte>

    ghost function Value(): Message<Unit>
      reads this, health
    {
      Message(Unit(id, state, if health == null then None else Some(health.Value())), unknownFields)
    }

    constructor ()
      ensures Value() == FRESH && health == null
    {
      id, state, health, unknownFields := [], [], null, [];
    }

    method SizeVT() returns (n: nat)
      ensures n == |Bytes(Value())|
    {
      hide OptBytes, OptMessage, EncodeAll, BytesFrom, Extends, H.Bytes;
      ghost var layout, u := UnitLayout(Value().body), unknownFields;
      BytesSteps(layout, u, 3);
      n := SizeOfOptBytes(1, id);
      BytesStep(layout, u, 1, 3);
      var l := SizeOfOptBytes(2, state);
      BytesStep(layout, u, 2, 3);
      n := n + l;
      var size := 0;
      if health != null {
        size := health.SizeVT();
      }
      l := SizeOfOptMessage(3, health != null, size, HealthBytes(Value().body.health));
      BytesStep(layout, u, 3, 3);
      n := n + l;
      n := n + |unknownFields|;
    }

    /** Writes the message into the bytes of dAtA that end just before index end. */
    method MarshalToSizedBufferVT(dAtA: array<byte>, end: nat) returns (size: nat)
      requires |Bytes(Value())| <= end <= dAtA.Length <= MAX_INT
      modifies dAtA
      ensures size == |Bytes(Value())|
      ensures dAtA[..] == Overwrite(old(dAtA[..]), end - size, Bytes(Value()))
    {
      hide OptBytes, OptMessage, EncodeAll, BytesFrom, Written, Extends, Overwrite, H.Bytes;
      ghost var layout, u, was := UnitLayout(Value().body), unknownFields, dAtA[..];
      BytesSteps(layout, u, 3);
      var i := PutUnknown(dAtA, end, unknownFields);
      i := PutHealth(dAtA, i, was, BytesFrom(layout, u, 4, 3), BytesFrom(layout, u, 3, 3));
      i := PutOptBytes(dAtA, i, 2, state, was, BytesFrom(layout, u, 3, 3), BytesFrom(layout, u, 2, 3));
      i := PutOptBytes(dAtA, i, 1, id, was, BytesFrom(layout, u, 2, 3), Bytes(Value()));
      WrittenIsOverwrite(was, dAtA[..], i, Bytes(Value()));
      size := end - i;
    }

    /** The health message is written by its own method, then its length and key. */
    method PutHealth(dAtA: array<byte>, i: nat, ghost was: seq<byte>, ghost tail: seq<byte>, ghost whole: seq<byte>)
      returns (j: nat)
      requires Extends(whole, OptMessage(3, HealthBytes(Value().body.health)), tail) && Written(was, dAtA[..], i, tail)
      requires |whole| - |tail| <= i <= dAtA.Length <= MAX_INT
      modifies dAtA
      ensures j + |whole| == i + |tail| && Written(was, dAtA[..], j, whole)
    {
      hide Written, H.Bytes;
      MessageBytes(3, HealthBytes(Value().body.health), tail, whole);
      j := i;
      if health != null {
        KeyIsByte(3, 2);
        ghost var now, body := dAtA[..], H.Bytes(health.Value());
        var size := health.MarshalToSizedBufferVT(dAtA, i);
        j := i - size;
        WriteMore(was, now, dAtA[..], i, tail, j, body);
        j := PutHeader(dAtA, j, 3, size, was, body + tail);
      }
    }

    method MarshalVT() returns (dAtA: array<byte>)
      requires |Bytes(Value())| <= MAX_INT
      ensures fresh(dAtA) && dAtA[..] == Bytes(Value())
    {
      hide Bytes, Overwrite;
      ghost var m := Value();
      var size := SizeVT();
      dAtA := new byte[size];
      OverwriteAll(dAtA[..], Bytes(m));
      var n := MarshalToSizedBufferVT(dAtA, size);
    }

    /** On success the message is what Unmarshal says; an error leaves it partly filled. */
    method UnmarshalVT(dAtA: seq<byte>) returns (err: Option<Error>)
      requires |dAtA| <= MAX_INT
      modifies this, health
      ensures health == old(health) || (old(health) == null && fresh(health))
      ensures Unmarshal(CODEC, old(Value()), dAtA).Ok? ==>
                err == None && Value() == Unmarshal(CODEC, old(Value()), dAtA).value
      ensures Unmarshal(CODEC, old(Value()), dAtA).Err? ==> err == Some(Unmarshal(CODEC, old(Value()), dAtA).error)
    {
      hide TagAt, FieldAt, SkipAt, Apply, Parse;
      var iNdEx := 0;
      err := None;
      while iNdEx < |dAtA|
        invariant 0 <= iNdEx <= |dAtA| && err == None
        invariant health == old(health) || (old(health) == null && fresh(health))
        invariant Parse(CODEC, Value(), dAtA, iNdEx) == Unmarshal(CODEC, old(Value()), dAtA)
        decreases |dAtA| - iNdEx
      {
        ParseTurn(CODEC, Value(), dAtA, iNdEx);
        var preIndex := iNdEx;
        var fieldNum: int32, wireType: nat;
        err, fieldNum, wireType, iNdEx := ReadTag(dAtA, iNdEx);
        if err != None {
          return;
        }
        if fieldNum in SCHEMA {
          err, iNdEx := UnmarshalField(dAtA, fieldNum, wireType, iNdEx);
        } else {
          err, iNdEx := SkipField(dAtA, preIndex, |dAtA|);
          if err == None {
            unknownFields := unknownFields + dAtA[preIndex..iNdEx];
          }
        }
        if err != None {
          return;
        }
      }
      ParseEnd(CODEC, Value(), dAtA);
    }

    /** The switch over the known fields in UnmarshalVT; a health message is created when first met. */
    method UnmarshalField(dAtA: seq<byte>, fieldNum: int32, wireType: nat, start: nat)
      returns (err: Option<Error>, iNdEx: nat)
      requires |dAtA| <= MAX_INT && fieldNum in SCHEMA
      modifies this, health
      ensures health == old(health) || (old(health) == null && fresh(health))
      ensures FieldAt(SCHEMA[fieldNum], dAtA, Tag(fieldNum, wireType, start)).Err? ==>
                err == Some(FieldAt(SCHEMA[fieldNum], dAtA, Tag(fieldNum, wireType, start)).error)
      ensures FieldAt(SCHEMA[fieldNum], dAtA, Tag(fieldNum, wireType, start)).Ok? ==> (
                var step := FieldAt(SCHEMA[fieldNum], dAtA, Tag(fieldNum, wireType, start)).value;
                var applied := Apply(old(Value().body), step.record);
                && (applied.Err? ==> err == Some(applied.error))
                && (applied.Ok? ==> err == None && iNdEx == step.next)
                && (applied.Ok? ==> Value() == Message(applied.value, old(unknownFields))))
    {
      hide Scan, SpanAt, Unmarshal;
      var post: nat;
      iNdEx := start;
      if wireType != 2 {
        return Some(WrongWireType(fieldNum, wireType)), start;
      }
      err, iNdEx, post := ReadSpan(dAtA, iNdEx);
      if err != None {
        return;
      }
      if fieldNum == 1 {
        id := dAtA[iNdEx..post];
      } else if fieldNum == 2 {
        state := dAtA[iNdEx..post];
      } else {
        if health == null {
          health := new H.ServiceSpec_Health();
        }
        err := health.UnmarshalVT(dAtA[iNdEx..post]);
        if err != None {
          return;
        }
      }
      iNdEx := post;
    }

    /** Two absent health messages are equal, an absent and a present one are not. */
    method EqualVT(that: ServiceSpec) returns (equal: bool)
      ensures equal <==> Value() == that.Value()
    {
      if this == that {
        return true;
      }
      if id != that.id || state != that.state {
        return false;
      }
      if health != that.health {
        if health == null || that.health == null {
          return false;
        }
        var same := health.EqualVT(that.health);
        if !same {
          return false;
        }
      }
      return unknownFields == that.unknownFields;
    }

    /** The clone has a health message of its own. */
    method CloneVT() returns (r: ServiceSpec)
      ensures fresh(r) && r.Value() == Value() && (r.health != null ==> fresh(r.health))
    {
      r := new ServiceSpec();
      r.id, r.state, r.unknownFields := id, state, unknownFields;
      if health != null {
        r.health := health.CloneVT();
      }
    }
  }
}
