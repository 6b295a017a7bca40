/** The codec of MachineTaskSpec: a signed 32-bit number, strings and a boolean. */
module MachineTask {
  import opened Ints
  import opened Results
  import opened Varints
  import opened Wire
  import opened Encoding
  import opened Codecs
  import opened Reader
  import opened Writer

  datatype Task = Task(
    slot: int32, uuid: seq<byte>, schematic: seq<byte>, talosVersion: seq<byte>,
    connectionArgs: seq<byte>, secureBoot: bool, bootFactoryUrl: seq<byte>)

  const EMPTY: Task := Task(0, [], [], [], [], false, [])

  const SCHEMA: Schema := map[
    1 := NumberKind, 2 := BytesKind, 3 := BytesKind, 4 := BytesKind,
    5 := BytesKind, 6 := NumberKind, 7 := BytesKind]

  /** What reading one field does: the last value of a field wins, numbers lose their high bits. */
  function Apply(t: Task, rec: Record): (r: Result<Task>)
    ensures r.Ok?
  {
    match rec
    case NumberField(1, v) => Ok(t.(slot := ToInt32(Uint32(v))))
    case BytesField(2, b) => Ok(t.(uuid := b))
    case BytesField(3, b) => Ok(t.(schematic := b))
    case BytesField(4, b) => Ok(t.(talosVersion := b))
    case BytesField(5, b) => Ok(t.(connectionArgs := b))
    case NumberField(6, v) => Ok(t.(secureBoot := v != 0))
    case BytesField(7, b) => Ok(t.(bootFactoryUrl := b))
    case _ => Ok(t)
  }

  const CODEC: Codec<Task> := Codec(SCHEMA, Apply)

  /** The field of a number, absent when it has its default value. */
  function TaskField(t: Task, num: nat): seq<Record> {
    match num
    case 1 => OptNumber(1, ToUint64(t.slot))
    case 2 => OptBytes(2, t.uuid)
    case 3 => OptBytes(3, t.schematic)
    case 4 => OptBytes(4, t.talosVersion)
    case 5 => OptBytes(5, t.connectionArgs)
    case 6 => OptBool(6, t.secureBoot)
    case 7 => OptBytes(7, t.bootFactoryUrl)
    case _ => []
  }

  function TaskLayout(t: Task): Layout {
    (num: nat) => TaskField(t, num)
  }

  /** The encoding of a message: its fields in order, then the bytes it does not know. */
  function Bytes(m: Message<Task>): seq<byte> {
    BytesFrom(TaskLayout(m.body), m.unknown, 1, 7)
  }

  function Last(a: seq<byte>, b: seq<byte>): seq<byte> {
    if b == [] then a else b
  }

  /** Two tasks merged: what the second one writes wins. */
  function Merged(a: Task, b: Task): Task {
    Task(
      if b.slot == 0 then a.slot else b.slot, Last(a.uuid, b.uuid), Last(a.schematic, b.schematic),
      Last(a.talosVersion, b.talosVersion), Last(a.connectionArgs, b.connectionArgs),
      a.secureBoot || b.secureBoot, Last(a.bootFactoryUrl, b.bootFactoryUrl))
  }

  /** The last three fields of a task, read into one that has the others merged already. */
  lemma LastFieldsMerge(b: Task, a: Task, t: Task)
    requires b == Merged(a, t).(connectionArgs := a.connectionArgs, secureBoot := a.secureBoot,
              bootFactoryUrl := a.bootFactoryUrl)
    ensures Makes(CODEC, b, FieldsFrom(TaskLayout(t), 5, 7), Merged(a, t))
  {
    hide Makes, OptBytes, OptBool;
    var layout, r := TaskLayout(t), Merged(a, t);
    var t5 := b.(connectionArgs := r.connectionArgs);
    var t6 := t5.(secureBoot := r.secureBoot);
    MakesNothing(CODEC, r);
    MakesBytes(CODEC, b, 5, t.connectionArgs, t5, FieldsFrom(layout, 6, 7), r);
    MakesBool(CODEC, t5, 6, t.secureBoot, t6, FieldsFrom(layout, 7, 7), r);
    MakesBytes(CODEC, t6, 7, t.bootFactoryUrl, r, [], r);
  }

  /** Reading the fields of a task into another one merges the two. */
  lemma FieldsMerge(a: Task, t: Task)
    ensures Makes(CODEC, a, FieldsFrom(TaskLayout(t), 1, 7), Merged(a, t))
  {
    hide Makes, OptNumber, OptBytes, OptBool;
    var layout, r := TaskLayout(t), Merged(a, t);
    var t1 := a.(slot := r.slot);
    var t2 := t1.(uuid := r.uuid);
    var t3 := t2.(schematic := r.schematic);
    var t4 := t3.(talosVersion := r.talosVersion);
    SignedReadsBack(t.slot);
    MakesNumber(CODEC, a, 1, ToUint64(t.slot), t1, FieldsFrom(layout, 2, 7), r);
    MakesBytes(CODEC, t1, 2, t.uuid, t2, FieldsFrom(layout, 3, 7), r);
    MakesBytes(CODEC, t2, 3, t.schematic, t3, FieldsFrom(layout, 4, 7), r);
    MakesBytes(CODEC, t3, 4, t.talosVersion, t4, FieldsFrom(layout, 5, 7), r);
    LastFieldsMerge(t4, a, t);
  }

  /** Decoding the encoding of a task into another one merges the two. */
  lemma TaskMerges(m: Message<Task>, n: Message<Task>)
    requires |Bytes(n)| <= MAX_INT && UnknownOnly(SCHEMA, n.unknown, 0)
    ensures Unmarshal(CODEC, m, Bytes(n)) == Ok(Message(Merged(m.body, n.body), m.unknown + n.unknown))
  {
    hide Makes, UnknownOnly, Unmarshal, Merged;
    FieldsMerge(m.body, n.body);
    DecodingMerges(CODEC, m, FieldsFrom(TaskLayout(n.body), 1, 7), Merged(m.body, n.body), n.unknown);
  }

  /** Decoding the encoding of a task gives it back, exactly when its unknown bytes are unknown fields. */
  lemma TaskRoundTrip(m: Message<Task>)
    requires |Bytes(m)| <= MAX_INT
    ensures Unmarshal(CODEC, Message(EMPTY, []), Bytes(m)) == Ok(m) <==> UnknownOnly(SCHEMA, m.unknown, 0)
  {
    FieldsMerge(EMPTY, m.body);
    assert Merged(EMPTY, m.body) == m.body;
    var recs := FieldsFrom(TaskLayout(m.body), 1, 7);
    assert AllFit(SCHEMA, recs);
    RoundTrip(CODEC, EMPTY, m.body, recs, m.unknown);
  }

  /** Whatever bytes a task was decoded from, encoding and decoding it again changes nothing. */
  lemma TaskReencodes(s: seq<byte>, m: Message<Task>)
    requires |s| <= MAX_INT && |Bytes(m)| <= MAX_INT && Unmarshal(CODEC, Message(EMPTY, []), s) == Ok(m)
    ensures Unmarshal(CODEC, Message(EMPTY, []), Bytes(m)) == Ok(m)
  {
    UnknownKept(CODEC, Message(EMPTY, []), s, 0);
    TaskRoundTrip(m);
  }

  class MachineTaskSpec {
    var slot: int32
    var uuid: seq<byte>
    var schematic: seq<byte>
    var talosVersion: seq<byte>
    var connectionArgs: seq<byte>
    var secureBoot: bool
    var bootFactoryUrl: seq<byte>
    var unknownFields: seq<byte>

    ghost function Value(): Message<Task>
      reads this
    {
      Message(Task(slot, uuid, schematic, talosVersion, connectionArgs, secureBoot, bootFactoryUrl), unknownFields)
    }

    constructor ()
      ensures Value() == Message(EMPTY, [])
    {
      slot, uuid, schematic, talosVersion := 0, [], [], [];
      connectionArgs, secureBoot, bootFactoryUrl, unknownFields := [], false, [], [];
    }

    method SizeVT() returns (n: nat)
      ensures n == |Bytes(Value())|
    {
      hide OptNumber, OptBytes, OptBool, EncodeAll, BytesFrom, Extends;
      ghost var layout, u := TaskLayout(Value().body), unknownFields;
      BytesSteps(layout, u, 7);
      n := SizeOfOptNumber(1, ToUint64(slot));
      BytesStep(layout, u, 1, 7);
      var l := SizeOfOptBytes(2, uuid);
      BytesStep(layout, u, 2, 7);
      n := n + l;
      l := SizeOfOptBytes(3, schematic);
      BytesStep(layout, u, 3, 7);
      n := n + l;
      l := SizeOfOptBytes(4, talosVersion);
      BytesStep(layout, u, 4, 7);
      n := n + l;
      l := SizeOfOptBytes(5, connectionArgs);
      BytesStep(layout, u, 5, 7);
      n := n + l;
      l := SizeOfOptBool(6, secureBoot);
      BytesStep(layout, u, 6, 7);
      n := n + l;
      l := SizeOfOptBytes(7, bootFactoryUrl);
      BytesStep(layout, u, 7, 7);
      n := n + l;
      n := n + |unknownFields|;
    }

    /** Writes the message into the bytes of dAtA that end just before index end. */
    method MarshalToSizedBufferVT(dAtA: array<byte>, end: nat) returns (size: nat)
      requires |Bytes(Value())| <= end <= dAtA.Length <= MAX_INT
      modifies dAtA
      ensures size == |Bytes(Value())|
      ensures dAtA[..] == Overwrite(old(dAtA[..]), end - size, Bytes(Value()))
    {
      hide OptNumber, OptBytes, OptBool, EncodeAll, BytesFrom, Written, Extends, Overwrite;
      ghost var layout, u, was := TaskLayout(Value().body), unknownFields, dAtA[..];
      BytesSteps(layout, u, 7);
      var i := PutUnknown(dAtA, end, unknownFields);
      i := PutOptBytes(dAtA, i, 7, bootFactoryUrl, was, BytesFrom(layout, u, 8, 7), BytesFrom(layout, u, 7, 7));
      i := PutOptBool(dAtA, i, 6, secureBoot, was, BytesFrom(layout, u, 7, 7), BytesFrom(layout, u, 6, 7));
      i := PutOptBytes(dAtA, i, 5, connectionArgs, was, BytesFrom(layout, u, 6, 7), BytesFrom(layout, u, 5, 7));
      i := PutOptBytes(dAtA, i, 4, talosVersion, was, BytesFrom(layout, u, 5, 7), BytesFrom(layout, u, 4, 7));
      i := PutOptBytes(dAtA, i, 3, schematic, was, BytesFrom(layout, u, 4, 7), BytesFrom(layout, u, 3, 7));
      i := PutOptBytes(dAtA, i, 2, uuid, was, BytesFrom(layout, u, 3, 7), BytesFrom(layout, u, 2, 7));
      i := PutOptNumber(dAtA, i, 1, ToUint64(slot), was, BytesFrom(layout, u, 2, 7), Bytes(Value()));
      WrittenIsOverwrite(was, dAtA[..], i, Bytes(Value()));
      size := end - i;
    }

    method MarshalVT() returns (dAtA: array<byte>)
      requires |Bytes(Value())| <= MAX_INT
      ensures fresh(dAtA) && dAtA[..] == Bytes(Value())
    {
      hide Bytes, Overwrite;
      ghost var m := Value();
      var size := SizeVT();
      dAtA := new byte[size];
      OverwriteAll(dAtA[..], Bytes(m));
      var n := MarshalToSizedBufferVT(dAtA, size);
    }

    /** On success the message is what Unmarshal says; an error leaves it partly filled. */
    method UnmarshalVT(dAtA: seq<byte>) returns (err: Option<Error>)
      requires |dAtA| <= MAX_INT
      modifies this
      ensures Unmarshal(CODEC, old(Value()), dAtA).Ok? ==>
                err == None && Value() == Unmarshal(CODEC, old(Value()), dAtA).value
      ensures Unmarshal(CODEC, old(Value()), dAtA).Err? ==> err == Some(Unmarshal(CODEC, old(Value()), dAtA).error)
    {
      hide TagAt, FieldAt, SkipAt, Apply, Parse;
      var iNdEx := 0;
      err := None;
      while iNdEx < |dAtA|
        invariant 0 <= iNdEx <= |dAtA| && err == None
        invariant Parse(CODEC, Value(), dAtA, iNdEx) == Unmarshal(CODEC, old(Value()), dAtA)
        decreases |dAtA| - iNdEx
      {
        ParseTurn(CODEC, Value(), dAtA, iNdEx);
        var preIndex := iNdEx;
        var fieldNum: int32, wireType: nat;
        err, fieldNum, wireType, iNdEx := ReadTag(dAtA, iNdEx);
        if err != None {
          return;
        }
        if fieldNum in SCHEMA {
          err, iNdEx := UnmarshalField(dAtA, fieldNum, wireType, iNdEx);
        } else {
          err, iNdEx := SkipField(dAtA, preIndex, |dAtA|);
          if err == None {
            unknownFields := unknownFields + dAtA[preIndex..iNdEx];
          }
        }
        if err != None {
          return;
        }
      }
      ParseEnd(CODEC, Value(), dAtA);
    }

    /** The switch over the known fields in UnmarshalVT. */
    method UnmarshalField(dAtA: seq<byte>, fieldNum: int32, wireType: nat, start: nat)
      returns (err: Option<Error>, iNdEx: nat)
      requires |dAtA| <= MAX_INT && fieldNum in SCHEMA
      modifies this
      ensures FieldAt(SCHEMA[fieldNum], dAtA, Tag(fieldNum, wireType, start)).Err? ==>
                err == Some(FieldAt(SCHEMA[fieldNum], dAtA, Tag(fieldNum, wireType, start)).error)
      ensures FieldAt(SCHEMA[fieldNum], dAtA, Tag(fieldNum, wireType, start)).Ok? ==> (
                var step := FieldAt(SCHEMA[fieldNum], dAtA, Tag(fieldNum, wireType, start)).value;
                && err == None
                && iNdEx == step.next
                && Value() == Message(Apply(old(Value().body), step.record).value, old(unknownFields)))
    {
      hide Scan, SpanAt;
      var v: uint64, post: nat;
      iNdEx := start;
      if fieldNum == 1 {
        if wireType != 0 {
          return Some(WrongWireType(1, wireType)), start;
        }
        err, v, iNdEx := ReadUint32(dAtA, iNdEx);
        if err == None {
          slot := ToInt32(v);
        }
      } else if fieldNum == 6 {
        if wireType != 0 {
          return Some(WrongWireType(6, wireType)), start;
        }
        err, v, iNdEx := ReadUint64(dAtA, iNdEx);
        if err == None {
          secureBoot := v != 0;
        }
      } else {
        if wireType != 2 {
          return Some(WrongWireType(fieldNum, wireType)), start;
        }
        err, iNdEx, post := ReadSpan(dAtA, iNdEx);
        if err != None {
          return;
        }
        match fieldNum {
          case 2 => uuid := dAtA[iNdEx..post];
          case 3 => schematic := dAtA[iNdEx..post];
          case 4 => talosVersion := dAtA[iNdEx..post];
          case 5 => connectionArgs := dAtA[iNdEx..post];
          case _ => bootFactoryUrl := dAtA[iNdEx..post];
        }
        iNdEx := post;
      }
    }

    method EqualVT(that: MachineTaskSpec) returns (equal: bool)
      ensures equal <==> Value() == that.Value()
    {
      if this == that {
        return true;
      }
      if slot != that.slot || uuid != that.uuid || schematic != that.schematic || talosVersion != that.talosVersion {
        return false;
      }
      if connectionArgs != that.connectionArgs || secureBoot != that.secureBoot {
        return false;
      }
      if bootFactoryUrl != that.bootFactoryUrl {
        return false;
      }
      return unknownFields == that.unknownFields;
    }

    method CloneVT() returns (r: MachineTaskSpec)
      ensures fresh(r) && r.Value() == Value()
    {
      r := new MachineTaskSpec();
      r.slot, r.uuid, r.schematic, r.talosVersion := slot, uuid, schematic, talosVersion;
      r.connectionArgs, r.secureBoot, r.bootFactoryUrl := connectionArgs, secureBoot, bootFactoryUrl;
      r.unknownFields := unknownFields;
    }
  }
}
