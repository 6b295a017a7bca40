/** The codec of ClusterStatusSpec: a boolean, two counters, repeated strings and bytes. */
module ClusterStatus {
  import opened Ints
  import opened Results
  import opened Varints
  import opened Wire
  import opened Encoding
  import opened Codecs
  import opened Reader
  import opened Writer

  datatype Status = Status(
    bootstrapped: bool, controlPlanes: uint32, workers: uint32,
    denyEtcdMembers: seq<seq<byte>>, kubeconfig: seq<byte>)

  const EMPTY: Status := Status(false, 0, 0, [], [])

  const SCHEMA: Schema := map[
    1 := NumberKind, 2 := NumberKind, 3 := NumberKind, 4 := BytesKind, 5 := BytesKind]

  /** What reading one field does: repeated strings are appended, the last value of the others wins. */
  function Apply(t: Status, rec: Record): (r: Result<Status>)
    ensures r.Ok?
  {
    match rec
    case NumberField(1, v) => Ok(t.(bootstrapped := v != 0))
    case NumberField(2, v) => Ok(t.(controlPlanes := Uint32(v)))
    case NumberField(3, v) => Ok(t.(workers := Uint32(v)))
    case BytesField(4, b) => Ok(t.(denyEtcdMembers := t.denyEtcdMembers + [b]))
    case BytesField(5, b) => Ok(t.(kubeconfig := b))
    case _ => Ok(t)
  }

  const CODEC: Codec<Status> := Codec(SCHEMA, Apply)

  function StatusField(t: Status, num: nat): seq<Record> {
    match num
    case 1 => OptBool(1, t.bootstrapped)
    case 2 => OptNumber(2, t.controlPlanes)
    case 3 => OptNumber(3, t.workers)
    case 4 => Repeated(4, t.denyEtcdMembers)
    case 5 => OptBytes(5, t.kubeconfig)
    case _ => []
  }

  function StatusLayout(t: Status): Layout {
    (num: nat) => StatusField(t, num)
  }

  /** The encoding of a message: its fields in order, then the bytes it does not know. */
  function Bytes(m: Message<Status>): seq<byte> {
    BytesFrom(StatusLayout(m.body), m.unknown, 1, 5)
  }

  lemma Uint32ReadsBack(v: uint32)
    ensures Uint32(v) == v
  {
    PowersOfTwo();
    LowBound(v, 32);
  }

  /** Reading the members of the deny list appends them in order. */
  lemma {:induction false} MakesMembers(b: Status, members: seq<seq<byte>>, rest: seq<Record>, result: Status)
    ensures Makes(CODEC, b, Repeated(4, members) + rest, result)
       <==> Makes(CODEC, b.(denyEtcdMembers := b.denyEtcdMembers + members), rest, result)
    decreases |members|
  {
    hide Makes;
    if members == [] {
      assert b.denyEtcdMembers + members == b.denyEtcdMembers;
      assert Repeated(4, members) + rest == rest;
    } else {
      var first := [BytesField(4, members[0])];
      var b' := b.(denyEtcdMembers := b.denyEtcdMembers + [members[0]]);
      assert Repeated(4, members) + rest == first + (Repeated(4, members[1..]) + rest);
      MakesMore(CODEC, b, first, b', Repeated(4, members[1..]) + rest, result);
      MakesMembers(b', members[1..], rest, result);
      assert b'.denyEtcdMembers + members[1..] == b.denyEtcdMembers + members;
    }
  }

  /** Two statuses merged: what the second one writes wins, and its denied members are appended. */
  function Merged(a: Status, b: Status): Status {
    Status(
      a.bootstrapped || b.bootstrapped,
      if b.controlPlanes == 0 then a.controlPlanes else b.controlPlanes,
      if b.workers == 0 then a.workers else b.workers,
      a.denyEtcdMembers + b.denyEtcdMembers,
      if b.kubeconfig == [] then a.kubeconfig else b.kubeconfig)
  }

  /** Reading the fields of a status into another one merges the two. */
  lemma FieldsMerge(a: Status, t: Status)
    ensures Makes(CODEC, a, FieldsFrom(StatusLayout(t), 1, 5), Merged(a, t))
  {
    hide Makes, OptNumber, OptBytes, OptBool, Repeated, Uint32;
    var layout, r := StatusLayout(t), Merged(a, t);
    var t1 := a.(bootstrapped := r.bootstrapped);
    var t2 := t1.(controlPlanes := r.controlPlanes);
    var t3 := t2.(workers := r.workers);
    var t4 := t3.(denyEtcdMembers := r.denyEtcdMembers);
    MakesNothing(CODEC, r);
    Uint32ReadsBack(t.controlPlanes);
    Uint32ReadsBack(t.workers);
    MakesBool(CODEC, a, 1, t.bootstrapped, t1, FieldsFrom(layout, 2, 5), r);
    MakesNumber(CODEC, t1, 2, t.controlPlanes, t2, FieldsFrom(layout, 3, 5), r);
    MakesNumber(CODEC, t2, 3, t.workers, t3, FieldsFrom(layout, 4, 5), r);
    MakesMembers(t3, t.denyEtcdMembers, FieldsFrom(layout, 5, 5), r);
    MakesBytes(CODEC, t4, 5, t.kubeconfig, r, [], r);
  }

  /** Decoding the encoding of a status into another one merges the two. */
  lemma StatusMerges(m: Message<Status>, n: Message<Status>)
    requires |Bytes(n)| <= MAX_INT && UnknownOnly(SCHEMA, n.unknown, 0)
    ensures Unmarshal(CODEC, m, Bytes(n)) == Ok(Message(Merged(m.body, n.body), m.unknown + n.unknown))
  {
    FieldsMerge(m.body, n.body);
    DecodingMerges(CODEC, m, FieldsFrom(StatusLayout(n.body), 1, 5), Merged(m.body, n.body), n.unknown);
  }

  /** Decoding the encoding of a status gives it back, exactly when its unknown bytes are unknown fields. */
  lemma StatusRoundTrip(m: Message<Status>)
    requires |Bytes(m)| <= MAX_INT
    ensures Unmarshal(CODEC, Message(EMPTY, []), Bytes(m)) == Ok(m) <==> UnknownOnly(SCHEMA, m.unknown, 0)
  {
    FieldsMerge(EMPTY, m.body);
    assert [] + m.body.denyEtcdMembers == m.body.denyEtcdMembers;
    assert Merged(EMPTY, m.body) == m.body;
    var recs := FieldsFrom(StatusLayout(m.body), 1, 5);
    assert AllFit(SCHEMA, recs);
    RoundTrip(CODEC, EMPTY, m.body, recs, m.unknown);
  }

  /** Whatever bytes a status was decoded from, encoding and decoding it again changes nothing. */
  lemma StatusReencodes(s: seq<byte>, m: Message<Status>)
    requires |s| <= MAX_INT && |Bytes(m)| <= MAX_INT && Unmarshal(CODEC, Message(EMPTY, []), s) == Ok(m)
    ensures Unmarshal(CODEC, Message(EMPTY, []), Bytes(m)) == Ok(m)
  {
    UnknownKept(CODEC, Message(EMPTY, []), s, 0);
    StatusRoundTrip(m);
  }

  class ClusterStatusSpec {
    var bootstrapped: bool
    var controlPlanes: uint32
    var workers: uint32
    var denyEtcdMembers: seq<seq<byte>>
    var kubeconfig: seq<byte>
    var unknownFields: seq<byte>

    ghost function Value(): Message<Status>
      reads this
    {
      Message(Status(bootstrapped, controlPlanes, workers, denyEtcdMembers, kubeconfig), unknownFields)
    }

    constructor ()
      ensures Value() == Message(EMPTY, [])
    {
      bootstrapped, controlPlanes, workers, denyEtcdMembers, kubeconfig, unknownFields := false, 0, 0, [], [], [];
    }

    method SizeVT() returns (n: nat)
      ensures n == |Bytes(Value())|
    {
      hide OptNumber, OptBytes, OptBool, Repeated, EncodeAll, BytesFrom, Extends;
      ghost var layout, u := StatusLayout(Value().body), unknownFields;
      BytesSteps(layout, u, 5);
      n := SizeOfOptBool(1, bootstrapped);
      BytesStep(layout, u, 1, 5);
      var l := SizeOfOptNumber(2, controlPlanes);
      BytesStep(layout, u, 2, 5);
      n := n + l;
      l := SizeOfOptNumber(3, workers);
      BytesStep(layout, u, 3, 5);
      n := n + l;
      l := SizeOfRepeated(4, denyEtcdMembers);
      BytesStep(layout, u, 4, 5);
      n := n + l;
      l := SizeOfOptBytes(5, kubeconfig);
      BytesStep(layout, u, 5, 5);
      n := n + l;
      n := n + |unknownFields|;
    }

    /** Writes the message into the bytes of dAtA that end just before index end. */
    method MarshalToSizedBufferVT(dAtA: array<byte>, end: nat) returns (size: nat)
      requires |Bytes(Value())| <= end <= dAtA.Length <= MAX_INT
      modifies dAtA
      ensures size == |Bytes(Value())|
      ensures dAtA[..] == Overwrite(old(dAtA[..]), end - size, Bytes(Value()))
    {
      hide OptNumber, OptBytes, OptBool, Repeated, EncodeAll, BytesFrom, Written, Extends, Overwrite;
      ghost var layout, u, was := StatusLayout(Value().body), unknownFields, dAtA[..];
      BytesSteps(layout, u, 5);
      var i := PutUnknown(dAtA, end, unknownFields);
      i := PutOptBytes(dAtA, i, 5, kubeconfig, was, BytesFrom(layout, u, 6, 5), BytesFrom(layout, u, 5, 5));
      i := PutRepeated(dAtA, i, 4, denyEtcdMembers, was, BytesFrom(layout, u, 5, 5), BytesFrom(layout, u, 4, 5));
      i := PutOptNumber(dAtA, i, 3, workers, was, BytesFrom(layout, u, 4, 5), BytesFrom(layout, u, 3, 5));
      i := PutOptNumber(dAtA, i, 2, controlPlanes, was, BytesFrom(layout, u, 3, 5), BytesFrom(layout, u, 2, 5));
      i := PutOptBool(dAtA, i, 1, bootstrapped, was, BytesFrom(layout, u, 2, 5), Bytes(Value()));
      WrittenIsOverwrite(was, dAtA[..], i, Bytes(Value()));
      size := end - i;
    }

    method MarshalVT() returns (dAtA: array<byte>)
      requires |Bytes(Value())| <= MAX_INT
      ensures fresh(dAtA) && dAtA[..] == Bytes(Value())
    {
      hide Bytes, Overwrite;
      ghost var m := Value();
      var size := SizeVT();
      dAtA := new byte[size];
      OverwriteAll(dAtA[..], Bytes(m));
      var n := MarshalToSizedBufferVT(dAtA, size);
    }

    /** On success the message is what Unmarshal says; an error leaves it partly filled. */
    method UnmarshalVT(dAtA: seq<byte>) returns (err: Option<Error>)
      requires |dAtA| <= MAX_INT
      modifies this
      ensures Unmarshal(CODEC, old(Value()), dAtA).Ok? ==>
                err == None && Value() == Unmarshal(CODEC, old(Value()), dAtA).value
      ensures Unmarshal(CODEC, old(Value()), dAtA).Err? ==> err == Some(Unmarshal(CODEC, old(Value()), dAtA).error)
    {
      hide TagAt, FieldAt, SkipAt, Apply, Parse;
      var iNdEx := 0;
      err := None;
      while iNdEx < |dAtA|
        invariant 0 <= iNdEx <= |dAtA| && err == None
        invariant Parse(CODEC, Value(), dAtA, iNdEx) == Unmarshal(CODEC, old(Value()), dAtA)
        decreases |dAtA| - iNdEx
      {
        ParseTurn(CODEC, Value(), dAtA, iNdEx);
        var preIndex := iNdEx;
        var fieldNum: int32, wireType: nat;
        err, fieldNum, wireType, iNdEx := ReadTag(dAtA, iNdEx);
        if err != None {
          return;
        }
        if fieldNum in SCHEMA {
          err, iNdEx := UnmarshalField(dAtA, fieldNum, wireType, iNdEx);
        } else {
          err, iNdEx := SkipField(dAtA, preIndex, |dAtA|);
          if err == None {
            unknownFields := unknownFields + dAtA[preIndex..iNdEx];
          }
        }
        if err != None {
          return;
        }
      }
      ParseEnd(CODEC, Value(), dAtA);
    }

    /** The switch over the known fields in UnmarshalVT. */
    method UnmarshalField(dAtA: seq<byte>, fieldNum: int32, wireType: nat, start: nat)
      returns (err: Option<Error>, iNdEx: nat)
      requires |dAtA| <= MAX_INT && fieldNum in SCHEMA
      modifies this
      ensures FieldAt(SCHEMA[fieldNum], dAtA, Tag(fieldNum, wireType, start)).Err? ==>
                err == Some(FieldAt(SCHEMA[fieldNum], dAtA, Tag(fieldNum, wireType, start)).error)
      ensures FieldAt(SCHEMA[fieldNum], dAtA, Tag(fieldNum, wireType, start)).Ok? ==> (
                var step := FieldAt(SCHEMA[fieldNum], dAtA, Tag(fieldNum, wireType, start)).value;
                && err == None
                && iNdEx == step.next
                && Value() == Message(Apply(old(Value().body), step.record).value, old(unknownFields)))
    {
      hide Scan, SpanAt;
      var v: uint64, post: nat;
      iNdEx := start;
      if fieldNum <= 3 {
        if wireType != 0 {
          return Some(WrongWireType(fieldNum, wireType)), start;
        }
        if fieldNum == 1 {
          err, v, iNdEx := ReadUint64(dAtA, iNdEx);
          if err == None {
            bootstrapped := v != 0;
          }
        } else {
          var w: uint32;
          err, w, iNdEx := ReadUint32(dAtA, iNdEx);
          if err == None {
            if fieldNum == 2 {
              controlPlanes := w;
            } else {
              workers := w;
            }
          }
        }
      } else {
        if wireType != 2 {
          return Some(WrongWireType(fieldNum, wireType)), start;
        }
        err, iNdEx, post := ReadSpan(dAtA, iNdEx);
        if err != None {
          return;
        }
        if fieldNum == 4 {
          denyEtcdMembers := denyEtcdMembers + [dAtA[iNdEx..post]];
        } else {
          kubeconfig := dAtA[iNdEx..post];
        }
        iNdEx := post;
      }
    }

    /** The strings are compared one by one, after their number. */
    method EqualVT(that: ClusterStatusSpec) returns (equal: bool)
      ensures equal <==> Value() == that.Value()
    {
      if this == that {
        return true;
      }
      if bootstrapped != that.bootstrapped || controlPlanes != that.controlPlanes || workers != that.workers {
        return false;
      }
      if |denyEtcdMembers| != |that.denyEtcdMembers| {
        return false;
      }
      for i := 0 to |denyEtcdMembers|
        invariant denyEtcdMembers[..i] == that.denyEtcdMembers[..i]
      {
        if denyEtcdMembers[i] != that.denyEtcdMembers[i] {
          return false;
        }
      }
      assert denyEtcdMembers == denyEtcdMembers[..|denyEtcdMembers|];
      assert that.denyEtcdMembers == that.denyEtcdMembers[..|denyEtcdMembers|];
      return kubeconfig == that.kubeconfig && unknownFields == that.unknownFields;
    }

    method CloneVT() returns (r: ClusterStatusSpec)
      ensures fresh(r) && r.Value() == Value()
    {
      r := new ClusterStatusSpec();
      r.bootstrapped, r.controlPlanes, r.workers := bootstrapped, controlPlanes, workers;
      r.denyEtcdMembers, r.kubeconfig, r.unknownFields := denyEtcdMembers, kubeconfig, unknownFields;
    }
  }
}
