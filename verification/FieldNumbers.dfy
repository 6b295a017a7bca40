/**
 * The fields of each message by their numbers on the wire: what the bytes of a message are, and what
 * reading one field does, with numbers that no writer would send included.
 */
module FieldNumbers {
  import opened Ints
  import opened Results
  import opened Varints
  import opened Wire
  import opened Encoding
  import opened Codecs
  import opened Writer
  import M = MachineTask
  import C = ClusterStatus
  import E = EventSinkState
  import T = Timestamp
  import H = Health
  import S = Service
  import U = UnknownFields

  /** Reading a single field is absorbing it. */
  lemma ReadsField<B>(c: Codec<B>, m: Message<B>, rec: Record)
    requires Fits(c.schema, rec) && |Encode(rec)| <= MAX_INT
    ensures SameOutcome(Unmarshal(c, m, Encode(rec)), Absorb(c, m, rec))
  {
    hide Encode, Absorb, Fits;
    assert Encode(rec) + [] == Encode(rec);
    ParseFirst(c, m, rec, []);
  }

  function NumberOf(num: nat, value: uint64): seq<byte> {
    if value == 0 then [] else EncodeNumber(num, value)
  }

  function BytesOf(num: nat, body: seq<byte>): seq<byte> {
    if body == [] then [] else EncodeBytes(num, body)
  }

  function AllBytesOf(num: nat, bodies: seq<seq<byte>>): seq<byte> {
    if bodies == [] then [] else EncodeBytes(num, bodies[0]) + AllBytesOf(num, bodies[1..])
  }

  lemma {:induction false} RepeatedIs(num: nat, bodies: seq<seq<byte>>)
    ensures EncodeAll(Repeated(num, bodies)) == AllBytesOf(num, bodies)
  {
    hide EncodeBytes;
    if bodies != [] {
      RepeatedIs(num, bodies[1..]);
      var first, rest := BytesField(num, bodies[0]), Repeated(num, bodies[1..]);
      assert ([first] + rest)[1..] == rest;
    }
  }

  lemma OptsAre(num: nat, value: uint64, flag: bool, body: seq<byte>, message: Option<seq<byte>>)
    ensures EncodeAll(OptNumber(num, value)) == NumberOf(num, value)
    ensures EncodeAll(OptBool(num, flag)) == NumberOf(num, if flag then 1 else 0)
    ensures EncodeAll(OptBytes(num, body)) == BytesOf(num, body)
    ensures EncodeAll(OptMessage(num, message)) == if message == None then [] else EncodeBytes(num, message.value)
  {
    hide EncodeAll, EncodeBytes, EncodeNumber;
    EncodeOne(NumberField(num, value));
    EncodeOne(NumberField(num, 1));
    EncodeOne(BytesField(num, body));
    EncodeNone();
    if message != None {
      EncodeOne(BytesField(num, message.value));
    }
  }

  lemma EncodeNone()
    ensures EncodeAll([]) == []
  {
  }

  /** The bytes of a message are those of its first field and the rest. */
  lemma First(layout: Layout, u: seq<byte>, num: nat, last: nat)
    ensures num <= last ==>
              BytesFrom(layout, u, num, last) == EncodeAll(layout(num)) + BytesFrom(layout, u, num + 1, last)
    ensures num > last ==> BytesFrom(layout, u, num, last) == u
  {
    if num <= last {
      EncodeMore(layout(num), FieldsFrom(layout, num + 1, last), u);
    }
  }

  lemma NumberFits(num: nat, value: uint64)
    requires num < MAX_FIELD
    ensures |EncodeNumber(num, value)| <= MAX_INT
  {
    hide Varint;
    Uint64Length(8 * num);
    Uint64Length(value);
  }

  // ---------------------------------------------------------------- MachineTaskSpec

  /** The bytes of a task, field by field. */
  lemma TaskBytes(t: M.Task, u: seq<byte>)
    ensures M.Bytes(Message(t, u)) ==
              NumberOf(1, ToUint64(t.slot)) + (BytesOf(2, t.uuid) + (BytesOf(3, t.schematic) + (
              BytesOf(4, t.talosVersion) + (BytesOf(5, t.connectionArgs) + (
              NumberOf(6, if t.secureBoot then 1 else 0) + (BytesOf(7, t.bootFactoryUrl) + u))))))
  {
    hide EncodeAll, BytesFrom, EncodeBytes, EncodeNumber, OptNumber, OptBool, OptBytes, OptMessage, Repeated;
    var layout := M.TaskLayout(t);
    First(layout, u, 1, 7);
    First(layout, u, 2, 7);
    First(layout, u, 3, 7);
    First(layout, u, 4, 7);
    First(layout, u, 5, 7);
    First(layout, u, 6, 7);
    First(layout, u, 7, 7);
    First(layout, u, 8, 7);
    OptsAre(1, ToUint64(t.slot), false, [], None);
    OptsAre(2, 0, false, t.uuid, None);
    OptsAre(3, 0, false, t.schematic, None);
    OptsAre(4, 0, false, t.talosVersion, None);
    OptsAre(5, 0, false, t.connectionArgs, None);
    OptsAre(6, 0, t.secureBoot, [], None);
    OptsAre(7, 0, false, t.bootFactoryUrl, None);
  }

  /** What reading each field does; the slot keeps the low 32 bits, with their sign. */
  lemma TaskReads(m: Message<M.Task>, v: uint64, b: seq<byte>)
    requires |EncodeBytes(2, b)| <= MAX_INT && |EncodeBytes(3, b)| <= MAX_INT && |EncodeBytes(4, b)| <= MAX_INT &&
              |EncodeBytes(5, b)| <= MAX_INT && |EncodeBytes(7, b)| <= MAX_INT
    ensures Unmarshal(M.CODEC, m, EncodeNumber(1, v)) == Ok(Message(m.body.(slot := ToInt32(v % TWO_32)), m.unknown))
    ensures Unmarshal(M.CODEC, m, EncodeNumber(6, v)) == Ok(Message(m.body.(secureBoot := v != 0), m.unknown))
    ensures Unmarshal(M.CODEC, m, EncodeBytes(2, b)) == Ok(Message(m.body.(uuid := b), m.unknown))
    ensures Unmarshal(M.CODEC, m, EncodeBytes(3, b)) == Ok(Message(m.body.(schematic := b), m.unknown))
    ensures Unmarshal(M.CODEC, m, EncodeBytes(4, b)) == Ok(Message(m.body.(talosVersion := b), m.unknown))
    ensures Unmarshal(M.CODEC, m, EncodeBytes(5, b)) == Ok(Message(m.body.(connectionArgs := b), m.unknown))
    ensures Unmarshal(M.CODEC, m, EncodeBytes(7, b)) == Ok(Message(m.body.(bootFactoryUrl := b), m.unknown))
  {
    hide EncodeBytes, EncodeNumber, Unmarshal, Uint32;
    U.UintIsMod(v);
    NumberFits(1, v);
    ReadsField(M.CODEC, m, NumberField(1, v));
    NumberFits(6, v);
    ReadsField(M.CODEC, m, NumberField(6, v));
    ReadsField(M.CODEC, m, BytesField(2, b));
    ReadsField(M.CODEC, m, BytesField(3, b));
    ReadsField(M.CODEC, m, BytesField(4, b));
    ReadsField(M.CODEC, m, BytesField(5, b));
    ReadsField(M.CODEC, m, BytesField(7, b));
  }

  // ---------------------------------------------------------------- ClusterStatusSpec

  /** The bytes of a status, field by field. */
  lemma StatusBytes(t: C.Status, u: seq<byte>)
    ensures C.Bytes(Message(t, u)) ==
              NumberOf(1, if t.bootstrapped then 1 else 0) + (NumberOf(2, t.controlPlanes) + (
              NumberOf(3, t.workers) + (AllBytesOf(4, t.denyEtcdMembers) + (BytesOf(5, t.kubeconfig) + u))))
  {
    hide EncodeAll, BytesFrom, EncodeBytes, EncodeNumber, OptNumber, OptBool, OptBytes, OptMessage, Repeated;
    var layout := C.StatusLayout(t);
    First(layout, u, 1, 5);
    First(layout, u, 2, 5);
    First(layout, u, 3, 5);
    First(layout, u, 4, 5);
    First(layout, u, 5, 5);
    First(layout, u, 6, 5);
    OptsAre(1, 0, t.bootstrapped, [], None);
    OptsAre(2, t.controlPlanes, false, [], None);
    OptsAre(3, t.workers, false, [], None);
    RepeatedIs(4, t.denyEtcdMembers);
    OptsAre(5, 0, false, t.kubeconfig, None);
  }

  /** What reading each field does; the counters keep the low 32 bits. */
  lemma StatusReads(m: Message<C.Status>, v: uint64, b: seq<byte>)
    requires |EncodeBytes(4, b)| <= MAX_INT && |EncodeBytes(5, b)| <= MAX_INT
    ensures Unmarshal(C.CODEC, m, EncodeNumber(1, v)) == Ok(Message(m.body.(bootstrapped := v != 0), m.unknown))
    ensures Unmarshal(C.CODEC, m, EncodeNumber(2, v)) == Ok(Message(m.body.(controlPlanes := v % TWO_32), m.unknown))
    ensures Unmarshal(C.CODEC, m, EncodeNumber(3, v)) == Ok(Message(m.body.(workers := v % TWO_32), m.unknown))
    ensures Unmarshal(C.CODEC, m, EncodeBytes(4, b)) ==
              Ok(Message(m.body.(denyEtcdMembers := m.body.denyEtcdMembers + [b]), m.unknown))
    ensures Unmarshal(C.CODEC, m, EncodeBytes(5, b)) == Ok(Message(m.body.(kubeconfig := b), m.unknown))
  {
    hide EncodeBytes, EncodeNumber, Unmarshal, Uint32;
    U.UintIsMod(v);
    NumberFits(1, v);
    ReadsField(C.CODEC, m, NumberField(1, v));
    NumberFits(2, v);
    ReadsField(C.CODEC, m, NumberField(2, v));
    NumberFits(3, v);
    ReadsField(C.CODEC, m, NumberField(3, v));
    ReadsField(C.CODEC, m, BytesField(4, b));
    ReadsField(C.CODEC, m, BytesField(5, b));
  }

  // ---------------------------------------------------------------- the timestamp, ServiceSpec_Health and ServiceSpec

  /** The bytes of a timestamp, field by field. */
  lemma StampBytes(t: T.Stamp, u: seq<byte>)
    ensures T.StampBytes(Message(t, u)) ==
              NumberOf(1, ToUint64(t.seconds)) + (NumberOf(2, ToUint64(t.nanos)) + u)
  {
    hide EncodeAll, BytesFrom, EncodeBytes, EncodeNumber, OptNumber, OptBool, OptBytes, OptMessage, Repeated;
    var layout := T.StampLayout(t);
    First(layout, u, 1, 2);
    First(layout, u, 2, 2);
    First(layout, u, 3, 2);
    OptsAre(1, ToUint64(t.seconds), false, [], None);
    OptsAre(2, ToUint64(t.nanos), false, [], None);
  }

  /** What reading each field does, with the signs that 64 and 32 bits give. */
  lemma StampReads(m: Message<T.Stamp>, v: uint64, b: seq<byte>)
    ensures Unmarshal(T.CODEC, m, EncodeNumber(1, v)) == Ok(Message(m.body.(seconds := ToInt64(v)), m.unknown))
    ensures Unmarshal(T.CODEC, m, EncodeNumber(2, v)) == Ok(Message(m.body.(nanos := ToInt32(v % TWO_32)), m.unknown))
  {
    hide EncodeBytes, EncodeNumber, Unmarshal, Uint32;
    U.UintIsMod(v);
    NumberFits(1, v);
    ReadsField(T.CODEC, m, NumberField(1, v));
    NumberFits(2, v);
    ReadsField(T.CODEC, m, NumberField(2, v));
  }

  /** The bytes of a health, field by field; a timestamp is written if there is one, even an empty one. */
  lemma HealthBytes(t: H.Condition, u: seq<byte>)
    ensures H.Bytes(Message(t, u)) ==
              NumberOf(1, if t.unknown then 1 else 0) + (NumberOf(2, if t.healthy then 1 else 0) + (
              BytesOf(3, t.lastMessage) + (
              (if t.lastChange == None then [] else EncodeBytes(4, T.StampBytes(t.lastChange.value))) + u)))
  {
    hide EncodeAll, BytesFrom, EncodeBytes, EncodeNumber, OptNumber, OptBool, OptBytes, OptMessage, Repeated;
    var layout := H.HealthLayout(t);
    First(layout, u, 1, 4);
    First(layout, u, 2, 4);
    First(layout, u, 3, 4);
    First(layout, u, 4, 4);
    First(layout, u, 5, 4);
    OptsAre(1, 0, t.unknown, [], None);
    OptsAre(2, 0, t.healthy, [], None);
    OptsAre(3, 0, false, t.lastMessage, None);
    OptsAre(4, 0, false, [], H.TimeBytes(t.lastChange));
  }

  /** What reading each field of its own does. */
  lemma HealthReads(m: Message<H.Condition>, v: uint64, b: seq<byte>)
    requires |EncodeBytes(3, b)| <= MAX_INT
    ensures Unmarshal(H.CODEC, m, EncodeNumber(1, v)) == Ok(Message(m.body.(unknown := v != 0), m.unknown))
    ensures Unmarshal(H.CODEC, m, EncodeNumber(2, v)) == Ok(Message(m.body.(healthy := v != 0), m.unknown))
    ensures Unmarshal(H.CODEC, m, EncodeBytes(3, b)) == Ok(Message(m.body.(lastMessage := b), m.unknown))
  {
    hide EncodeBytes, EncodeNumber, Unmarshal, Uint32;
    U.UintIsMod(v);
    NumberFits(1, v);
    ReadsField(H.CODEC, m, NumberField(1, v));
    NumberFits(2, v);
    ReadsField(H.CODEC, m, NumberField(2, v));
    ReadsField(H.CODEC, m, BytesField(3, b));
  }

  /** A timestamp is read into the one that is there, or else into an empty one, and may be refused. */
  lemma HealthReadsTime(m: Message<H.Condition>, b: seq<byte>)
    requires |EncodeBytes(4, b)| <= MAX_INT
    ensures var r := Unmarshal(T.CODEC, if m.body.lastChange == None then T.NO_TIME else m.body.lastChange.value, b);
            && (Unmarshal(H.CODEC, m, EncodeBytes(4, b)).Ok? <==> r.Ok?)
            && (r.Ok? ==>
                  Unmarshal(H.CODEC, m, EncodeBytes(4, b)) ==
                    Ok(Message(m.body.(lastChange := Some(r.value)), m.unknown)))
  {
    hide EncodeBytes, Unmarshal;
    ReadsField(H.CODEC, m, BytesField(4, b));
  }

  /** The bytes of a service, field by field; a health is written if there is one, even an empty one. */
  lemma ServiceBytes(t: S.Unit, u: seq<byte>)
    ensures S.Bytes(Message(t, u)) ==
              BytesOf(1, t.id) + (BytesOf(2, t.state) + (
              (if t.health == None then [] else EncodeBytes(3, H.Bytes(t.health.value))) + u))
  {
    hide EncodeAll, BytesFrom, EncodeBytes, EncodeNumber, OptNumber, OptBool, OptBytes, OptMessage, Repeated;
    var layout := S.UnitLayout(t);
    First(layout, u, 1, 3);
    First(layout, u, 2, 3);
    First(layout, u, 3, 3);
    First(layout, u, 4, 3);
    OptsAre(1, 0, false, t.id, None);
    OptsAre(2, 0, false, t.state, None);
    OptsAre(3, 0, false, [], S.HealthBytes(t.health));
  }

  /** What reading each field of its own does. */
  lemma ServiceReads(m: Message<S.Unit>, b: seq<byte>)
    requires |EncodeBytes(1, b)| <= MAX_INT && |EncodeBytes(2, b)| <= MAX_INT
    ensures Unmarshal(S.CODEC, m, EncodeBytes(1, b)) == Ok(Message(m.body.(id := b), m.unknown))
    ensures Unmarshal(S.CODEC, m, EncodeBytes(2, b)) == Ok(Message(m.body.(state := b), m.unknown))
  {
    hide EncodeBytes, EncodeNumber, Unmarshal, Uint32;
    ReadsField(S.CODEC, m, BytesField(1, b));
    ReadsField(S.CODEC, m, BytesField(2, b));
  }

  /** A health is read into the one that is there, or else into an empty one, and may be refused. */
  lemma ServiceReadsHealth(m: Message<S.Unit>, b: seq<byte>)
    requires |EncodeBytes(3, b)| <= MAX_INT
    ensures var r := Unmarshal(H.CODEC, if m.body.health == None then H.FRESH else m.body.health.value, b);
            && (Unmarshal(S.CODEC, m, EncodeBytes(3, b)).Ok? <==> r.Ok?)
            && (r.Ok? ==>
                  Unmarshal(S.CODEC, m, EncodeBytes(3, b)) ==
                    Ok(Message(m.body.(health := Some(r.value)), m.unknown)))
  {
    hide EncodeBytes, Unmarshal;
    ReadsField(S.CODEC, m, BytesField(3, b));
  }

  // ---------------------------------------------------------------- EventSinkStateSpec

  /** The bytes of the entries of a map, in the order of a visit. */
  function EntryBytes(v: E.Versions, order: seq<seq<byte>>): seq<byte>
    requires E.AllIn(order, v)
  {
    if order == [] then []
    else
      EncodeBytes(1, EncodeBytes(1, order[0]) + EncodeNumber(2, v[order[0]])) + EntryBytes(v, order[1..])
  }

  lemma {:induction false} EntriesAre(v: E.Versions, order: seq<seq<byte>>)
    requires E.AllIn(order, v)
    ensures EncodeAll(E.Entries(v, order)) == EntryBytes(v, order)
  {
    hide EncodeBytes, EncodeNumber;
    if order != [] {
      EntriesAre(v, order[1..]);
      var first, rest := EntryField(1, order[0], v[order[0]]), E.Entries(v, order[1..]);
      assert ([first] + rest)[1..] == rest;
    }
  }

  /** The bytes of a map of versions, entry by entry. */
  lemma StateBytes(v: E.Versions, u: seq<byte>, order: seq<seq<byte>>)
    requires E.Visits(order, v.Keys) && E.AllIn(order, v)
    ensures E.Bytes(Message(v, u), order) == EntryBytes(v, order) + u
  {
    EntriesAre(v, order);
  }

  /** What reading one entry does. */
  lemma StateReads(m: Message<E.Versions>, key: seq<byte>, v: uint64)
    requires |EncodeBytes(1, EncodeBytes(1, key) + EncodeNumber(2, v))| <= MAX_INT
    ensures Unmarshal(E.CODEC, m, EncodeBytes(1, EncodeBytes(1, key) + EncodeNumber(2, v))) ==
              Ok(Message(m.body[key := v], m.unknown))
  {
    hide EncodeBytes, EncodeNumber, Unmarshal;
    ReadsField(E.CODEC, m, EntryField(1, key, v));
  }

  // ---------------------------------------------------------------- a field of a newer version

  const NEWER: seq<byte> := [50, 2, 8, 1]

  lemma NewerIsField()
    ensures EncodeBytes(6, [8, 1]) == NEWER
  {
    assert Varint(50) == [50] && Varint(2) == [2];
  }

  lemma NewerIsUnknown()
    ensures UnknownOnly(C.SCHEMA, NEWER, 0)
  {
    hide EncodeBytes, Varint, Key, U.Bytes, U.IsUnknown, UnknownOnly;
    NewerIsField();
    var body: seq<byte> := [8, 1];
    U.NewerFields(C.SCHEMA, 6, 0, body, [0, 0, 0, 0, 0, 0, 0, 0], [0, 0, 0, 0], []);
    var f := U.Delimited(Key(6, 2), Varint(|body|), body);
    assert [f][1..] == [] && U.AllBytes([]) == [];
    assert U.AllBytes([f]) == NEWER && U.AllUnknown(C.SCHEMA, [f]);
    U.UnknownExactly(C.SCHEMA, NEWER);
  }

  /** A field 6 of two bytes is kept as unknown, and its bytes are not read as fields. */
  lemma NewerStatusField()
    ensures Unmarshal(C.CODEC, Message(C.EMPTY, []), NEWER) == Ok(Message(C.EMPTY, NEWER))
  {
    hide UnknownOnly, Parse;
    NewerIsUnknown();
    ParseUnknown(C.CODEC, Message(C.EMPTY, []), NEWER, 0);
    assert [] + NEWER[0..] == NEWER;
    UnmarshalIsParse(C.CODEC, Message(C.EMPTY, []), NEWER);
  }

  lemma UnmarshalIsParse<B>(c: Codec<B>, m: Message<B>, s: seq<byte>)
    ensures Unmarshal(c, m, s) == Parse(c, m, s, 0)
  {
  }
}
