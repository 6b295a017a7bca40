/**
 * The codec of EventSinkStateSpec: a map from strings to 64-bit numbers. Go visits a map in no
 * particular order, so the encoding depends on the order of one visit; its size and what it decodes
 * to do not.
 */
module EventSinkState {
  import opened Ints
  import opened Results
  import opened Varints
  import opened Wire
  import opened Encoding
  import opened Codecs
  import opened Reader
  import opened Writer

  type Versions = map<seq<byte>, uint64>

  const EMPTY: Versions := map[]

  const SCHEMA: Schema := map[1 := EntryKind]

  /** What reading an entry does: a later value of a key replaces an earlier one. */
  function Apply(v: Versions, rec: Record): (r: Result<Versions>)
    ensures r.Ok?
  {
    match rec
    case EntryField(1, key, value) => Ok(v[key := value])
    case _ => Ok(v)
  }

  const CODEC: Codec<Versions> := Codec(SCHEMA, Apply)

  /** The order of one visit to all keys of a map. */
  predicate Visits(order: seq<seq<byte>>, keys: set<seq<byte>>) {
    && (forall k | k in keys :: k in order)
    && (forall i | 0 <= i < |order| :: order[i] in keys)
    && (forall i, j | 0 <= i < j < |order| :: order[i] != order[j])
  }

  predicate AllIn(order: seq<seq<byte>>, v: Versions) {
    forall i | 0 <= i < |order| :: order[i] in v
  }

  /** The entries of a map in the given order. */
  function Entries(v: Versions, order: seq<seq<byte>>): seq<Record>
    requires AllIn(order, v)
  {
    if order == [] then [] else [EntryField(1, order[0], v[order[0]])] + Entries(v, order[1..])
  }

  function Bytes(m: Message<Versions>, order: seq<seq<byte>>): seq<byte>
    requires Visits(order, m.body.Keys)
  {
    EncodeAll(Entries(m.body, order)) + m.unknown
  }

  // ---------------------------------------------------------------- decoding

  lemma {:induction false} EntriesFit(v: Versions, order: seq<seq<byte>>)
    requires AllIn(order, v)
    ensures AllFit(SCHEMA, Entries(v, order))
    decreases |order|
  {
    if order != [] {
      EntriesFit(v, order[1..]);
    }
  }

  /** The part of v that has the given keys. */
  function Picked(v: Versions, keys: seq<seq<byte>>): Versions {
    map k | k in v && k in keys :: v[k]
  }

  lemma PickedFirst(b: Versions, v: Versions, order: seq<seq<byte>>)
    requires AllIn(order, v)
    ensures order == [] ==> b + Picked(v, order) == b
    ensures order != [] ==> b[order[0] := v[order[0]]] + Picked(v, order[1..]) == b + Picked(v, order)
  {
    if order != [] {
      assert order == [order[0]] + order[1..];
    }
  }

  /** Reading the entries of v for some keys into b sets these keys, and no others, as in v. */
  lemma {:induction false} EntriesMake(b: Versions, v: Versions, order: seq<seq<byte>>)
    requires AllIn(order, v)
    ensures Makes(CODEC, b, Entries(v, order), b + Picked(v, order))
    decreases |order|
  {
    hide Makes, Picked;
    PickedFirst(b, v, order);
    if order == [] {
      MakesNothing(CODEC, b);
    } else {
      var key, rest := order[0], order[1..];
      var b' := b[key := v[key]];
      EntriesMake(b', v, rest);
      MakesMore(CODEC, b, [EntryField(1, key, v[key])], b', Entries(v, rest), b' + Picked(v, rest));
    }
  }

  lemma VisitsAll(order: seq<seq<byte>>, v: Versions)
    requires Visits(order, v.Keys)
    ensures AllIn(order, v) && Picked(v, order) == v
  {
  }

  /** Decoding the encoding of a map into another one overrides the values of its keys. */
  lemma StateMerges(m: Message<Versions>, n: Message<Versions>, order: seq<seq<byte>>)
    requires Visits(order, n.body.Keys) && |Bytes(n, order)| <= MAX_INT && UnknownOnly(SCHEMA, n.unknown, 0)
    ensures Unmarshal(CODEC, m, Bytes(n, order)) == Ok(Message(m.body + n.body, m.unknown + n.unknown))
  {
    hide Makes, UnknownOnly, Unmarshal, Visits;
    VisitsAll(order, n.body);
    EntriesMake(m.body, n.body, order);
    DecodingMerges(CODEC, m, Entries(n.body, order), m.body + n.body, n.unknown);
  }

  /**
   * Decoding any encoding of a map gives it back, whatever the order of the visit, exactly when the
   * unknown bytes are unknown fields.
   */
  lemma StateRoundTrip(m: Message<Versions>, order: seq<seq<byte>>)
    requires Visits(order, m.body.Keys) && |Bytes(m, order)| <= MAX_INT
    ensures Unmarshal(CODEC, Message(EMPTY, []), Bytes(m, order)) == Ok(m) <==> UnknownOnly(SCHEMA, m.unknown, 0)
  {
    hide Makes;
    EntriesMake(EMPTY, m.body, order);
    assert EMPTY + Picked(m.body, order) == m.body;
    EntriesFit(m.body, order);
    RoundTrip(CODEC, EMPTY, m.body, Entries(m.body, order), m.unknown);
  }

  /** Whatever bytes a map was decoded from, encoding it in any order and decoding it changes nothing. */
  lemma StateReencodes(s: seq<byte>, m: Message<Versions>, order: seq<seq<byte>>)
    requires Visits(order, m.body.Keys) && |Bytes(m, order)| <= MAX_INT
    requires |s| <= MAX_INT && Unmarshal(CODEC, Message(EMPTY, []), s) == Ok(m)
    ensures Unmarshal(CODEC, Message(EMPTY, []), Bytes(m, order)) == Ok(m)
  {
    UnknownKept(CODEC, Message(EMPTY, []), s, 0);
    StateRoundTrip(m, order);
  }

  // ---------------------------------------------------------------- where entries depart from the standard

  /**
   * An entry is read as if it stood alone exactly when its last field ends where the entry ends: the
   * inner loop reads keys and values up to the end of the input, not up to the end of the entry.
   */
  lemma EntryAlone(s: seq<byte>, start: nat, post: nat)
    requires start <= post <= |s| <= MAX_INT
    ensures EntryFrom(s[..post], start, post, [], 0).Ok?
       <==> EntryFrom(s, start, post, [], 0).Ok? && EntryFrom(s, start, post, [], 0).value.next == post
    ensures EntryFrom(s[..post], start, post, [], 0).Ok? ==>
              EntryFrom(s, start, post, [], 0) == EntryFrom(s[..post], start, post, [], 0)
  {
    hide EntryFrom, Within;
    AppendWithin(s[..post], s[post..]);
    assert s[..post] + s[post..] == s;
    EntryWithin(s[..post], s, 0, start, post, [], 0);
  }

  const OVERRUN: seq<byte> := [10, 2, 10, 1, 16, 5]

  /**
   * A key that runs over the end of its entry: an entry of two bytes announces a key of one byte and
   * takes the byte after the entry, which is then read once more as the tag of an unknown field.
   */
  lemma EntryOverrun()
    ensures EntryFrom(OVERRUN, 2, 4, [], 0) == Ok(Entry([16], 0, 5))
    ensures EntryFrom(OVERRUN[..4], 2, 4, [], 0).Err?
    ensures Unmarshal(CODEC, Message(EMPTY, []), OVERRUN) == Ok(Message(map[[16] := 0], [16, 5]))
  {
    hide EntryFrom, Unmarshal;
    OverrunEntry();
    EntryAlone(OVERRUN, 2, 4);
    OverrunMessage();
  }

  lemma OverrunMessage()
    ensures Unmarshal(CODEC, Message(EMPTY, []), OVERRUN) == Ok(Message(map[[16] := 0], [16, 5]))
  {
    hide NextRecord;
    OverrunRecords();
    var m0, m1, m2 := Message(EMPTY, []), Message(EMPTY[[16] := 0], []), Message(EMPTY[[16] := 0], [16, 5]);
    assert [] + [16, 5] == [16, 5];
    assert Absorb(CODEC, m1, Unknown([16, 5])) == Ok(m2);
    assert Absorb(CODEC, m0, EntryField(1, [16], 0)) == Ok(m1);
    hide Absorb;
    assert Parse(CODEC, m2, OVERRUN, 6) == Ok(m2);
    assert Parse(CODEC, m1, OVERRUN, 4) == Ok(m2);
    assert Parse(CODEC, m0, OVERRUN, 0) == Ok(m2);
  }

  lemma OverrunEntry()
    ensures EntryFrom(OVERRUN, 2, 4, [], 0) == Ok(Entry([16], 0, 5))
  {
    var s := OVERRUN;
    SmallNumbers();
    hide Low, Shl, Or;
    assert Scan(s, 2, 0) == Ok(Number(10, 3)) && Scan(s, 3, 0) == Ok(Number(1, 4));
    assert s[4..5] == [16];
    assert EntryTurn(s, 2, 4, [], 0) == Ok(Entry([16], 0, 5));
  }

  lemma OverrunRecords()
    ensures NextRecord(SCHEMA, OVERRUN, 0) == Ok(Step(EntryField(1, [16], 0), 4))
    ensures NextRecord(SCHEMA, OVERRUN, 4) == Ok(Step(Unknown([16, 5]), 6))
  {
    var s := OVERRUN;
    SmallNumbers();
    hide Low, Shl, Or;
    OverrunEntry();
    hide EntryFrom;
    assert Scan(s, 0, 0) == Ok(Number(10, 1)) && Scan(s, 1, 0) == Ok(Number(2, 2));
    assert Scan(s, 4, 0) == Ok(Number(16, 5));
    assert s[4..] == [16, 5] && s[4..6] == [16, 5];
    OverrunSkip();
  }

  lemma OverrunSkip()
    ensures SkipFrom([16, 5], 0, 0) == Ok(2)
  {
    SmallNumbers();
    hide Low, Shl, Or;
    assert Scan([16, 5], 0, 0) == Ok(Number(16, 1)) && Scan([16, 5], 1, 0) == Ok(Number(5, 2));
  }

  lemma SmallNumbers()
    ensures Uint64(10) == 10 && Uint64(2) == 2 && Uint64(1) == 1 && Uint64(16) == 16 && Uint64(5) == 5
    ensures FieldNum(10) == 1 && FieldNum(16) == 2
  {
    PowersOfTwo();
    forall x: nat | x < 32
      ensures Low(x, 64) == x && Low(x, 32) == x
    {
      LowBound(x, 64);
      LowBound(x, 32);
    }
  }

  /**
   * An entry with its value given twice decodes to the bitwise or of the two, where the sections
   * "Maps" and "Last One Wins" of the encoding specification ask for the second.
   */
  lemma TwoValuesAreOred(key: seq<byte>, a: uint64, b: uint64)
    requires |EncodeEntry(key, a) + EncodeNumber(2, b)| <= MAX_INT
    ensures var e := EncodeEntry(key, a) + EncodeNumber(2, b);
            EntryFrom(e, 0, |e|, [], 0) == Ok(Entry(key, OrUint64(a, b), |e|))
  {
    hide EncodeBytes, EncodeNumber, EntryTurn, Within;
    var first, second, third := EncodeBytes(1, key), EncodeNumber(2, a), EncodeNumber(2, b);
    var e := EncodeEntry(key, a) + third;
    AppendWithin(EncodeEntry(key, a), third);
    WithinParts(first, second, e, 0);
    EntryKeyReadsBack(key, e, 0, |e|);
    EntryValueReadsBack(key, 0, a, e, |first|, |e|);
    EntryValueReadsBack(key, a, b, e, |first| + |second|, |e|);
    OrUint64Zero(a);
    assert EntryFrom(e, |e|, |e|, key, OrUint64(a, b)) == Ok(Entry(key, OrUint64(a, b), |e|));
    assert EntryFrom(e, |first| + |second|, |e|, key, a) == Ok(Entry(key, OrUint64(a, b), |e|));
    assert EntryFrom(e, |first|, |e|, key, 0) == Ok(Entry(key, OrUint64(a, b), |e|));
  }

  /** A message with one map field is read as what its entry is read as. */
  lemma EntryMessage(body: seq<byte>, key: seq<byte>, value: uint64)
    requires |EncodeBytes(1, body)| <= MAX_INT
    requires EntryFrom(body, 0, |body|, [], 0) == Ok(Entry(key, value, |body|))
    ensures Unmarshal(CODEC, Message(EMPTY, []), EncodeBytes(1, body)) == Ok(Message(map[key := value], []))
  {
    hide EntryFrom, EncodeBytes, TagAt, SpanAt, Within;
    var s := EncodeBytes(1, body);
    var start := BytesHeaderReadsBack(1, body);
    assert s[start..start + |body|] == body;
    assert Within(body, s, start) by { SliceWithin(body, s, start); }
    EntryWithin(body, s, start, 0, |body|, [], 0);
    assert NextRecord(SCHEMA, s, 0) == Ok(Step(EntryField(1, key, value), |s|));
    hide NextRecord;
    var m := Message(EMPTY[key := value], []);
    assert Parse(CODEC, m, s, |s|) == Ok(m);
  }

  lemma SliceWithin(body: seq<byte>, s: seq<byte>, start: nat)
    requires start + |body| <= |s| && s[start..start + |body|] == body
    ensures Within(body, s, start)
  {
  }

  lemma OneOrTwo()
    ensures OrUint64(1, 2) == 3
  {
    PowersOfTwo();
    LowBound(2, 64);
    assert Or(1, 2) == 3;
  }

  /** A message whose map entry gives the value one and then two is read as three. */
  lemma OneThenTwo(key: seq<byte>)
    requires |EncodeBytes(1, EncodeEntry(key, 1) + EncodeNumber(2, 2))| <= MAX_INT
    ensures Unmarshal(CODEC, Message(EMPTY, []), EncodeBytes(1, EncodeEntry(key, 1) + EncodeNumber(2, 2))) ==
              Ok(Message(map[key := 3], []))
  {
    hide EntryFrom, EncodeEntry, EncodeNumber, OrUint64;
    TwoValuesAreOred(key, 1, 2);
    OneOrTwo();
    EntryMessage(EncodeEntry(key, 1) + EncodeNumber(2, 2), key, 3);
  }

  // ---------------------------------------------------------------- size

  function EntrySize(v: Versions, key: seq<byte>): nat
    requires key in v
  {
    |EncodeBytes(1, EncodeEntry(key, v[key]))|
  }

  lemma {:induction false} EntriesAppend(v: Versions, a: seq<seq<byte>>, b: seq<seq<byte>>)
    requires AllIn(a, v) && AllIn(b, v)
    ensures AllIn(a + b, v)
    ensures Entries(v, a + b) == Entries(v, a) + Entries(v, b)
    decreases |a|
  {
    assert Entries(v, []) == [];
    hide Entries;
    if a == [] {
      assert a + b == b;
    } else {
      EntriesAppend(v, a[1..], b);
      EntriesCons(v, a[0], a[1..]);
      EntriesCons(v, a[0], a[1..] + b);
      assert a == [a[0]] + a[1..];
      assert a + b == [a[0]] + (a[1..] + b);
    }
  }

  lemma EntriesCons(v: Versions, key: seq<byte>, rest: seq<seq<byte>>)
    requires key in v && AllIn(rest, v)
    ensures AllIn([key] + rest, v)
    ensures Entries(v, [key] + rest) == [EntryField(1, key, v[key])] + Entries(v, rest)
  {
    assert ([key] + rest)[1..] == rest;
  }

  lemma EntriesOne(v: Versions, key: seq<byte>)
    requires key in v
    ensures Entries(v, [key]) == [EntryField(1, key, v[key])]
    ensures |EncodeAll(Entries(v, [key]))| == EntrySize(v, key)
  {
    assert [key][1..] == [];
    EncodeOne(EntryField(1, key, v[key]));
  }

  /** The entry of one key can be taken out of the sum of the sizes, wherever it stands. */
  lemma SizeWithout(v: Versions, order: seq<seq<byte>>, j: nat)
    requires j < |order| && AllIn(order, v)
    ensures AllIn(order[..j] + order[j + 1..], v)
    ensures |EncodeAll(Entries(v, order))|
         == EntrySize(v, order[j]) + |EncodeAll(Entries(v, order[..j] + order[j + 1..]))|
  {
    var a, b := order[..j], order[j + 1..];
    assert order == a + ([order[j]] + b);
    EntriesOne(v, order[j]);
    EntriesAppend(v, [order[j]], b);
    EntriesAppend(v, a, [order[j]] + b);
    EntriesAppend(v, a, b);
    EncodeAllAppend(Entries(v, [order[j]]), Entries(v, b));
    EncodeAllAppend(Entries(v, a), Entries(v, [order[j]] + b));
    EncodeAllAppend(Entries(v, a), Entries(v, b));
  }

  /** The size of the encoding does not depend on the order of the visit. */
  lemma {:induction false} SizeOfAnyOrder(v: Versions, keys: set<seq<byte>>, a: seq<seq<byte>>, b: seq<seq<byte>>)
    requires keys <= v.Keys && Visits(a, keys) && Visits(b, keys)
    ensures |EncodeAll(Entries(v, a))| == |EncodeAll(Entries(v, b))|
    decreases |a|
  {
    if a == [] {
      VisitLength(a, keys);
      VisitLength(b, keys);
    } else {
      hide Entries, EncodeAll, EntrySize;
      assert a[0] in keys;
      var j :| 0 <= j < |b| && b[j] == a[0];
      var a', b' := a[1..], b[..j] + b[j + 1..];
      SizeWithout(v, a, 0);
      SizeWithout(v, b, j);
      assert a[..0] + a[1..] == a';
      VisitsWithout(a, keys, 0);
      VisitsWithout(b, keys, j);
      SizeOfAnyOrder(v, keys - {a[0]}, a', b');
    }
  }

  lemma {:induction false} VisitLength(order: seq<seq<byte>>, keys: set<seq<byte>>)
    requires Visits(order, keys)
    ensures |order| == |keys|
    decreases |order|
  {
    if order == [] {
      assert keys == {};
    } else {
      VisitsWithout(order, keys, 0);
      assert order[..0] + order[1..] == order[1..];
      VisitLength(order[1..], keys - {order[0]});
    }
  }

  lemma VisitsWithout(order: seq<seq<byte>>, keys: set<seq<byte>>, j: nat)
    requires Visits(order, keys) && j < |order|
    ensures Visits(order[..j] + order[j + 1..], keys - {order[j]})
  {
    var rest := order[..j] + order[j + 1..];
    assert forall i | 0 <= i < |rest| :: rest[i] == order[if i < j then i else i + 1];
    forall k | k in keys - {order[j]}
      ensures k in rest
    {
      var i :| 0 <= i < |order| && order[i] == k;
      assert rest[if i < j then i else i - 1] == k;
    }
  }

  /** The last part of the encoding: the entries already written, before the unknown bytes. */
  function Tail(m: Message<Versions>, order: seq<seq<byte>>): seq<byte>
    requires AllIn(order, m.body)
  {
    EncodeAll(Entries(m.body, order)) + m.unknown
  }

  lemma TailStep(m: Message<Versions>, key: seq<byte>, order: seq<seq<byte>>)
    requires key in m.body && AllIn(order, m.body)
    ensures AllIn([key] + order, m.body)
    ensures Tail(m, [key] + order) == EncodeBytes(1, EncodeEntry(key, m.body[key])) + Tail(m, order)
    ensures |Tail(m, [key] + order)| == EntrySize(m.body, key) + |Tail(m, order)|
  {
    hide EncodeBytes, EncodeEntry;
    assert ([key] + order)[1..] == order;
    EncodeCons(EntryField(1, key, m.body[key]), Entries(m.body, order));
  }

  /** Some order in which all keys can be visited. */
  lemma {:induction false} SomeVisit(keys: set<seq<byte>>) returns (order: seq<seq<byte>>)
    ensures Visits(order, keys)
    decreases keys
  {
    if keys == {} {
      order := [];
    } else {
      var k :| k in keys;
      order := SomeVisit(keys - {k});
      order := [k] + order;
    }
  }

  /** A visit that has begun can be completed: what is written so far is not longer than the whole. */
  lemma PartOfWhole(m: Message<Versions>, rest: set<seq<byte>>, order: seq<seq<byte>>, whole: seq<seq<byte>>)
    requires rest <= m.body.Keys && Visits(order, m.body.Keys - rest) && Visits(whole, m.body.Keys)
    ensures AllIn(order, m.body)
    ensures |Tail(m, order)| <= |Bytes(m, whole)|
  {
    var more := SomeVisit(rest);
    var full := more + order;
    assert Visits(full, m.body.Keys) by {
      assert forall k | k in m.body.Keys :: k in more || k in order;
    }
    SizeOfAnyOrder(m.body, m.body.Keys, full, whole);
    EntriesAppend(m.body, more, order);
    EncodeAllAppend(Entries(m.body, more), Entries(m.body, order));
  }

  class EventSinkStateSpec {
    var versions: Versions
    var unknownFields: seq<byte>

    ghost function Value(): Message<Versions>
      reads this
    {
      Message(versions, unknownFields)
    }

    constructor ()
      ensures Value() == Message(EMPTY, [])
    {
      versions, unknownFields := map[], [];
    }

    /** The size is that of the encoding in any order of visit. */
    method SizeVT() returns (n: nat)
      ensures forall order | Visits(order, versions.Keys) :: n == |Bytes(Value(), order)|
    {
      n := 0;
      var rest := versions.Keys;
      ghost var visited: seq<seq<byte>> := [];
      while rest != {}
        invariant rest <= versions.Keys && Visits(visited, versions.Keys - rest) && AllIn(visited, versions)
        invariant n == |EncodeAll(Entries(versions, visited))|
        decreases rest
      {
        var k :| k in rest;
        n := SizeOfEntry(n, k, versions[k], visited);
        rest, visited := rest - {k}, [k] + visited;
      }
      assert versions.Keys - rest == versions.Keys;
      n := n + |unknownFields|;
      forall order | Visits(order, versions.Keys)
        ensures n == |Bytes(Value(), order)|
      {
        SizeOfAnyOrder(versions, versions.Keys, visited, order);
      }
    }

    method SizeOfEntry(n: nat, k: seq<byte>, v: uint64, ghost visited: seq<seq<byte>>) returns (n': nat)
      requires k in versions && v == versions[k] && AllIn(visited, versions)
      requires n == |EncodeAll(Entries(versions, visited))|
      ensures AllIn([k] + visited, versions)
      ensures n' == |EncodeAll(Entries(versions, [k] + visited))|
    {
      var mapEntrySize := 1 + |k| + SizeOfVarint(|k|) + 1 + SizeOfVarint(v);
      n' := n + mapEntrySize + 1 + SizeOfVarint(mapEntrySize);
      SizeIsLength(|k|);
      SizeIsLength(v);
      SizeIsLength(mapEntrySize);
      KeyIsByte(1, 2);
      KeyIsByte(2, 0);
      assert mapEntrySize == |EncodeEntry(k, v)|;
      TailStep(Message(versions, []), k, visited);
    }

    /**
     * Writes the message into the bytes of dAtA that end just before index end, visiting the map in an
     * order that SizeVT need not have seen.
     */
    method MarshalToSizedBufferVT(dAtA: array<byte>, end: nat) returns (size: nat, ghost order: seq<seq<byte>>)
      requires forall whole | Visits(whole, versions.Keys) :: |Bytes(Value(), whole)| <= end
      requires end <= dAtA.Length <= MAX_INT
      modifies dAtA
      ensures Visits(order, versions.Keys) && size == |Bytes(Value(), order)| <= end
      ensures dAtA[..] == Overwrite(old(dAtA[..]), end - size, Bytes(Value(), order))
    {
      hide Visits, Written, Tail, EncodeEntry, EncodeBytes, Overwrite;
      ghost var m, was := Value(), dAtA[..];
      ghost var whole := SomeVisit(versions.Keys);
      var rest := versions.Keys;
      order := [];
      NothingVisited(m);
      PartOfWhole(m, rest, order, whole);
      var i: nat := PutUnknown(dAtA, end, unknownFields);
      while rest != {}
        invariant rest <= versions.Keys && Visits(order, versions.Keys - rest) && AllIn(order, m.body)
        invariant i <= end && i + |Tail(m, order)| == end && Written(was, dAtA[..], i, Tail(m, order))
        decreases rest
      {
        var k :| k in rest;
        ghost var tail := Tail(m, order);
        VisitMore(m, rest, k, order);
        PartOfWhole(m, rest - {k}, [k] + order, whole);
        TailStep(m, k, order);
        rest, order := rest - {k}, [k] + order;
        i := PutEntry(dAtA, i, k, versions[k], was, tail);
      }
      VisitedAll(m, order);
      WrittenIsOverwrite(was, dAtA[..], i, Tail(m, order));
      size := end - i;
    }

    method MarshalVT() returns (dAtA: array<byte>, ghost order: seq<seq<byte>>)
      requires forall whole | Visits(whole, versions.Keys) :: |Bytes(Value(), whole)| <= MAX_INT
      ensures fresh(dAtA) && Visits(order, versions.Keys) && dAtA[..] == Bytes(Value(), order)
    {
      hide Visits, Bytes, Overwrite;
      ghost var m := Value();
      ghost var whole := SomeVisit(versions.Keys);
      var size := SizeVT();
      assert size == |Bytes(m, whole)|;
      dAtA := new byte[size];
      ghost var was := dAtA[..];
      var n;
      n, order := MarshalToSizedBufferVT(dAtA, size);
      assert |Bytes(m, order)| == size;
      OverwriteAll(was, Bytes(m, order));
    }

    /** On success the message is what Unmarshal says; an error leaves it partly filled. */
    method UnmarshalVT(dAtA: seq<byte>) returns (err: Option<Error>)
      requires |dAtA| <= MAX_INT
      modifies this
      ensures Unmarshal(CODEC, old(Value()), dAtA).Ok? ==>
                err == None && Value() == Unmarshal(CODEC, old(Value()), dAtA).value
      ensures Unmarshal(CODEC, old(Value()), dAtA).Err? ==> err == Some(Unmarshal(CODEC, old(Value()), dAtA).error)
    {
      hide TagAt, SpanAt, EntryFrom, SkipAt, Parse;
      var iNdEx := 0;
      err := None;
      while iNdEx < |dAtA|
        invariant 0 <= iNdEx <= |dAtA| && err == None
        invariant Parse(CODEC, Value(), dAtA, iNdEx) == Unmarshal(CODEC, old(Value()), dAtA)
        decreases |dAtA| - iNdEx
      {
        ParseTurn(CODEC, Value(), dAtA, iNdEx);
        var preIndex := iNdEx;
        var fieldNum: int32, wireType: nat, postIndex: nat;
        err, fieldNum, wireType, iNdEx := ReadTag(dAtA, iNdEx);
        if err != None {
          return;
        }
        if fieldNum == 1 {
          if wireType != 2 {
            return Some(WrongWireType(1, wireType));
          }
          err, iNdEx, postIndex := ReadSpan(dAtA, iNdEx);
          if err != None {
            return;
          }
          var mapkey, mapvalue;
          err, mapkey, mapvalue := ReadEntry(dAtA, iNdEx, postIndex);
          if err != None {
            return;
          }
          versions := versions[mapkey := mapvalue];
          iNdEx := postIndex;
        } else {
          err, iNdEx := SkipField(dAtA, preIndex, |dAtA|);
          if err != None {
            return;
          }
          unknownFields := unknownFields + dAtA[preIndex..iNdEx];
        }
      }
      ParseEnd(CODEC, Value(), dAtA);
    }

    /** The sizes are compared, then every key of this map is looked up in the other. */
    method EqualVT(that: EventSinkStateSpec) returns (equal: bool)
      ensures equal <==> Value() == that.Value()
    {
      if this == that {
        return true;
      }
      if |versions| != |that.versions| {
        return false;
      }
      var rest := versions.Keys;
      while rest != {}
        invariant rest <= versions.Keys
        invariant forall k | k in versions.Keys - rest :: k in that.versions && versions[k] == that.versions[k]
        decreases rest
      {
        var i :| i in rest;
        if i !in that.versions || versions[i] != that.versions[i] {
          return false;
        }
        rest := rest - {i};
      }
      SameKeys(versions, that.versions);
      return unknownFields == that.unknownFields;
    }

    method CloneVT() returns (r: EventSinkStateSpec)
      ensures fresh(r) && r.Value() == Value()
    {
      r := new EventSinkStateSpec();
      var rest := versions.Keys;
      while rest != {}
        invariant rest <= versions.Keys && unchanged(this)
        invariant r.versions.Keys == versions.Keys - rest && r.unknownFields == []
        invariant forall k | k in r.versions :: r.versions[k] == versions[k]
        decreases rest
      {
        var k :| k in rest;
        r.versions := r.versions[k := versions[k]];
        rest := rest - {k};
      }
      r.unknownFields := unknownFields;
      assert r.versions == versions;
    }
  }

  /** Maps of one size are equal as soon as one of them agrees with the other on its own keys. */
  lemma SameKeys(a: Versions, b: Versions)
    requires |a| == |b| && forall k | k in a :: k in b && a[k] == b[k]
    ensures a == b
  {
    assert a.Keys <= b.Keys;
    var more := b.Keys - a.Keys;
    assert |more| == |b.Keys| - |a.Keys|;
    assert more == {};
    assert b.Keys == a.Keys;
  }

  lemma NothingVisited(m: Message<Versions>)
    ensures Visits([], m.body.Keys - m.body.Keys) && Tail(m, []) == m.unknown
  {
    assert m.body.Keys - m.body.Keys == {};
    assert Entries(m.body, []) == [];
  }

  lemma VisitFirst(seen: set<seq<byte>>, k: seq<byte>, order: seq<seq<byte>>)
    requires k !in seen && Visits(order, seen)
    ensures Visits([k] + order, seen + {k})
  {
    var longer := [k] + order;
    assert forall i | 0 < i < |longer| :: longer[i] == order[i - 1];
    assert forall x | x in order :: x in longer;
  }

  lemma VisitMore(m: Message<Versions>, rest: set<seq<byte>>, k: seq<byte>, order: seq<seq<byte>>)
    requires rest <= m.body.Keys && k in rest && Visits(order, m.body.Keys - rest)
    ensures Visits([k] + order, m.body.Keys - (rest - {k}))
  {
    VisitFirst(m.body.Keys - rest, k, order);
    assert m.body.Keys - (rest - {k}) == (m.body.Keys - rest) + {k};
  }

  lemma VisitedAll(m: Message<Versions>, order: seq<seq<byte>>)
    requires Visits(order, m.body.Keys - {})
    ensures Visits(order, m.body.Keys) && Tail(m, order) == Bytes(m, order)
  {
    assert m.body.Keys - {} == m.body.Keys;
  }

  /** One turn of the loop over the map: value, key, and the header with the length of both. */
  method PutEntry(dAtA: array<byte>, i: nat, k: seq<byte>, v: uint64, ghost was: seq<byte>, ghost tail: seq<byte>)
    returns (j: nat)
    requires |EncodeBytes(1, EncodeEntry(k, v))| <= i <= dAtA.Length <= MAX_INT && Written(was, dAtA[..], i, tail)
    modifies dAtA
    ensures j + |EncodeBytes(1, EncodeEntry(k, v))| == i
    ensures Written(was, dAtA[..], j, EncodeBytes(1, EncodeEntry(k, v)) + tail)
  {
    KeyIsByte(1, 2);
    var baseI := i;
    var a := PutNumber(dAtA, i, 2, v, was, tail);
    var b := PutBytes(dAtA, a, 1, k, was, EncodeNumber(2, v) + tail);
    assert EncodeBytes(1, k) + (EncodeNumber(2, v) + tail) == EncodeEntry(k, v) + tail;
    j := PutHeader(dAtA, b, 1, baseI - b, was, EncodeEntry(k, v) + tail);
    assert Key(1, 2) + Varint(baseI - b) + (EncodeEntry(k, v) + tail) == EncodeBytes(1, EncodeEntry(k, v)) + tail;
  }
}
