/**
 * What a field is, whoever knows it: the grammar of the section "Message Structure" of the Protocol
 * Buffers encoding specification, groups included, and that the fields a message keeps as unknown
 * are exactly those of the grammar whose numbers it does not know.
 */
module UnknownFields {
  import opened Ints
  import opened Results
  import opened Varints
  import opened Wire
  import opened Encoding
  import opened Codecs

  /** A field by its wire type, each part as it is spelled. */
  datatype Field =
    | Numeric(key: seq<byte>, value: seq<byte>)
    | Fixed64(key: seq<byte>, bytes: seq<byte>)
    | Delimited(key: seq<byte>, length: seq<byte>, body: seq<byte>)
    | Group(key: seq<byte>, fields: seq<Field>, end: seq<byte>)
    | Fixed32(key: seq<byte>, bytes: seq<byte>)

  function Bytes(f: Field): seq<byte> {
    match f
    case Numeric(key, value) => key + value
    case Fixed64(key, bytes) => key + bytes
    case Delimited(key, length, body) => key + length + body
    case Group(key, fields, end) => key + AllBytes(fields) + end
    case Fixed32(key, bytes) => key + bytes
  }

  function AllBytes(fields: seq<Field>): seq<byte> {
    if fields == [] then [] else Bytes(fields[0]) + AllBytes(fields[1..])
  }

  /** The low three bits of a key are the wire type. */
  predicate IsKey(key: seq<byte>, wireType: nat) {
    IsVarint(key) && ValueOf(key) % 8 == wireType
  }

  predicate IsField(f: Field) {
    match f
    case Numeric(key, value) => IsKey(key, 0) && IsVarint(value)
    case Fixed64(key, bytes) => IsKey(key, 1) && |bytes| == 8
    case Delimited(key, length, body) => IsKey(key, 2) && IsVarint(length) && ValueOf(length) % TWO_64 == |body|
    case Group(key, fields, end) => IsKey(key, 3) && AllFields(fields) && IsKey(end, 4)
    case Fixed32(key, bytes) => IsKey(key, 5) && |bytes| == 4
  }

  predicate AllFields(fields: seq<Field>) {
    fields == [] || (IsField(fields[0]) && AllFields(fields[1..]))
  }

  /** The number in a key, as a signed 32-bit number. */
  function NumberIn(key: seq<byte>): int32 {
    ToInt32(ValueOf(key) % TWO_64 / 8 % TWO_32)
  }

  // ---------------------------------------------------------------- every field is skipped whole

  lemma UintIsMod(x: nat)
    ensures Uint64(x) == x % TWO_64
    ensures x < TWO_64 ==> Uint32(x) == x % TWO_32
  {
    PowersOfTwo();
    LowIsMod(x, 64, TWO_64);
    LowIsMod(x, 32, TWO_32);
  }

  lemma LowThree(x: nat)
    ensures Uint64(x) % 8 == x % 8
  {
    hide Low;
    assert Shl(1, 2) == 4 && Shl(1, 3) == 8;
    LowLow(x, 3, 64);
    LowIsMod(x, 3, 8);
    LowIsMod(Uint64(x), 3, 8);
  }

  lemma KeyIsScanned(key: seq<byte>, wireType: nat, s: seq<byte>, i: nat)
    requires IsKey(key, wireType) && Within(key, s, i)
    ensures Scan(s, i, 0) == Ok(Number(ValueOf(key), i + |key|)) && Uint64(ValueOf(key)) % 8 == wireType
    ensures i < |s| && 0 < |key|
  {
    hide Scan, Within, IsVarint, ValueOf;
    VarintEnds(key);
    VarintIsScanned(key, s, i, 0);
    LowThree(ValueOf(key));
    WithinIsLess(key, s, i);
  }

  lemma SkipTurn(s: seq<byte>, i: nat, depth: nat, n: Number, sk: Skipping)
    requires i < |s| && Scan(s, i, 0) == Ok(n) && sk.next <= MAX_INT
    requires SkipValue(s, n.next, Uint64(n.raw) % 8, depth) == Ok(sk)
    ensures SkipFrom(s, i, depth) == if sk.depth == 0 then Ok(sk.next) else SkipFrom(s, sk.next, sk.depth)
  {
    hide Scan, SkipValue, Uint64;
  }

  lemma SkipsValue(f: Field, s: seq<byte>, j: nat, depth: nat)
    requires IsField(f) && !f.Group? && |s| <= MAX_INT
    requires Within(Bytes(f)[|f.key|..], s, j)
    ensures |f.key| <= |Bytes(f)|
    ensures SkipValue(s, j, ValueOf(f.key) % 8, depth) == Ok(Skipping(depth, j + |Bytes(f)| - |f.key|))
  {
    hide Scan, Uint64, IsVarint, ValueOf, Within;
    match f
    case Numeric(key, value) =>
      assert Bytes(f)[|key|..] == value;
      VarintEnds(value);
      VarintIsScanned(value, s, j, 0);
    case Delimited(key, length, body) =>
      assert Bytes(f)[|key|..] == length + body;
      WithinParts(length, body, s, j);
      VarintEnds(length);
      VarintIsScanned(length, s, j, 0);
      UintIsMod(ValueOf(length));
      assert |body| <= |s| by { WithinIsLess(length + body, s, j); }
    case _ =>
  }

  lemma WithinIsLess(a: seq<byte>, s: seq<byte>, i: nat)
    requires Within(a, s, i)
    ensures i + |a| <= |s|
  {
  }

  lemma KeyFirst(f: Field)
    ensures |f.key| <= |Bytes(f)| && Bytes(f) == f.key + Bytes(f)[|f.key|..]
    ensures f.Group? ==> Bytes(f)[|f.key|..] == AllBytes(f.fields) + f.end
  {
    hide AllBytes;
  }

  /** The tag and the end of a group open and close one more group. */
  lemma SkipsMark(key: seq<byte>, wireType: nat, s: seq<byte>, i: nat, depth: nat)
    requires IsKey(key, wireType) && Within(key, s, i) && |s| <= MAX_INT
    requires wireType == 3 || (wireType == 4 && depth > 0)
    ensures wireType == 3 ==> SkipFrom(s, i, depth) == SkipFrom(s, i + |key|, depth + 1)
    ensures wireType == 4 ==>
              SkipFrom(s, i, depth) == if depth == 1 then Ok(i + |key|) else SkipFrom(s, i + |key|, depth - 1)
  {
    hide Scan, Uint64, SkipFrom, IsKey, Within;
    KeyIsScanned(key, wireType, s, i);
    WithinIsLess(key, s, i);
    var n := Number(ValueOf(key), i + |key|);
    SkipTurn(s, i, depth, n, Skipping(if wireType == 3 then depth + 1 else depth - 1, n.next));
  }

  /** With no group open, skipping a field ends where it ends; within a group, it goes on from there. */
  lemma {:induction false} SkipsField(f: Field, s: seq<byte>, i: nat, depth: nat)
    requires IsField(f) && Within(Bytes(f), s, i) && |s| <= MAX_INT
    ensures SkipFrom(s, i, depth) == if depth == 0 then Ok(i + |Bytes(f)|) else SkipFrom(s, i + |Bytes(f)|, depth)
    decreases f, 1
  {
    hide Bytes, Scan, Uint64, SkipFrom, SkipValue, IsVarint, ValueOf, Within;
    KeyFirst(f);
    var tail := Bytes(f)[|f.key|..];
    WithinParts(f.key, tail, s, i);
    if f.Group? {
      WithinParts(AllBytes(f.fields), f.end, s, i + |f.key|);
      SkipsMark(f.key, 3, s, i, depth);
      SkipsFields(f.fields, s, i + |f.key|, depth + 1);
      SkipsMark(f.end, 4, s, i + |f.key| + |AllBytes(f.fields)|, depth + 1);
    } else {
      KeyIsScanned(f.key, ValueOf(f.key) % 8, s, i);
      SkipsValue(f, s, i + |f.key|, depth);
      WithinIsLess(Bytes(f), s, i);
      SkipTurn(s, i, depth, Number(ValueOf(f.key), i + |f.key|), Skipping(depth, i + |Bytes(f)|));
    }
  }

  lemma {:induction false} SkipsFields(fields: seq<Field>, s: seq<byte>, i: nat, depth: nat)
    requires AllFields(fields) && Within(AllBytes(fields), s, i) && |s| <= MAX_INT && depth > 0
    ensures SkipFrom(s, i, depth) == SkipFrom(s, i + |AllBytes(fields)|, depth)
    decreases fields, 0
  {
    hide Bytes, SkipFrom, IsField, Within;
    if fields != [] {
      WithinParts(Bytes(fields[0]), AllBytes(fields[1..]), s, i);
      SkipsField(fields[0], s, i, depth);
      SkipsFields(fields[1..], s, i + |Bytes(fields[0])|, depth);
    }
  }

  // ---------------------------------------------------------------- only fields are skipped

  lemma KeyIsRead(s: seq<byte>, i: nat)
    requires Scan(s, i, 0).Ok?
    ensures var n := Scan(s, i, 0).value;
            && IsKey(s[i..n.next], Uint64(n.raw) % 8) && IsVarint(s[i..n.next]) && n.raw == ValueOf(s[i..n.next])
  {
    hide Scan, IsVarint, ValueOf;
    ScanIsVarint(s, i, 0);
    LowThree(Scan(s, i, 0).value.raw);
  }

  /** A value that is skipped within the input makes a field, together with the key before it. */
  lemma ValueIsField(s: seq<byte>, i: nat, depth: nat) returns (f: Field)
    requires Scan(s, i, 0).Ok?
    requires var n := Scan(s, i, 0).value;
             var sk := SkipValue(s, n.next, Uint64(n.raw) % 8, depth);
             sk.Ok? && sk.value.next <= |s| && Uint64(n.raw) % 8 != 3 && Uint64(n.raw) % 8 != 4
    ensures var n := Scan(s, i, 0).value;
            var sk := SkipValue(s, n.next, Uint64(n.raw) % 8, depth).value;
            IsField(f) && Bytes(f) == s[i..sk.next] && sk.depth == depth && i < sk.next
  {
    hide Scan, IsVarint, ValueOf, Uint64;
    var n := Scan(s, i, 0).value;
    var key, wireType, j := s[i..n.next], Uint64(n.raw) % 8, n.next;
    KeyIsRead(s, i);
    var next := SkipValue(s, j, wireType, depth).value.next;
    assert s[i..next] == key + s[j..next];
    if wireType == 0 {
      ScanIsVarint(s, j, 0);
      f := Numeric(key, s[j..next]);
    } else if wireType == 1 {
      f := Fixed64(key, s[j..next]);
    } else if wireType == 2 {
      ScanIsVarint(s, j, 0);
      var v := Scan(s, j, 0).value;
      UintIsMod(v.raw);
      assert s[i..next] == key + s[j..v.next] + s[v.next..next];
      f := Delimited(key, s[j..v.next], s[v.next..next]);
    } else {
      f := Fixed32(key, s[j..next]);
    }
  }

  lemma FirstOf(s: seq<byte>, i: nat, depth: nat)
    requires SkipFrom(s, i, depth).Ok? && SkipFrom(s, i, depth).value <= |s|
    ensures i < |s| && Scan(s, i, 0).Ok?
    ensures var n := Scan(s, i, 0).value;
            var sk := SkipValue(s, n.next, Uint64(n.raw) % 8, depth);
            && sk.Ok? && n.next <= sk.value.next <= |s|
            && SkipFrom(s, i, depth) == if sk.value.depth == 0 then Ok(sk.value.next)
                                        else SkipFrom(s, sk.value.next, sk.value.depth)
  {
    hide Scan, SkipValue, Uint64;
  }

  /** What is skipped with a group open begins with the fields of the group and its end. */
  lemma {:induction false} GroupIsFields(s: seq<byte>, i: nat, depth: nat)
    returns (fields: seq<Field>, end: seq<byte>, j: nat)
    requires depth > 0 && SkipFrom(s, i, depth).Ok? && SkipFrom(s, i, depth).value <= |s|
    ensures AllFields(fields) && IsKey(end, 4) && i < j <= |s| && s[i..j] == AllBytes(fields) + end
    ensures SkipFrom(s, i, depth) == if depth == 1 then Ok(j) else SkipFrom(s, j, depth - 1)
    decreases |s| - i
  {
    hide Scan, SkipValue, Uint64, SkipFrom, IsField, Bytes, IsKey;
    FirstOf(s, i, depth);
    var n := Scan(s, i, 0).value;
    var wireType := Uint64(n.raw) % 8;
    KeyIsRead(s, i);
    if wireType == 4 {
      SkipsEnd(s, n.next, depth);
      fields, end, j := [], s[i..n.next], n.next;
      assert s[i..j] == [] + end;
    } else {
      var f, m := FieldInGroup(s, i, depth);
      fields, end, j := GroupIsFields(s, m, depth);
      assert s[i..j] == s[i..m] + s[m..j];
      assert Bytes(f) + (AllBytes(fields) + end) == Bytes(f) + AllBytes(fields) + end;
      FirstField(f, fields);
      fields := [f] + fields;
    }
  }

  lemma FirstField(f: Field, fields: seq<Field>)
    requires IsField(f) && AllFields(fields)
    ensures AllFields([f] + fields) && AllBytes([f] + fields) == Bytes(f) + AllBytes(fields)
  {
    assert ([f] + fields)[1..] == fields;
  }

  lemma SkipsEnd(s: seq<byte>, j: nat, depth: nat)
    requires depth > 0
    ensures SkipValue(s, j, 4, depth) == Ok(Skipping(depth - 1, j)) &&
              SkipValue(s, j, 3, depth) == Ok(Skipping(depth + 1, j))
  {
  }

  /** A field in a group, up to index m. */
  lemma {:induction false} FieldInGroup(s: seq<byte>, i: nat, depth: nat) returns (f: Field, m: nat)
    requires depth > 0 && SkipFrom(s, i, depth).Ok? && SkipFrom(s, i, depth).value <= |s|
    requires Scan(s, i, 0).Ok? && Uint64(Scan(s, i, 0).value.raw) % 8 != 4
    ensures IsField(f) && i < m <= |s| && Bytes(f) == s[i..m] && SkipFrom(s, i, depth) == SkipFrom(s, m, depth)
    decreases |s| - i, 0
  {
    hide Scan, SkipValue, Uint64, SkipFrom, AllFields, IsVarint, ValueOf, AllBytes;
    FirstOf(s, i, depth);
    var n := Scan(s, i, 0).value;
    if Uint64(n.raw) % 8 == 3 {
      KeyIsRead(s, i);
      SkipsEnd(s, n.next, depth);
      var fields, end, j := GroupIsFields(s, n.next, depth + 1);
      assert s[i..j] == s[i..n.next] + s[n.next..j];
      f, m := Group(s[i..n.next], fields, end), j;
      assert Bytes(f) == s[i..n.next] + (AllBytes(fields) + end);
    } else {
      f := ValueIsField(s, i, depth);
      m := SkipValue(s, n.next, Uint64(n.raw) % 8, depth).value.next;
    }
  }

  lemma {:induction false} SkippedIsField(s: seq<byte>) returns (f: Field)
    requires SkipFrom(s, 0, 0).Ok? && SkipFrom(s, 0, 0).value <= |s|
    ensures IsField(f) && Bytes(f) == s[..SkipFrom(s, 0, 0).value]
  {
    hide Scan, SkipValue, Uint64, SkipFrom, AllFields, IsVarint, ValueOf, AllBytes;
    FirstOf(s, 0, 0);
    var n := Scan(s, 0, 0).value;
    var next := SkipFrom(s, 0, 0).value;
    if Uint64(n.raw) % 8 == 3 {
      KeyIsRead(s, 0);
      OpensFirst(s, n.next);
      var fields, end, j := GroupIsFields(s, n.next, 1);
      f := Group(s[0..n.next], fields, end);
      assert s[..j] == s[0..n.next] + s[n.next..j];
      assert Bytes(f) == s[0..n.next] + (AllBytes(fields) + end);
    } else {
      OpensFirst(s, n.next);
      f := ValueIsField(s, 0, 0);
    }
  }

  lemma OpensFirst(s: seq<byte>, j: nat)
    ensures SkipValue(s, j, 3, 0) == Ok(Skipping(1, j)) && SkipValue(s, j, 4, 0).Err?
  {
  }

  /** For every input: what Skip gives is a length within it if and only if a field of that length stands there. */
  lemma SkipsExactly(s: seq<byte>, n: nat)
    requires n <= |s| <= MAX_INT
    ensures SkipFrom(s, 0, 0) == Ok(n) <==> exists f :: IsField(f) && Bytes(f) == s[..n]
  {
    hide SkipFrom, IsField, Bytes;
    if SkipFrom(s, 0, 0) == Ok(n) {
      var f := SkippedIsField(s);
    }
    if f :| IsField(f) && Bytes(f) == s[..n] {
      SkipsField(f, s, 0, 0);
    }
  }

  lemma SkipsAnnounced(key: seq<byte>, length: seq<byte>, s: seq<byte>)
    requires IsKey(key, 2) && IsVarint(length) && Within(key + length, s, 0) && |s| <= MAX_INT
    ensures var end := |key| + |length| + ValueOf(length) % TWO_64;
            SkipFrom(s, 0, 0) == if end > MAX_INT then Err(InvalidLength) else Ok(end)
  {
    hide Scan, Uint64, IsVarint, ValueOf, Within;
    WithinParts(key, length, s, 0);
    KeyIsScanned(key, 2, s, 0);
    VarintEnds(length);
    VarintIsScanned(length, s, |key|, 0);
    UintIsMod(ValueOf(length));
  }

  /**
   * An unknown field that announces bytes is skipped with them, unless they would end beyond the largest
   * int, or else beyond the input or its limit.
   */
  lemma AnnouncedExactly(key: seq<byte>, length: seq<byte>, s: seq<byte>, i: nat, limit: nat)
    requires IsKey(key, 2) && IsVarint(length) && Within(key + length, s, i) && limit <= |s| <= MAX_INT
    ensures i <= |s|
    ensures var end := i + |key| + |length| + ValueOf(length) % TWO_64;
            SkipAt(s, i, limit) ==
              if end > MAX_INT then Err(InvalidLength) else if end > limit then Err(UnexpectedEOF) else Ok(end)
  {
    hide SkipFrom, IsVarint, ValueOf;
    assert s[i..][0..|key + length|] == s[i..i + |key + length|];
    SkipsAnnounced(key, length, s[i..]);
  }

  // ---------------------------------------------------------------- unknown fields

  /** A field whose number is one, but not one of the schema. */
  predicate IsUnknown(schema: Schema, f: Field) {
    IsField(f) && NumberIn(f.key) > 0 && NumberIn(f.key) !in schema
  }

  lemma NumberIsRead(key: seq<byte>)
    ensures FieldNum(ValueOf(key)) == NumberIn(key)
  {
    hide ValueOf;
    UintIsMod(ValueOf(key));
    UintIsMod(ValueOf(key) % TWO_64 / 8);
  }

  /** A tag is refused if it ends a group, or else if its number is not positive. */
  lemma TagsExactly(key: seq<byte>, s: seq<byte>, i: nat)
    requires IsVarint(key) && Within(key, s, i)
    ensures TagAt(s, i) ==
              if ValueOf(key) % 8 == 4 then Err(EndGroupForNonGroup)
              else if NumberIn(key) <= 0 then Err(IllegalTag(NumberIn(key)))
              else Ok(Tag(NumberIn(key), ValueOf(key) % 8, i + |key|))
  {
    hide Scan, IsVarint, ValueOf, FieldNum, NumberIn, Uint64, Within;
    KeyIsScanned(key, ValueOf(key) % 8, s, i);
    NumberIsRead(key);
  }

  /** A turn of an UnmarshalVT loop keeps any unknown field whole, whatever comes after it. */
  lemma UnknownReadsBack(schema: Schema, f: Field, rest: seq<byte>)
    requires IsUnknown(schema, f) && |Bytes(f) + rest| <= MAX_INT
    ensures Bytes(f) != []
    ensures NextRecord(schema, Bytes(f) + rest, 0) == Ok(Step(Unknown(Bytes(f)), |Bytes(f)|))
  {
    hide TagAt, NumberIn, SkipFrom, Bytes, Within, IsVarint, ValueOf;
    var s := Bytes(f) + rest;
    KeyFirst(f);
    AppendWithin(Bytes(f), rest);
    WithinParts(f.key, Bytes(f)[|f.key|..], s, 0);
    TagsExactly(f.key, s, 0);
    SkipsField(f, s, 0, 0);
    assert s[0..] == s;
    KeyIsScanned(f.key, ValueOf(f.key) % 8, s, 0);
  }

  /** The field at index i that is kept as unknown is exactly an unknown field that stands there. */
  lemma UnknownEndsExactly(schema: Schema, u: seq<byte>, i: nat, next: nat)
    requires i < next <= |u| <= MAX_INT
    ensures UnknownEnd(schema, u, i) == Some(next) <==> exists f :: IsUnknown(schema, f) && Bytes(f) == u[i..next]
  {
    hide TagAt, SkipFrom, Bytes, IsUnknown, Within, NextRecord;
    if f :| IsUnknown(schema, f) && Bytes(f) == u[i..next] {
      var raw := u[i..next];
      assert raw + [] == raw;
      UnknownReadsBack(schema, f, []);
      assert Within(raw, u, i) by { SliceIsWithin(u, i, next); }
      UnknownEndWithin(schema, raw, u, i, 0);
    }
    if UnknownEnd(schema, u, i) == Some(next) {
      var f := KeptIsUnknown(schema, u, i, next);
    }
  }

  lemma SliceIsWithin(u: seq<byte>, i: nat, next: nat)
    requires i <= next <= |u|
    ensures Within(u[i..next], u, i)
  {
  }

  lemma KeptIsUnknown(schema: Schema, u: seq<byte>, i: nat, next: nat) returns (f: Field)
    requires i < next <= |u| <= MAX_INT && UnknownEnd(schema, u, i) == Some(next)
    ensures IsUnknown(schema, f) && Bytes(f) == u[i..next]
  {
    hide Scan, SkipFrom, Bytes, IsField, Within, FieldNum, NumberIn, IsVarint, ValueOf, Uint64;
    f := SkippedIsField(u[i..]);
    assert u[i..][..next - i] == u[i..next];
    KeyFirst(f);
    assert IsVarint(f.key) by { FieldHasKey(f); }
    SliceIsWithin(u, i, next);
    WithinParts(f.key, Bytes(f)[|f.key|..], u, i);
    KeyIsScanned(f.key, ValueOf(f.key) % 8, u, i);
    NumberIsRead(f.key);
  }

  lemma FieldHasKey(f: Field)
    requires IsField(f)
    ensures IsVarint(f.key)
  {
  }

  predicate AllUnknown(schema: Schema, fields: seq<Field>) {
    forall f | f in fields :: IsUnknown(schema, f)
  }

  lemma {:induction false} UnknownFrom(schema: Schema, u: seq<byte>, i: nat, fields: seq<Field>)
    requires i <= |u| <= MAX_INT && AllUnknown(schema, fields) && u[i..] == AllBytes(fields)
    ensures UnknownOnly(schema, u, i)
    decreases |fields|
  {
    hide UnknownEnd, Bytes, IsUnknown;
    if fields != [] {
      var f := fields[0];
      var next := i + |Bytes(f)|;
      assert u[i..next] == u[i..][..|Bytes(f)|] == Bytes(f);
      assert u[next..] == u[i..][|Bytes(f)|..] == AllBytes(fields[1..]);
      UnknownReadsBack(schema, f, AllBytes(fields[1..]));
      UnknownEndsExactly(schema, u, i, next);
      UnknownFrom(schema, u, next, fields[1..]);
    }
  }

  lemma {:induction false} FieldsFrom(schema: Schema, u: seq<byte>, i: nat) returns (fields: seq<Field>)
    requires i <= |u| <= MAX_INT && UnknownOnly(schema, u, i)
    ensures AllUnknown(schema, fields) && u[i..] == AllBytes(fields)
    decreases |u| - i
  {
    hide UnknownEnd, Bytes, IsUnknown;
    fields := [];
    if i < |u| {
      var next := UnknownEnd(schema, u, i).value;
      var f := KeptIsUnknown(schema, u, i, next);
      var rest := FieldsFrom(schema, u, next);
      assert u[i..] == u[i..next] + u[next..];
      fields := [f] + rest;
      assert fields[1..] == rest;
    }
  }

  /**
   * The well-formed unknown bytes of the round trips are exactly the concatenations of fields, groups
   * included, whose numbers the message does not know.
   */
  lemma UnknownExactly(schema: Schema, u: seq<byte>)
    requires |u| <= MAX_INT
    ensures UnknownOnly(schema, u, 0) <==>
            exists fields: seq<Field> :: AllUnknown(schema, fields) && AllBytes(fields) == u
  {
    hide UnknownOnly, AllUnknown, AllBytes;
    assert u[0..] == u;
    if UnknownOnly(schema, u, 0) {
      var fields := FieldsFrom(schema, u, 0);
    }
    if fields: seq<Field> :| AllUnknown(schema, fields) && AllBytes(fields) == u {
      UnknownFrom(schema, u, 0, fields);
    }
  }

  // ---------------------------------------------------------------- fields as a newer version writes them

  lemma {:induction false} VarintSpells(v: nat)
    requires |Varint(v)| <= 10
    ensures IsVarint(Varint(v)) && ValueOf(Varint(v)) == v
  {
    hide IsVarint, ValueOf;
    if v < 128 {
      VarintOfOne(v);
      assert [v] + [] == [v];
    } else {
      VarintSpells(v / 128);
      VarintMore(128 + v % 128, Varint(v / 128));
    }
  }

  lemma KeySpells(num: nat, wireType: nat)
    requires 1 <= num < MAX_FIELD && wireType < 8
    ensures IsKey(Key(num, wireType), wireType) && NumberIn(Key(num, wireType)) == num
  {
    hide Varint, IsVarint, ValueOf;
    var x := 8 * num + wireType;
    Uint64Length(x);
    VarintSpells(x);
    assert x % 8 == wireType && x / 8 == num && x % TWO_64 == x && num % TWO_32 == num;
  }

  /** A field of each wire type, as it is written, is an unknown field of every schema without its number. */
  lemma NewerFields(
      schema: Schema, num: nat, value: uint64, body: seq<byte>, eight: seq<byte>, four: seq<byte>, inner: seq<Field>)
    requires 1 <= num < MAX_FIELD && num !in schema && |body| <= MAX_INT && |eight| == 8 && |four| == 4
    requires AllFields(inner)
    ensures IsUnknown(schema, Numeric(Key(num, 0), Varint(value)))
    ensures Bytes(Numeric(Key(num, 0), Varint(value))) == EncodeNumber(num, value)
    ensures IsUnknown(schema, Delimited(Key(num, 2), Varint(|body|), body))
    ensures Bytes(Delimited(Key(num, 2), Varint(|body|), body)) == EncodeBytes(num, body)
    ensures IsUnknown(schema, Fixed64(Key(num, 1), eight)) && Bytes(Fixed64(Key(num, 1), eight)) == Key(num, 1) + eight
    ensures IsUnknown(schema, Fixed32(Key(num, 5), four)) && Bytes(Fixed32(Key(num, 5), four)) == Key(num, 5) + four
    ensures IsUnknown(schema, Group(Key(num, 3), inner, Key(num, 4)))
    ensures Bytes(Group(Key(num, 3), inner, Key(num, 4))) == Key(num, 3) + AllBytes(inner) + Key(num, 4)
  {
    hide Varint, Key, IsVarint, ValueOf, NumberIn;
    KeySpells(num, 0);
    KeySpells(num, 1);
    KeySpells(num, 2);
    KeySpells(num, 3);
    KeySpells(num, 4);
    KeySpells(num, 5);
    Uint64Length(value);
    VarintSpells(value);
    Uint64Length(|body|);
    VarintSpells(|body|);
  }

  // ---------------------------------------------------------------- known fields, however they are spelled

  /** A known field of another wire type is refused. */
  lemma OtherWireType(schema: Schema, key: seq<byte>, s: seq<byte>, i: nat)
    requires IsVarint(key) && Within(key, s, i) && ValueOf(key) % 8 != 4
    requires NumberIn(key) > 0 && NumberIn(key) in schema
    requires ValueOf(key) % 8 != (if schema[NumberIn(key)].NumberKind? then 0 else 2)
    ensures i < |s| && NextRecord(schema, s, i) == Err(WrongWireType(NumberIn(key), ValueOf(key) % 8))
  {
    hide TagAt, Scan, SpanAt, EntryFrom, IsVarint, ValueOf, NumberIn, Within;
    TagsExactly(key, s, i);
    KeyIsScanned(key, ValueOf(key) % 8, s, i);
  }

  /** A number is read from any varint, of which it keeps 64 bits. */
  lemma NumbersExactly(schema: Schema, key: seq<byte>, value: seq<byte>, s: seq<byte>, i: nat)
    requires IsKey(key, 0) && IsVarint(value) && Within(key + value, s, i)
    requires NumberIn(key) > 0 && NumberIn(key) in schema && schema[NumberIn(key)].NumberKind?
    ensures i < |s|
    ensures NextRecord(schema, s, i) ==
              Ok(Step(NumberField(NumberIn(key), ValueOf(value) % TWO_64), i + |key| + |value|))
  {
    hide TagAt, Scan, Uint64, IsVarint, ValueOf, NumberIn, Within;
    WithinParts(key, value, s, i);
    TagsExactly(key, s, i);
    KeyIsScanned(key, 0, s, i);
    VarintEnds(value);
    VarintIsScanned(value, s, i + |key|, 0);
    UintIsMod(ValueOf(value));
  }

  lemma SpansExactly(length: seq<byte>, s: seq<byte>, i: nat)
    requires IsVarint(length) && Within(length, s, i)
    ensures var start, n := i + |length|, ValueOf(length) % TWO_64;
            SpanAt(s, i) ==
              if start + n > MAX_INT then Err(InvalidLength)
              else if start + n > |s| then Err(UnexpectedEOF)
              else Ok(Span(start, start + n))
  {
    hide Scan, Uint64, IsVarint, ValueOf, Within;
    VarintEnds(length);
    VarintIsScanned(length, s, i, 0);
    UintIsMod(ValueOf(length));
  }

  /** Bytes are read as announced by any varint; a length that does not fit is refused. */
  lemma BytesExactly(schema: Schema, key: seq<byte>, length: seq<byte>, s: seq<byte>, i: nat)
    requires IsKey(key, 2) && IsVarint(length) && Within(key + length, s, i)
    requires NumberIn(key) > 0 && NumberIn(key) in schema && schema[NumberIn(key)].BytesKind?
    ensures i < |s| && i + |key| + |length| <= |s|
    ensures var start, n := i + |key| + |length|, ValueOf(length) % TWO_64;
            NextRecord(schema, s, i) ==
              if start + n > MAX_INT then Err(InvalidLength)
              else if start + n > |s| then Err(UnexpectedEOF)
              else Ok(Step(BytesField(NumberIn(key), s[start..start + n]), start + n))
  {
    hide TagAt, SpanAt, IsVarint, ValueOf, NumberIn, Within, SkipAt, EntryFrom, Scan;
    WithinParts(key, length, s, i);
    TagsExactly(key, s, i);
    KeyIsScanned(key, 2, s, i);
    SpansExactly(length, s, i + |key|);
    WithinIsLess(key + length, s, i);
  }
}
