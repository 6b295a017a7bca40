/**
 * The fields of a message, as in the section "Message Structure" of the Protocol Buffers encoding
 * specification. NextRecord says what one turn of an UnmarshalVT loop reads; Encode says what
 * MarshalToSizedBufferVT writes for one field.
 */
module Wire {
  import opened Ints
  import opened Results
  import opened Varints

  /** How a known field is read: as a number, as a length-delimited value, or as a map entry. */
  datatype Kind = NumberKind | BytesKind | EntryKind

  /** The fields a message knows. */
  type Schema = map<int, Kind>

  /** What one turn of the loop reads. */
  datatype Record =
    | NumberField(num: nat, value: uint64)
    | BytesField(num: nat, body: seq<byte>)
    | EntryField(num: nat, key: seq<byte>, value: uint64)
    | Unknown(raw: seq<byte>)

  datatype Step = Step(record: Record, next: nat)

  /** A field header: the number and wire type, and the index after it. */
  datatype Tag = Tag(num: int32, wireType: nat, next: nat)

  /** A stretch of the input. */
  datatype Span = Span(start: nat, end: nat)

  // ---------------------------------------------------------------- reading

  /** What a 64-bit accumulator keeps of a varint. */
  function Uint64(raw: nat): uint64 {
    PowersOfTwo();
    LowBound(raw, 64);
    Low(raw, 64)
  }

  /** What a 32-bit accumulator keeps of the same varint. */
  function Uint32(v: uint64): uint32 {
    PowersOfTwo();
    LowBound(v, 32);
    Low(v, 32)
  }

  /** int32(wire >> 3). */
  function FieldOf(wire: uint64): int32 {
    ToInt32(Uint32(wire / 8))
  }

  function FieldNum(raw: nat): int32 {
    FieldOf(Uint64(raw))
  }

  function TagAt(s: seq<byte>, i: nat): (r: Result<Tag>)
    ensures r.Ok? ==> i < r.value.next <= |s| && r.value.num > 0
  {
    match Scan(s, i, 0)
    case Err(e) => Err(e)
    case Ok(n) =>
      var num, wireType := FieldNum(n.raw), Uint64(n.raw) % 8;
      if wireType == 4 then Err(EndGroupForNonGroup)
      else if num <= 0 then Err(IllegalTag(num))
      else Ok(Tag(num, wireType, n.next))
  }

  /** A length and the bytes it announces. The length must fit an int, and so must the index it leads to. */
  function SpanAt(s: seq<byte>, i: nat): (r: Result<Span>)
    ensures r.Ok? ==> i < r.value.start <= r.value.end <= |s|
  {
    match Scan(s, i, 0)
    case Err(e) => Err(e)
    case Ok(n) =>
      var length := Uint64(n.raw);
      if length > MAX_INT || n.next + length > MAX_INT then Err(InvalidLength)
      else if n.next + length > |s| then Err(UnexpectedEOF)
      else Ok(Span(n.next, n.next + length))
  }

  /** Where a skipped field goes on, and how many groups are open. */
  datatype Skipping = Skipping(depth: nat, next: nat)

  function SkipValue(s: seq<byte>, j: nat, wireType: nat, depth: nat): (r: Result<Skipping>)
    ensures r.Ok? ==> j <= r.value.next
  {
    if wireType == 0 then
      match Scan(s, j, 0)
      case Err(e) => Err(e)
      case Ok(n) => Ok(Skipping(depth, n.next))
    else if wireType == 1 then Ok(Skipping(depth, j + 8))
    else if wireType == 2 then
      match Scan(s, j, 0)
      case Err(e) => Err(e)
      case Ok(n) =>
        if Uint64(n.raw) > MAX_INT then Err(InvalidLength) else Ok(Skipping(depth, n.next + Uint64(n.raw)))
    else if wireType == 3 then Ok(Skipping(depth + 1, j))
    else if wireType == 4 then if depth == 0 then Err(UnexpectedEndOfGroup) else Ok(Skipping(depth - 1, j))
    else if wireType == 5 then Ok(Skipping(depth, j + 4))
    else Err(IllegalWireType(wireType))
  }

  /**
   * The length of the field at index i, with depth groups open: a value by its wire type, or all
   * fields up to the end of the group. The result may lie past the end of s.
   */
  function SkipFrom(s: seq<byte>, i: nat, depth: nat): (r: Result<nat>)
    ensures r.Ok? ==> i < r.value <= MAX_INT
    decreases |s| - i
  {
    if i >= |s| then Err(UnexpectedEOF)
    else match Scan(s, i, 0)
      case Err(e) => Err(e)
      case Ok(n) =>
        match SkipValue(s, n.next, Uint64(n.raw) % 8, depth)
        case Err(e) => Err(e)
        case Ok(sk) =>
          if sk.next > MAX_INT then Err(InvalidLength)
          else if sk.depth == 0 then Ok(sk.next)
          else SkipFrom(s, sk.next, sk.depth)
  }

  /** Skips the field at index i of s, which must end by limit. */
  function SkipAt(s: seq<byte>, i: nat, limit: nat): (r: Result<nat>)
    requires i <= |s|
    ensures r.Ok? ==> i < r.value <= limit
  {
    match SkipFrom(s[i..], 0, 0)
    case Err(e) => Err(e)
    case Ok(n) =>
      if i + n > MAX_INT then Err(InvalidLength)
      else if i + n > limit then Err(UnexpectedEOF)
      else Ok(i + n)
  }

  datatype Entry = Entry(key: seq<byte>, value: uint64, next: nat)

  function OrUint64(a: uint64, raw: nat): uint64 {
    PowersOfTwo();
    OrBound(a, Uint64(raw), 64);
    Or(a, Uint64(raw))
  }

  /** One turn of the inner loop of a map field. The wire type is not looked at. */
  function EntryTurn(s: seq<byte>, i: nat, post: nat, key: seq<byte>, value: uint64): (r: Result<Entry>)
    requires i <= |s| && post <= |s|
    ensures r.Ok? ==> i < r.value.next <= |s|
  {
    match Scan(s, i, 0)
    case Err(e) => Err(e)
    case Ok(n) =>
      if FieldNum(n.raw) == 1 then
        match SpanAt(s, n.next)
        case Err(e) => Err(e)
        case Ok(span) => Ok(Entry(s[span.start..span.end], value, span.end))
      else if FieldNum(n.raw) == 2 then
        match Scan(s, n.next, 0)
        case Err(e) => Err(e)
        case Ok(v) => Ok(Entry(key, OrUint64(value, v.raw), v.next))
      else
        match SkipAt(s, i, post)
        case Err(e) => Err(e)
        case Ok(next) => Ok(Entry(key, value, next))
  }

  /**
   * The inner loop of a map field. It runs while the index is before post, but reads keys and values
   * up to the end of s; a second value is or-ed into the first.
   */
  function EntryFrom(s: seq<byte>, i: nat, post: nat, key: seq<byte>, value: uint64): (r: Result<Entry>)
    requires i <= |s| && post <= |s|
    ensures r.Ok? ==> i <= r.value.next <= |s| && post <= r.value.next
    decreases |s| - i
  {
    if i >= post then Ok(Entry(key, value, i))
    else match EntryTurn(s, i, post, key, value)
      case Err(e) => Err(e)
      case Ok(entry) => EntryFrom(s, entry.next, post, entry.key, entry.value)
  }

  function FieldAt(kind: Kind, s: seq<byte>, tag: Tag): (r: Result<Step>)
    requires tag.num > 0
    ensures r.Ok? ==> tag.next <= r.value.next <= |s|
    ensures r.Ok? ==> !r.value.record.Unknown? && r.value.record.num == tag.num
    ensures r.Ok? && r.value.record.BytesField? ==> |r.value.record.body| <= r.value.next - tag.next
  {
    match kind
    case NumberKind =>
      if tag.wireType != 0 then Err(WrongWireType(tag.num, tag.wireType))
      else (
        match Scan(s, tag.next, 0)
        case Err(e) => Err(e)
        case Ok(n) => Ok(Step(NumberField(tag.num, Uint64(n.raw)), n.next))
      )
    case BytesKind =>
      if tag.wireType != 2 then Err(WrongWireType(tag.num, tag.wireType))
      else (
        match SpanAt(s, tag.next)
        case Err(e) => Err(e)
        case Ok(span) => Ok(Step(BytesField(tag.num, s[span.start..span.end]), span.end))
      )
    case EntryKind =>
      if tag.wireType != 2 then Err(WrongWireType(tag.num, tag.wireType))
      else (
        match SpanAt(s, tag.next)
        case Err(e) => Err(e)
        case Ok(span) =>
          match EntryFrom(s, span.start, span.end, [], 0)
          case Err(e) => Err(e)
          case Ok(entry) => Ok(Step(EntryField(tag.num, entry.key, entry.value), span.end))
      )
  }

  /** One turn of an UnmarshalVT loop at index i. The index it goes on from is always larger. */
  function NextRecord(schema: Schema, s: seq<byte>, i: nat): (r: Result<Step>)
    requires i < |s|
    ensures r.Ok? ==> i < r.value.next <= |s|
    ensures r.Ok? && r.value.record.BytesField? ==> |r.value.record.body| <= r.value.next - i
    ensures r.Ok? && r.value.record.Unknown? ==> |r.value.record.raw| == r.value.next - i
  {
    match TagAt(s, i)
    case Err(e) => Err(e)
    case Ok(tag) =>
      if tag.num in schema then FieldAt(schema[tag.num], s, tag)
      else
        match SkipAt(s, i, |s|)
        case Err(e) => Err(e)
        case Ok(next) => Ok(Step(Unknown(s[i..next]), next))
  }

  // ---------------------------------------------------------------- locality

  lemma WithinSlice(s: seq<byte>, t: seq<byte>, at: nat, i: nat, j: nat)
    requires Within(s, t, at) && i <= j <= |s|
    ensures s[i..j] == t[at + i..at + j]
  {
    forall k | 0 <= k < j - i
      ensures s[i..j][k] == t[at + i..at + j][k]
    {
      assert s[i + k] == t[at..at + |s|][i + k];
    }
  }

  lemma SpanWithin(s: seq<byte>, t: seq<byte>, at: nat, i: nat)
    requires Within(s, t, at) && |t| <= MAX_INT
    ensures SpanAt(s, i).Ok? <==> SpanAt(t, at + i).Ok? && SpanAt(t, at + i).value.end <= at + |s|
    ensures SpanAt(s, i).Ok? ==>
              SpanAt(t, at + i).value == Span(at + SpanAt(s, i).value.start, at + SpanAt(s, i).value.end)
  {
    ScanWithin(s, t, at, i, 0);
  }

  lemma SkipValueWithin(s: seq<byte>, t: seq<byte>, j: nat, wireType: nat, depth: nat)
    requires Within(s, t, 0)
    ensures SkipValue(s, j, wireType, depth).Ok? ==>
              SkipValue(t, j, wireType, depth) == SkipValue(s, j, wireType, depth)
    ensures SkipValue(t, j, wireType, depth).Ok? && SkipValue(t, j, wireType, depth).value.next <= |s| ==>
              SkipValue(s, j, wireType, depth).Ok?
  {
    hide Scan, Uint64, Within;
    ScanWithin(s, t, 0, j, 0);
  }

  /** The length of a skipped field depends on its own bytes only. */
  lemma {:induction false} SkipWithin(s: seq<byte>, t: seq<byte>, i: nat, depth: nat)
    requires Within(s, t, 0)
    ensures SkipFrom(s, i, depth).Ok? && SkipFrom(s, i, depth).value <= |s| ==>
              SkipFrom(t, i, depth) == SkipFrom(s, i, depth)
    ensures SkipFrom(t, i, depth).Ok? && SkipFrom(t, i, depth).value <= |s| ==>
              SkipFrom(s, i, depth) == SkipFrom(t, i, depth)
    decreases |s| - i
  {
    hide Scan, Uint64, SkipValue, Within;
    if i < |s| {
      ScanWithin(s, t, 0, i, 0);
      if Scan(s, i, 0).Ok? {
        var n := Scan(s, i, 0).value;
        SkipValueWithin(s, t, n.next, Uint64(n.raw) % 8, depth);
        var sk := SkipValue(s, n.next, Uint64(n.raw) % 8, depth);
        if sk.Ok? && sk.value.depth != 0 {
          SkipWithin(s, t, sk.value.next, sk.value.depth);
        }
      }
    }
  }

  lemma SkipAtWithin(s: seq<byte>, t: seq<byte>, at: nat, i: nat, limit: nat)
    requires Within(s, t, at) && |t| <= MAX_INT && i <= |s| && limit <= |s|
    ensures SkipAt(s, i, limit).Ok? <==> SkipAt(t, at + i, at + limit).Ok?
    ensures SkipAt(s, i, limit).Ok? ==> SkipAt(t, at + i, at + limit).value == at + SkipAt(s, i, limit).value
  {
    WithinSlice(s, t, at, i, |s|);
    assert t[at + i..][..|s| - i] == t[at + i..at + |s|];
    SkipWithin(s[i..], t[at + i..], 0, 0);
  }

  lemma SkipReadsTag(s: seq<byte>, i: nat, limit: nat)
    requires i <= |s|
    ensures SkipAt(s, i, limit).Ok? ==> Scan(s, i, 0).Ok?
  {
    ScanWithin(s[i..], s, i, 0, 0);
  }

  lemma EntryTurnWithin(s: seq<byte>, t: seq<byte>, at: nat, i: nat, post: nat, key: seq<byte>, value: uint64)
    requires Within(s, t, at) && |t| <= MAX_INT && i <= |s| && post <= |s|
    ensures EntryTurn(s, i, post, key, value).Ok? <==>
              && EntryTurn(t, at + i, at + post, key, value).Ok?
              && EntryTurn(t, at + i, at + post, key, value).value.next <= at + |s|
    ensures EntryTurn(s, i, post, key, value).Ok? ==> (
              var e := EntryTurn(s, i, post, key, value).value;
              EntryTurn(t, at + i, at + post, key, value).value == Entry(e.key, e.value, at + e.next))
  {
    hide Scan, Uint64, SpanAt, SkipAt, FieldNum, OrUint64, Within;
    ScanWithin(s, t, at, i, 0);
    SkipAtWithin(s, t, at, i, post);
    SkipReadsTag(s, i, post);
    if Scan(s, i, 0).Ok? {
      var j := Scan(s, i, 0).value.next;
      SpanWithin(s, t, at, j);
      ScanWithin(s, t, at, j, 0);
      if SpanAt(s, j).Ok? {
        WithinSlice(s, t, at, SpanAt(s, j).value.start, SpanAt(s, j).value.end);
      }
    }
  }

  lemma {:induction false} EntryWithin(
      s: seq<byte>, t: seq<byte>, at: nat, i: nat, post: nat, key: seq<byte>, value: uint64)
    requires Within(s, t, at) && |t| <= MAX_INT && i <= |s| && post <= |s|
    ensures EntryFrom(s, i, post, key, value).Ok? <==>
              && EntryFrom(t, at + i, at + post, key, value).Ok?
              && EntryFrom(t, at + i, at + post, key, value).value.next <= at + |s|
    ensures EntryFrom(s, i, post, key, value).Ok? ==> (
              var e := EntryFrom(s, i, post, key, value).value;
              EntryFrom(t, at + i, at + post, key, value).value == Entry(e.key, e.value, at + e.next))
    decreases |s| - i
  {
    hide EntryTurn, Within;
    if i < post {
      EntryTurnWithin(s, t, at, i, post, key, value);
      if EntryTurn(s, i, post, key, value).Ok? {
        var e := EntryTurn(s, i, post, key, value).value;
        EntryWithin(s, t, at, e.next, post, e.key, e.value);
      }
    }
  }

  lemma TagWithin(s: seq<byte>, t: seq<byte>, at: nat, i: nat)
    requires Within(s, t, at)
    ensures TagAt(s, i).Ok? ==>
              && TagAt(t, at + i).Ok?
              && TagAt(t, at + i).value == TagAt(s, i).value.(next := at + TagAt(s, i).value.next)
    ensures TagAt(t, at + i).Ok? && TagAt(t, at + i).value.next <= at + |s| ==> TagAt(s, i).Ok?
  {
    ScanWithin(s, t, at, i, 0);
  }

  lemma FieldWithin(kind: Kind, s: seq<byte>, t: seq<byte>, at: nat, tag: Tag)
    requires Within(s, t, at) && |t| <= MAX_INT && tag.num > 0
    ensures FieldAt(kind, s, tag).Ok? ==> (
              var step := FieldAt(kind, s, tag).value;
              FieldAt(kind, t, tag.(next := at + tag.next)) == Ok(step.(next := at + step.next)))
    ensures at + |s| == |t| && FieldAt(kind, t, tag.(next := at + tag.next)).Ok? ==> FieldAt(kind, s, tag).Ok?
  {
    hide Scan, Uint64, SpanAt, EntryFrom, Within;
    if kind == NumberKind {
      ScanWithin(s, t, at, tag.next, 0);
    } else {
      SpanWithin(s, t, at, tag.next);
      if SpanAt(s, tag.next).Ok? {
        var span := SpanAt(s, tag.next).value;
        WithinSlice(s, t, at, span.start, span.end);
        EntryWithin(s, t, at, span.start, span.end, [], 0);
      }
    }
  }

  /**
   * A turn that succeeds on s does the same wherever s occurs in a longer input. At the very end of
   * the longer input, nothing more can succeed.
   */
  lemma NextRecordWithin(schema: Schema, s: seq<byte>, t: seq<byte>, at: nat, i: nat)
    requires Within(s, t, at) && |t| <= MAX_INT && i < |s|
    ensures NextRecord(schema, s, i).Ok? ==> (
              var step := NextRecord(schema, s, i).value;
              NextRecord(schema, t, at + i) == Ok(step.(next := at + step.next)))
    ensures at + |s| == |t| && NextRecord(schema, t, at + i).Ok? ==> NextRecord(schema, s, i).Ok?
  {
    hide TagAt, FieldAt, SkipAt;
    TagWithin(s, t, at, i);
    if TagAt(s, i).Ok? {
      var tag := TagAt(s, i).value;
      if tag.num in schema {
        FieldWithin(schema[tag.num], s, t, at, tag);
      } else {
        SkipLimits(t, at + i, at + |s|, |t|);
        SkipAtWithin(s, t, at, i, |s|);
        if SkipAt(s, i, |s|).Ok? {
          WithinSlice(s, t, at, i, SkipAt(s, i, |s|).value);
        }
      }
    }
  }

  lemma SkipLimits(t: seq<byte>, i: nat, less: nat, more: nat)
    requires i <= |t| && less <= more
    ensures SkipAt(t, i, less).Ok? ==> SkipAt(t, i, more) == SkipAt(t, i, less)
  {
  }
}
