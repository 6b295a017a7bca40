/**
 * The loops of UnmarshalVT that are the same for every message: tags, lengths, map entries and
 * unknown fields, with Go's wrapping 64-bit indices. Each is proved against the meaning in Wire.
 */
module Reader {
  import opened Ints
  import opened Results
  import opened Varints
  import opened Wire

  /** A 64-bit number read into a fresh variable. */
  method ReadUint64(dAtA: seq<byte>, iNdEx: nat) returns (err: Option<Error>, v: uint64, next: nat)
    ensures Scan(dAtA, iNdEx, 0).Err? ==> err == Some(Scan(dAtA, iNdEx, 0).error)
    ensures Scan(dAtA, iNdEx, 0).Ok? ==>
              err == None && next == Scan(dAtA, iNdEx, 0).value.next && v == Uint64(Scan(dAtA, iNdEx, 0).value.raw)
  {
    PowersOfTwo();
    err, v, next := ReadVarint(dAtA, iNdEx, 0, 64);
    if err == None {
      OrZero(Low(Scan(dAtA, iNdEx, 0).value.raw, 64));
    }
  }

  /** A number read into a variable of 32 bits, which loses the high bits as it goes. */
  method ReadUint32(dAtA: seq<byte>, iNdEx: nat) returns (err: Option<Error>, v: uint32, next: nat)
    ensures Scan(dAtA, iNdEx, 0).Err? ==> err == Some(Scan(dAtA, iNdEx, 0).error)
    ensures Scan(dAtA, iNdEx, 0).Ok? ==>
              && err == None
              && next == Scan(dAtA, iNdEx, 0).value.next
              && v == Uint32(Uint64(Scan(dAtA, iNdEx, 0).value.raw))
  {
    PowersOfTwo();
    err, v, next := ReadVarint(dAtA, iNdEx, 0, 32);
    if err == None {
      OrZero(Low(Scan(dAtA, iNdEx, 0).value.raw, 32));
      LowLow(Scan(dAtA, iNdEx, 0).value.raw, 32, 64);
    }
  }

  /** The head of an UnmarshalVT loop: the tag of the next field, with the checks made on it. */
  method ReadTag(dAtA: seq<byte>, iNdEx: nat) returns (err: Option<Error>, fieldNum: int32, wireType: nat, next: nat)
    ensures TagAt(dAtA, iNdEx).Err? ==> err == Some(TagAt(dAtA, iNdEx).error)
    ensures TagAt(dAtA, iNdEx).Ok? ==> err == None && TagAt(dAtA, iNdEx).value == Tag(fieldNum, wireType, next)
  {
    var wire: uint64;
    err, wire, next := ReadUint64(dAtA, iNdEx);
    fieldNum, wireType := 0, 0;
    if err != None {
      return;
    }
    fieldNum, wireType := FieldOf(wire), wire % 8;
    if wireType == 4 {
      err := Some(EndGroupForNonGroup);
    } else if fieldNum <= 0 {
      err := Some(IllegalTag(fieldNum));
    }
  }

  /**
   * A length and the checks on it. Both sums are of Go ints, which wrap: the two tests for a negative
   * number are what catches a length, or an end, that does not fit.
   */
  method ReadSpan(dAtA: seq<byte>, iNdEx: nat) returns (err: Option<Error>, start: nat, postIndex: nat)
    requires |dAtA| <= MAX_INT
    ensures SpanAt(dAtA, iNdEx).Err? ==> err == Some(SpanAt(dAtA, iNdEx).error)
    ensures SpanAt(dAtA, iNdEx).Ok? ==> err == None && SpanAt(dAtA, iNdEx).value == Span(start, postIndex)
  {
    var length: uint64;
    err, length, start := ReadUint64(dAtA, iNdEx);
    postIndex := 0;
    if err != None {
      return;
    }
    var intLength := ToInt64(length);
    if intLength < 0 {
      return Some(InvalidLength), start, 0;
    }
    var post := AddInt64(start, intLength);
    if post < 0 {
      return Some(InvalidLength), start, 0;
    }
    if post > |dAtA| {
      return Some(UnexpectedEOF), start, 0;
    }
    postIndex := post;
  }

  /** protohelpers.Skip: the length of the field at the start of dAtA. */
  method Skip(dAtA: seq<byte>) returns (err: Option<Error>, n: nat)
    requires |dAtA| <= MAX_INT
    ensures SkipFrom(dAtA, 0, 0).Err? ==> err == Some(SkipFrom(dAtA, 0, 0).error)
    ensures SkipFrom(dAtA, 0, 0).Ok? ==> err == None && n == SkipFrom(dAtA, 0, 0).value
  {
    var iNdEx, depth: nat := 0, 0;
    n := 0;
    while iNdEx < |dAtA|
      invariant 0 <= iNdEx <= MAX_INT
      invariant SkipFrom(dAtA, iNdEx, depth) == SkipFrom(dAtA, 0, 0)
      decreases |dAtA| - iNdEx
    {
      var wire: uint64, next: nat;
      err, wire, next := ReadUint64(dAtA, iNdEx);
      if err != None {
        return;
      }
      var after: int64;
      err, after, depth := SkipBody(dAtA, next, wire % 8, depth);
      if err != None {
        return;
      }
      if after < 0 {
        return Some(InvalidLength), 0;
      }
      if depth == 0 {
        return None, after;
      }
      iNdEx := after;
    }
    return Some(UnexpectedEOF), 0;
  }

  /** The switch over the wire type in Skip; the index it returns may have wrapped. */
  method SkipBody(dAtA: seq<byte>, iNdEx: nat, wireType: nat, depth: nat)
    returns (err: Option<Error>, next: int64, d: nat)
    requires iNdEx <= |dAtA| <= MAX_INT
    ensures SkipValue(dAtA, iNdEx, wireType, depth).Err? ==> err == Some(SkipValue(dAtA, iNdEx, wireType, depth).error)
    ensures SkipValue(dAtA, iNdEx, wireType, depth).Ok? ==> (
              var r := SkipValue(dAtA, iNdEx, wireType, depth).value;
              err == None && d == r.depth && if r.next > MAX_INT then next < 0 else next == r.next)
  {
    err, next, d := None, iNdEx, depth;
    if wireType == 0 {
      var v: uint64, after: nat;
      err, v, after := ReadUint64(dAtA, iNdEx);
      if err == None {
        next := after;
      }
    } else if wireType == 1 {
      next := AddInt64(iNdEx, 8);
    } else if wireType == 2 {
      var length: uint64, after: nat;
      err, length, after := ReadUint64(dAtA, iNdEx);
      if err == None {
        if ToInt64(length) < 0 {
          err := Some(InvalidLength);
        } else {
          next := AddInt64(after, ToInt64(length));
        }
      }
    } else if wireType == 3 {
      d := depth + 1;
    } else if wireType == 4 {
      if depth == 0 {
        err := Some(UnexpectedEndOfGroup);
      } else {
        d := depth - 1;
      }
    } else if wireType == 5 {
      next := AddInt64(iNdEx, 4);
    } else {
      err := Some(IllegalWireType(wireType));
    }
  }

  /** Skips the field at iNdEx, with the checks UnmarshalVT makes on what Skip returns. */
  method SkipField(dAtA: seq<byte>, iNdEx: nat, limit: nat) returns (err: Option<Error>, next: nat)
    requires iNdEx <= |dAtA| <= MAX_INT && limit <= |dAtA|
    ensures SkipAt(dAtA, iNdEx, limit).Err? ==> err == Some(SkipAt(dAtA, iNdEx, limit).error)
    ensures SkipAt(dAtA, iNdEx, limit).Ok? ==> err == None && next == SkipAt(dAtA, iNdEx, limit).value
  {
    var skippy: nat;
    err, skippy := Skip(dAtA[iNdEx..]);
    next := 0;
    if err != None {
      return;
    }
    var after := AddInt64(iNdEx, skippy);
    if skippy < 0 || after < 0 {
      return Some(InvalidLength), 0;
    }
    if after > limit {
      return Some(UnexpectedEOF), 0;
    }
    next := after;
  }

  /** The inner loop of a map field, from iNdEx to postIndex or beyond. */
  method ReadEntry(dAtA: seq<byte>, start: nat, postIndex: nat)
    returns (err: Option<Error>, mapkey: seq<byte>, mapvalue: uint64)
    requires start <= postIndex <= |dAtA| <= MAX_INT
    ensures EntryFrom(dAtA, start, postIndex, [], 0).Err? ==>
              err == Some(EntryFrom(dAtA, start, postIndex, [], 0).error)
    ensures EntryFrom(dAtA, start, postIndex, [], 0).Ok? ==> (
              var e := EntryFrom(dAtA, start, postIndex, [], 0).value;
              err == None && mapkey == e.key && mapvalue == e.value)
  {
    hide EntryTurn;
    var iNdEx := start;
    err, mapkey, mapvalue := None, [], 0;
    while iNdEx < postIndex
      invariant iNdEx <= |dAtA| && err == None
      invariant EntryFrom(dAtA, iNdEx, postIndex, mapkey, mapvalue) == EntryFrom(dAtA, start, postIndex, [], 0)
      decreases |dAtA| - iNdEx
    {
      err, mapkey, mapvalue, iNdEx := ReadEntryField(dAtA, iNdEx, postIndex, mapkey, mapvalue);
      if err != None {
        return;
      }
    }
  }

  method ReadEntryField(dAtA: seq<byte>, iNdEx: nat, postIndex: nat, key: seq<byte>, value: uint64)
    returns (err: Option<Error>, mapkey: seq<byte>, mapvalue: uint64, next: nat)
    requires iNdEx <= |dAtA| <= MAX_INT && postIndex <= |dAtA|
    ensures EntryTurn(dAtA, iNdEx, postIndex, key, value).Err? ==>
              err == Some(EntryTurn(dAtA, iNdEx, postIndex, key, value).error)
    ensures EntryTurn(dAtA, iNdEx, postIndex, key, value).Ok? ==>
              err == None && EntryTurn(dAtA, iNdEx, postIndex, key, value).value == Entry(mapkey, mapvalue, next)
  {
    hide Scan, SpanAt, SkipAt, FieldOf, Or;
    PowersOfTwo();
    mapkey, mapvalue := key, value;
    var wire: uint64;
    err, wire, next := ReadUint64(dAtA, iNdEx);
    if err != None {
      return;
    }
    var fieldNum := FieldOf(wire);
    if fieldNum == 1 {
      var from, to: nat;
      err, from, to := ReadSpan(dAtA, next);
      if err == None {
        mapkey, next := dAtA[from..to], to;
      }
    } else if fieldNum == 2 {
      err, mapvalue, next := ReadVarint(dAtA, next, mapvalue, 64);
    } else {
      err, next := SkipField(dAtA, iNdEx, postIndex);
    }
  }
}
