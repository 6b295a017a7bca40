/**
 * The steps of MarshalToSizedBufferVT that are the same for every message. A message is written from
 * its last byte to its first: each step puts one field just before index i, in front of the bytes
 * (tail) that are already there, and leaves the rest of the buffer (was) alone.
 */
module Writer {
  import opened Ints
  import opened Results
  import opened Varints
  import opened Wire
  import opened Encoding

  lemma EncodeOne(rec: Record)
    ensures EncodeAll([rec]) == Encode(rec)
  {
    assert EncodeAll([rec][1..]) == [];
  }

  /** The buffer holds tail from index i on, and is otherwise what it was. */
  ghost predicate Written(was: seq<byte>, now: seq<byte>, i: nat, tail: seq<byte>) {
    i + |tail| <= |was| && now == Overwrite(was, i, tail)
  }

  /** whole is tail with a field that may be absent in front of it. */
  ghost predicate Extends(whole: seq<byte>, opt: seq<Record>, tail: seq<byte>) {
    whole == EncodeAll(opt) + tail
  }

  lemma BytesStep(layout: Layout, u: seq<byte>, num: nat, last: nat)
    requires num <= last
    ensures Extends(BytesFrom(layout, u, num, last), layout(num), BytesFrom(layout, u, num + 1, last))
    ensures |BytesFrom(layout, u, num, last)| == |EncodeAll(layout(num))| + |BytesFrom(layout, u, num + 1, last)|
  {
    EncodeMore(layout(num), FieldsFrom(layout, num + 1, last), u);
  }

  lemma {:induction false} BytesShrink(layout: Layout, u: seq<byte>, first: nat, num: nat, last: nat)
    requires first <= num <= last + 1
    ensures |BytesFrom(layout, u, num, last)| <= |BytesFrom(layout, u, first, last)|
    decreases num - first
  {
    if first < num {
      hide BytesFrom, Extends;
      BytesStep(layout, u, first, last);
      BytesShrink(layout, u, first + 1, num, last);
    }
  }

  lemma BytesSteps(layout: Layout, u: seq<byte>, last: nat)
    ensures forall num: nat | num <= last ::
              Extends(BytesFrom(layout, u, num, last), layout(num), BytesFrom(layout, u, num + 1, last))
    ensures forall num: nat | 1 <= num <= last + 1 ::
              |BytesFrom(layout, u, num, last)| <= |BytesFrom(layout, u, 1, last)|
    ensures BytesFrom(layout, u, last + 1, last) == u
  {
    hide Extends;
    forall num: nat | num <= last
      ensures Extends(BytesFrom(layout, u, num, last), layout(num), BytesFrom(layout, u, num + 1, last))
    {
      BytesStep(layout, u, num, last);
    }
    forall num: nat | 1 <= num <= last + 1
      ensures |BytesFrom(layout, u, num, last)| <= |BytesFrom(layout, u, 1, last)|
    {
      BytesShrink(layout, u, 1, num, last);
    }
  }

  lemma WrittenIsOverwrite(was: seq<byte>, now: seq<byte>, i: nat, tail: seq<byte>)
    requires Written(was, now, i, tail)
    ensures i + |tail| <= |was| && now == Overwrite(was, i, tail)
  {
  }

  lemma WriteMore(was: seq<byte>, now: seq<byte>, then': seq<byte>, i: nat, tail: seq<byte>, j: nat, bytes: seq<byte>)
    requires Written(was, now, i, tail) && j + |bytes| == i && then' == Overwrite(now, j, bytes)
    ensures Written(was, then', j, bytes + tail)
  {
    OverwriteTwice(was, j, bytes, tail);
  }

  method PutByte(dAtA: array<byte>, i: nat, b: byte, ghost was: seq<byte>, ghost tail: seq<byte>) returns (j: nat)
    requires 1 <= i <= dAtA.Length && Written(was, dAtA[..], i, tail)
    modifies dAtA
    ensures j == i - 1 && Written(was, dAtA[..], j, [b] + tail)
  {
    ghost var now := dAtA[..];
    j := i - 1;
    dAtA[j] := b;
    assert dAtA[..] == Overwrite(now, j, [b]);
    WriteMore(was, now, dAtA[..], i, tail, j, [b]);
  }

  method PutVarint(dAtA: array<byte>, i: nat, v: uint64, ghost was: seq<byte>, ghost tail: seq<byte>) returns (j: nat)
    requires |Varint(v)| <= i <= dAtA.Length && Written(was, dAtA[..], i, tail)
    modifies dAtA
    ensures j + |Varint(v)| == i && Written(was, dAtA[..], j, Varint(v) + tail)
  {
    ghost var now := dAtA[..];
    j := EncodeVarint(dAtA, i, v);
    WriteMore(was, now, dAtA[..], i, tail, j, Varint(v));
  }

  method PutRaw(
      dAtA: array<byte>, i: nat, bytes: seq<byte>, ghost was: seq<byte>, ghost tail: seq<byte>)
    returns (j: nat)
    requires |bytes| <= i <= dAtA.Length && Written(was, dAtA[..], i, tail)
    modifies dAtA
    ensures j + |bytes| == i && Written(was, dAtA[..], j, bytes + tail)
  {
    ghost var now := dAtA[..];
    j := i - |bytes|;
    forall k | 0 <= k < |bytes| {
      dAtA[j + k] := bytes[k];
    }
    assert dAtA[..] == Overwrite(now, j, bytes);
    WriteMore(was, now, dAtA[..], i, tail, j, bytes);
  }

  /** The bytes of unknown fields end the message. */
  method PutUnknown(dAtA: array<byte>, end: nat, bytes: seq<byte>) returns (j: nat)
    requires |bytes| <= end <= dAtA.Length
    modifies dAtA
    ensures j + |bytes| == end && Written(old(dAtA[..]), dAtA[..], j, bytes)
  {
    ghost var was := dAtA[..];
    assert Written(was, was, end, []);
    j := PutRaw(dAtA, end, bytes, was, []);
    assert bytes + [] == bytes;
  }

  lemma KeyIsByte(num: nat, wireType: nat)
    requires num < 16 && wireType < 8
    ensures Key(num, wireType) == [8 * num + wireType]
  {
  }

  /** The length and key of a submessage or map entry of the given size that is already written. */
  method PutHeader(dAtA: array<byte>, i: nat, num: nat, size: nat, ghost was: seq<byte>, ghost tail: seq<byte>)
    returns (j: nat)
    requires num < 16 && size < TWO_64
    requires |Varint(size)| + 1 <= i <= dAtA.Length && Written(was, dAtA[..], i, tail)
    modifies dAtA
    ensures j + |Varint(size)| + 1 == i && |Key(num, 2)| == 1
    ensures Written(was, dAtA[..], j, Key(num, 2) + Varint(size) + tail)
  {
    j := PutVarint(dAtA, i, size, was, tail);
    j := PutByte(dAtA, j, 8 * num + 2, was, Varint(size) + tail);
    KeyIsByte(num, 2);
    assert [8 * num + 2] + (Varint(size) + tail) == Key(num, 2) + Varint(size) + tail;
  }

  method PutBytes(dAtA: array<byte>, i: nat, num: nat, body: seq<byte>, ghost was: seq<byte>, ghost tail: seq<byte>)
    returns (j: nat)
    requires num < 16 && |EncodeBytes(num, body)| <= i <= dAtA.Length <= MAX_INT && Written(was, dAtA[..], i, tail)
    modifies dAtA
    ensures j + |EncodeBytes(num, body)| == i && Written(was, dAtA[..], j, EncodeBytes(num, body) + tail)
  {
    KeyIsByte(num, 2);
    j := PutRaw(dAtA, i, body, was, tail);
    j := PutHeader(dAtA, j, num, |body|, was, body + tail);
    assert Key(num, 2) + Varint(|body|) + (body + tail) == EncodeBytes(num, body) + tail;
  }

  method PutNumber(dAtA: array<byte>, i: nat, num: nat, v: uint64, ghost was: seq<byte>, ghost tail: seq<byte>)
    returns (j: nat)
    requires num < 16 && |EncodeNumber(num, v)| <= i <= dAtA.Length && Written(was, dAtA[..], i, tail)
    modifies dAtA
    ensures j + |EncodeNumber(num, v)| == i && Written(was, dAtA[..], j, EncodeNumber(num, v) + tail)
  {
    KeyIsByte(num, 0);
    j := PutVarint(dAtA, i, v, was, tail);
    j := PutByte(dAtA, j, 8 * num, was, Varint(v) + tail);
    assert [8 * num] + (Varint(v) + tail) == EncodeNumber(num, v) + tail;
  }

  // ---------------------------------------------------------------- fields that may be absent

  method PutOptBytes(
      dAtA: array<byte>, i: nat, num: nat, body: seq<byte>, ghost was: seq<byte>, ghost tail: seq<byte>,
      ghost whole: seq<byte>)
    returns (j: nat)
    requires num < 16 && Extends(whole, OptBytes(num, body), tail) && Written(was, dAtA[..], i, tail)
    requires |whole| - |tail| <= i <= dAtA.Length <= MAX_INT
    modifies dAtA
    ensures j + |whole| == i + |tail| && Written(was, dAtA[..], j, whole)
  {
    j := i;
    if |body| > 0 {
      EncodeOne(BytesField(num, body));
      j := PutBytes(dAtA, i, num, body, was, tail);
    } else {
      assert whole == tail;
    }
  }

  method PutOptNumber(
      dAtA: array<byte>, i: nat, num: nat, v: uint64, ghost was: seq<byte>, ghost tail: seq<byte>,
      ghost whole: seq<byte>)
    returns (j: nat)
    requires num < 16 && Extends(whole, OptNumber(num, v), tail) && Written(was, dAtA[..], i, tail)
    requires |whole| - |tail| <= i <= dAtA.Length <= MAX_INT
    modifies dAtA
    ensures j + |whole| == i + |tail| && Written(was, dAtA[..], j, whole)
  {
    j := i;
    if v != 0 {
      EncodeOne(NumberField(num, v));
      j := PutNumber(dAtA, i, num, v, was, tail);
    } else {
      assert whole == tail;
    }
  }

  lemma HeaderApart(key: seq<byte>, length: seq<byte>, body: seq<byte>, tail: seq<byte>)
    ensures key + length + body + tail == key + length + (body + tail)
  {
  }

  /** A submessage that is already written just before index i gets its header, or none is there. */
  lemma MessageBytes(num: nat, body: Option<seq<byte>>, tail: seq<byte>, whole: seq<byte>)
    requires Extends(whole, OptMessage(num, body), tail)
    ensures body == None ==> whole == tail
    ensures body != None ==> whole == Key(num, 2) + Varint(|body.value|) + (body.value + tail)
  {
    assert EncodeAll([]) == [];
    hide Key, Varint, EncodeAll;
    if body == None {
      assert [] + tail == tail;
    } else {
      EncodeOne(BytesField(num, body.value));
      assert whole == EncodeBytes(num, body.value) + tail;
      HeaderApart(Key(num, 2), Varint(|body.value|), body.value, tail);
    }
  }

  lemma TrueBytes(num: nat, tail: seq<byte>)
    requires num < 16
    ensures [8 * num] + ([1] + tail) == EncodeAll(OptBool(num, true)) + tail
  {
    EncodeOne(NumberField(num, 1));
    KeyIsByte(num, 0);
    assert EncodeAll(OptBool(num, true)) == [8 * num] + [1];
  }

  method PutOptBool(
      dAtA: array<byte>, i: nat, num: nat, v: bool, ghost was: seq<byte>, ghost tail: seq<byte>, ghost whole: seq<byte>)
    returns (j: nat)
    requires num < 16 && Extends(whole, OptBool(num, v), tail) && Written(was, dAtA[..], i, tail)
    requires |whole| - |tail| <= i <= dAtA.Length <= MAX_INT
    modifies dAtA
    ensures j + |whole| == i + |tail| && Written(was, dAtA[..], j, whole)
  {
    j := i;
    if v {
      j := PutByte(dAtA, j, 1, was, tail);
      j := PutByte(dAtA, j, 8 * num, was, [1] + tail);
      TrueBytes(num, tail);
    } else {
      assert whole == tail;
    }
  }

  /** The values of a repeated field from index k on, in front of the tail. */
  function RepeatedTail(num: nat, items: seq<seq<byte>>, k: nat, tail: seq<byte>): seq<byte>
    requires k <= |items|
  {
    EncodeAll(Repeated(num, items[k..])) + tail
  }

  lemma EncodeCons(rec: Record, rest: seq<Record>)
    ensures EncodeAll([rec] + rest) == Encode(rec) + EncodeAll(rest)
  {
    assert ([rec] + rest)[1..] == rest;
  }

  lemma {:induction false} RepeatedStep(num: nat, items: seq<seq<byte>>, k: nat, tail: seq<byte>)
    requires k < |items|
    ensures RepeatedTail(num, items, k, tail) == EncodeBytes(num, items[k]) + RepeatedTail(num, items, k + 1, tail)
    ensures |RepeatedTail(num, items, k, tail)| ==
              |EncodeBytes(num, items[k])| + |RepeatedTail(num, items, k + 1, tail)|
    ensures |RepeatedTail(num, items, k, tail)| <= |RepeatedTail(num, items, 0, tail)|
    decreases k
  {
    hide EncodeBytes, EncodeAll;
    assert items[k..][1..] == items[k + 1..];
    EncodeCons(BytesField(num, items[k]), Repeated(num, items[k + 1..]));
    if k > 0 {
      RepeatedStep(num, items, k - 1, tail);
    }
  }

  lemma RepeatedEnds(num: nat, items: seq<seq<byte>>, tail: seq<byte>)
    ensures RepeatedTail(num, items, |items|, tail) == tail
    ensures RepeatedTail(num, items, 0, tail) == EncodeAll(Repeated(num, items)) + tail
  {
    assert items[0..] == items;
    assert Repeated(num, items[|items|..]) == [];
  }

  /** The values of a repeated field, from the last to the first. */
  method PutRepeated(
      dAtA: array<byte>, i: nat, num: nat, items: seq<seq<byte>>, ghost was: seq<byte>, ghost tail: seq<byte>,
      ghost whole: seq<byte>)
    returns (j: nat)
    requires num < 16 && Extends(whole, Repeated(num, items), tail) && Written(was, dAtA[..], i, tail)
    requires |whole| - |tail| <= i <= dAtA.Length <= MAX_INT
    modifies dAtA
    ensures j + |whole| == i + |tail| && Written(was, dAtA[..], j, whole)
  {
    hide EncodeBytes, Written, RepeatedTail;
    RepeatedEnds(num, items, tail);
    j := i;
    var iNdEx: nat := |items|;
    while iNdEx > 0
      invariant iNdEx <= |items|
      invariant j <= i && j + |RepeatedTail(num, items, iNdEx, tail)| == i + |tail|
      invariant Written(was, dAtA[..], j, RepeatedTail(num, items, iNdEx, tail))
    {
      iNdEx := iNdEx - 1;
      RepeatedStep(num, items, iNdEx, tail);
      j := PutBytes(dAtA, j, num, items[iNdEx], was, RepeatedTail(num, items, iNdEx + 1, tail));
    }
  }

  // ---------------------------------------------------------------- the sizes SizeVT adds up

  method SizeOfBytes(num: nat, length: nat, ghost body: seq<byte>) returns (n: nat)
    requires num < 16 && length == |body|
    ensures n == |EncodeBytes(num, body)|
  {
    KeyIsByte(num, 2);
    SizeIsLength(length);
    n := 1 + length + SizeOfVarint(length);
  }

  method SizeOfOptBytes(num: nat, body: seq<byte>) returns (n: nat)
    requires num < 16
    ensures n == |EncodeAll(OptBytes(num, body))|
  {
    n := 0;
    if |body| > 0 {
      EncodeOne(BytesField(num, body));
      n := SizeOfBytes(num, |body|, body);
    }
  }

  method SizeOfOptMessage(num: nat, present: bool, length: nat, ghost body: Option<seq<byte>>) returns (n: nat)
    requires num < 16 && present == body.Some? && (present ==> length == |body.value|)
    ensures n == |EncodeAll(OptMessage(num, body))|
  {
    n := 0;
    if present {
      EncodeOne(BytesField(num, body.value));
      n := SizeOfBytes(num, length, body.value);
    }
  }

  method SizeOfOptNumber(num: nat, v: uint64) returns (n: nat)
    requires num < 16
    ensures n == |EncodeAll(OptNumber(num, v))|
  {
    n := 0;
    if v != 0 {
      EncodeOne(NumberField(num, v));
      KeyIsByte(num, 0);
      SizeIsLength(v);
      n := 1 + SizeOfVarint(v);
    }
  }

  method SizeOfOptBool(num: nat, v: bool) returns (n: nat)
    requires num < 16
    ensures n == |EncodeAll(OptBool(num, v))|
  {
    n := 0;
    if v {
      EncodeOne(NumberField(num, 1));
      KeyIsByte(num, 0);
      n := 2;
    }
  }

  method SizeOfRepeated(num: nat, items: seq<seq<byte>>) returns (n: nat)
    requires num < 16
    ensures n == |EncodeAll(Repeated(num, items))|
  {
    hide EncodeBytes, RepeatedTail;
    n := 0;
    RepeatedEnds(num, items, []);
    for k := 0 to |items|
      invariant n + |RepeatedTail(num, items, k, [])| == |EncodeAll(Repeated(num, items))|
    {
      RepeatedStep(num, items, k, []);
      var l := SizeOfBytes(num, |items[k]|, items[k]);
      n := n + l;
    }
  }
}
