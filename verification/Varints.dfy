/**
 * Base 128 varints, as in the section "Base 128 Varints" of the Protocol Buffers encoding
 * specification: what a byte string means (Scan, Varint), the loops that read and write them, and
 * the proof that the two agree.
 */
module Varints {
  import opened Ints
  import opened Results

  /** A number read from a byte string, and the index just after it. */
  datatype Number = Number(raw: nat, next: nat)

  /**
   * The varint at index i, of which k bytes are already read. At most ten bytes are accepted; raw is
   * the unbounded number they spell, of which a reader keeps the low bits.
   */
  function Scan(s: seq<byte>, i: nat, k: nat): (r: Result<Number>)
    ensures r.Ok? ==> i < r.value.next <= |s|
    decreases 10 - k
  {
    if k >= 10 then Err(IntOverflow)
    else if i >= |s| then Err(UnexpectedEOF)
    else if s[i] < 128 then Ok(Number(s[i], i + 1))
    else match Scan(s, i + 1, k + 1)
      case Err(e) => Err(e)
      case Ok(rest) => Ok(Number(s[i] - 128 + 128 * rest.raw, rest.next))
  }

  // ---------------------------------------------------------------- what a varint is, byte by byte

  /** One varint: at most ten bytes, of which all but the last have the high bit set. */
  predicate IsVarint(b: seq<byte>) {
    1 <= |b| <= 10 && b[|b| - 1] < 128 && forall k | 0 <= k < |b| - 1 :: b[k] >= 128
  }

  /** The number spelled by the low seven bits of each byte, the first being the lowest. */
  function ValueOf(b: seq<byte>): nat {
    if b == [] then 0 else b[0] % 128 + 128 * ValueOf(b[1..])
  }

  /** The high bit is set on n bytes from index i on, as far as s goes. */
  predicate GoesOn(s: seq<byte>, i: nat, n: nat) {
    forall k | i <= k < i + n && k < |s| :: s[k] >= 128
  }

  lemma {:induction false} ScanIsVarint(s: seq<byte>, i: nat, k: nat)
    requires k <= 10 && Scan(s, i, k).Ok?
    ensures Scan(s, i, k).value.next - i <= 10 - k && IsVarint(s[i..Scan(s, i, k).value.next])
    ensures Scan(s, i, k).value.raw == ValueOf(s[i..Scan(s, i, k).value.next])
    decreases 10 - k
  {
    hide IsVarint, ValueOf;
    var next := Scan(s, i, k).value.next;
    assert s[i..next] == [s[i]] + s[i + 1..next];
    if s[i] < 128 {
      assert s[i + 1..next] == [];
      VarintOfOne(s[i]);
    } else {
      ScanIsVarint(s, i + 1, k + 1);
      VarintMore(s[i], s[i + 1..next]);
    }
  }

  lemma {:induction false} ScanFails(s: seq<byte>, i: nat, k: nat)
    requires k <= 10 && i <= |s| && Scan(s, i, k).Err?
    ensures GoesOn(s, i, 10 - k) && Scan(s, i, k) == Err(if i + 10 - k <= |s| then IntOverflow else UnexpectedEOF)
    decreases 10 - k
  {
    if k < 10 && i < |s| {
      ScanFails(s, i + 1, k + 1);
    }
  }

  lemma VarintOfOne(b: byte)
    requires b < 128
    ensures IsVarint([b] + []) && ValueOf([b] + []) == b
  {
    assert [b] + [] == [b] && [b][1..] == [];
  }

  lemma VarintMore(first: byte, rest: seq<byte>)
    requires first >= 128 && IsVarint(rest) && |rest| < 10
    ensures IsVarint([first] + rest) && ValueOf([first] + rest) == first - 128 + 128 * ValueOf(rest)
  {
    assert ([first] + rest)[1..] == rest;
  }

  lemma {:induction false} VarintIsScanned(b: seq<byte>, s: seq<byte>, i: nat, k: nat)
    requires IsVarint(b) && k + |b| <= 10 && Within(b, s, i)
    ensures Scan(s, i, k) == Ok(Number(ValueOf(b), i + |b|))
    decreases |b|
  {
    assert s[i] == s[i..i + |b|][0] == b[0];
    if |b| == 1 {
      assert b[1..] == [];
    } else {
      assert s[i + 1..i + |b|] == s[i..i + |b|][1..];
      VarintIsScanned(b[1..], s, i + 1, k + 1);
    }
  }

  /**
   * For every input and index: a number is read, up to next, if and only if a varint stands there, and
   * it is the value of that; ten bytes with the high bit set are an overflow, and fewer at the end of
   * the input an unexpected end.
   */
  lemma ScansExactly(s: seq<byte>, i: nat, next: nat)
    requires i < next <= |s|
    ensures IsVarint(s[i..next]) <==> Scan(s, i, 0) == Ok(Number(ValueOf(s[i..next]), next))
    ensures Scan(s, i, 0) == Err(IntOverflow) <==> i + 10 <= |s| && GoesOn(s, i, 10)
    ensures Scan(s, i, 0) == Err(UnexpectedEOF) <==> i + 10 > |s| && GoesOn(s, i, 10)
  {
    hide Scan, IsVarint, ValueOf, GoesOn;
    if IsVarint(s[i..next]) {
      VarintEnds(s[i..next]);
      VarintIsScanned(s[i..next], s, i, 0);
    }
    if Scan(s, i, 0).Ok? {
      ScanIsVarint(s, i, 0);
      VarintStops(s, i, Scan(s, i, 0).value.next);
    } else {
      ScanFails(s, i, 0);
    }
  }

  lemma VarintEnds(b: seq<byte>)
    requires IsVarint(b)
    ensures 1 <= |b| <= 10
  {
  }

  lemma VarintStops(s: seq<byte>, i: nat, next: nat)
    requires i < next <= |s| && IsVarint(s[i..next])
    ensures !GoesOn(s, i, 10)
  {
    assert s[i..next][next - i - 1] == s[next - 1];
  }

  /** s occurs in t at the given index. */
  predicate Within(s: seq<byte>, t: seq<byte>, at: nat) {
    at + |s| <= |t| && t[at..at + |s|] == s
  }

  lemma AppendWithin(a: seq<byte>, b: seq<byte>)
    ensures Within(a, a + b, 0) && Within(b, a + b, |a|)
  {
  }

  /** A varint depends on its own bytes only: reading it inside a longer string gives the same number. */
  lemma {:induction false} ScanWithin(s: seq<byte>, t: seq<byte>, at: nat, i: nat, k: nat)
    requires Within(s, t, at)
    ensures Scan(s, i, k).Ok? <==> Scan(t, at + i, k).Ok? && Scan(t, at + i, k).value.next <= at + |s|
    ensures Scan(s, i, k).Ok? ==>
              Scan(t, at + i, k).value == Number(Scan(s, i, k).value.raw, at + Scan(s, i, k).value.next)
    decreases 10 - k
  {
    if k < 10 && i < |s| {
      assert s[i] == t[at..at + |s|][i] == t[at + i];
      ScanWithin(s, t, at, i + 1, k + 1);
    }
  }

  /** The number at hand once low, its first n bits, is followed by what is left to read. */
  function Resume(low: nat, n: nat, rest: Result<Number>): Result<Number> {
    match rest
    case Err(e) => Err(e)
    case Ok(r) => Ok(Number(low + Shl(r.raw, n), r.next))
  }

  /** The loop of ReadVarint has consumed k bytes, which spell low; the next byte is at next. */
  ghost predicate Reading(s: seq<byte>, start: nat, init: nat, width: nat, next: nat, k: nat, low: nat, v: nat) {
    && k <= 10
    && low < Shl(1, 7 * k)
    && v == Or(init, Low(low, width)) < Shl(1, width)
    && Scan(s, start, 0) == Resume(low, 7 * k, Scan(s, next, k))
  }

  lemma ResumeMore(s: seq<byte>, next: nat, k: nat, low: nat, add: nat)
    requires k < 10 && next < |s| && s[next] >= 128 && low < Shl(1, 7 * k) && add == Shl(s[next] - 128, 7 * k)
    ensures Resume(low, 7 * k, Scan(s, next, k)) == Resume(low + add, 7 * (k + 1), Scan(s, next + 1, k + 1))
    ensures low + add < Shl(1, 7 * (k + 1))
  {
    hide Shl;
    match Scan(s, next + 1, k + 1)
    case Err(_) => ShlNextSeven(low, s[next] - 128, 0, 7 * k);
    case Ok(rest) => ShlNextSeven(low, s[next] - 128, rest.raw, 7 * k);
  }

  lemma ReadingMore(s: seq<byte>, start: nat, init: nat, width: nat, next: nat, k: nat, low: nat, v: nat, add: nat)
    requires Reading(s, start, init, width, next, k, low, v) && init < Shl(1, width)
    requires k < 10 && next < |s| && s[next] >= 128 && add == Shl(s[next] - 128, 7 * k)
    ensures Reading(s, start, init, width, next + 1, k + 1, low + add, Or(v, Low(add, width)))
  {
    hide Scan;
    OrTurn(init, low, s[next] - 128, 7 * k, width);
    ResumeMore(s, next, k, low, add);
  }

  lemma ReadingLast(s: seq<byte>, start: nat, init: nat, width: nat, next: nat, k: nat, low: nat, v: nat, add: nat)
    requires Reading(s, start, init, width, next, k, low, v) && init < Shl(1, width)
    requires k < 10 && next < |s| && s[next] < 128 && add == Shl(s[next], 7 * k)
    ensures Scan(s, start, 0) == Ok(Number(low + add, next + 1))
    ensures Or(v, Low(add, width)) == Or(init, Low(low + add, width)) < Shl(1, width)
  {
    OrTurn(init, low, s[next], 7 * k, width);
  }

  lemma ReadingTurn(s: seq<byte>, start: nat, init: nat, width: nat, next: nat, k: nat, low: nat, v: nat)
    returns (add: nat)
    requires Reading(s, start, init, width, next, k, low, v) && init < Shl(1, width)
    requires k < 10 && next < |s|
    ensures add == Shl(s[next] % 128, 7 * k) && Or(v, Low(add, width)) < Shl(1, width)
    ensures s[next] >= 128 ==> Reading(s, start, init, width, next + 1, k + 1, low + add, Or(v, Low(add, width)))
    ensures s[next] < 128 ==> Scan(s, start, 0).Ok? && Scan(s, start, 0).value.next == next + 1
    ensures s[next] < 128 ==> Or(v, Low(add, width)) == Or(init, Low(Scan(s, start, 0).value.raw, width))
  {
    add := Shl(s[next] % 128, 7 * k);
    if s[next] < 128 {
      ReadingLast(s, start, init, width, next, k, low, v, add);
    } else {
      assert s[next] % 128 == s[next] - 128;
      ReadingMore(s, start, init, width, next, k, low, v, add);
    }
  }

  /**
   * The varint loop of UnmarshalVT: it ors the bits it reads into an accumulator of 32 or 64 bits.
   * The accumulator starts at zero everywhere but for the value of a map entry.
   */
  method ReadVarint(dAtA: seq<byte>, iNdEx: nat, init: nat, width: nat)
    returns (err: Option<Error>, v: nat, next: nat)
    requires init < Shl(1, width)
    ensures v < Shl(1, width)
    ensures Scan(dAtA, iNdEx, 0).Err? ==> err == Some(Scan(dAtA, iNdEx, 0).error)
    ensures Scan(dAtA, iNdEx, 0).Ok? ==>
              var n := Scan(dAtA, iNdEx, 0).value;
              err == None && next == n.next && v == Or(init, Low(n.raw, width))
  {
    v, next := init, iNdEx;
    var shift: nat := 0;
    ghost var low: nat, k: nat := 0, 0;
    OrZero(init);
    LowBound(0, width);
    while true
      invariant shift == 7 * k
      invariant Reading(dAtA, iNdEx, init, width, next, k, low, v)
      decreases 10 - k
    {
      if shift >= 64 {
        return Some(IntOverflow), v, next;
      }
      if next >= |dAtA| {
        return Some(UnexpectedEOF), v, next;
      }
      var b := dAtA[next];
      ghost var add := ReadingTurn(dAtA, iNdEx, init, width, next, k, low, v);
      v := Or(v, Low(Shl(b % 128, shift), width));
      if b < 128 {
        return None, v, next + 1;
      }
      next, shift, k, low := next + 1, shift + 7, k + 1, low + add;
    }
  }

  /** The encoding of a number: seven bits a byte, low bits first, high bit set on all but the last. */
  function Varint(v: nat): (s: seq<byte>)
    ensures |s| >= 1
  {
    if v < 128 then [v] else [128 + v % 128] + Varint(v / 128)
  }

  lemma ShlOfSeven(n: nat)
    ensures Shl(1, n + 7) == 128 * Shl(1, n)
  {
    assert Shl(1, n + 3) == 2 * Shl(1, n + 2);
    assert Shl(1, n + 5) == 2 * Shl(1, n + 4);
    assert Shl(1, n + 7) == 2 * Shl(1, n + 6);
  }

  lemma {:induction false} VarintLength(v: nat, k: nat)
    requires k >= 1
    ensures |Varint(v)| <= k <==> v < Shl(1, 7 * k)
  {
    if k == 1 {
      PowersOfTwo();
      assert 7 * k == 7;
    } else {
      ShlSeven(1, 7 * (k - 1));
      ShlOfSeven(7 * (k - 1));
      assert 7 * (k - 1) + 7 == 7 * k;
      if v >= 128 {
        VarintLength(v / 128, k - 1);
      } else {
        VarintLength(0, k - 1);
      }
    }
  }

  /** Reading an encoding back gives the number. */
  lemma {:induction false} ScanVarint(v: nat, s: seq<byte>, i: nat, k: nat)
    requires k + |Varint(v)| <= 10
    requires Within(Varint(v), s, i)
    ensures Scan(s, i, k) == Ok(Number(v, i + |Varint(v)|))
    decreases v
  {
    var e := Varint(v);
    assert s[i] == s[i..i + |e|][0] == e[0];
    if v >= 128 {
      assert e[1..] == Varint(v / 128);
      assert s[i + 1..i + |e|] == s[i..i + |e|][1..];
      ScanVarint(v / 128, s, i + 1, k + 1);
    }
  }

  lemma Uint64Length(v: uint64)
    ensures |Varint(v)| <= 10
  {
    PowersOfTwo();
    VarintLength(v, 10);
  }

  /** bits.Len64: the number of bits of x. */
  function Len64(x: nat): nat {
    if x == 0 then 0 else 1 + Len64(x / 2)
  }

  lemma {:induction false} Len64Bounds(x: nat, n: nat)
    ensures Len64(x) <= n <==> x < Shl(1, n)
  {
    LowBound(0, n);
    if n != 0 && x != 0 {
      Len64Bounds(x / 2, n - 1);
    }
  }

  /** The closed form for the length of an encoding: one byte for every started group of seven bits. */
  function SizeOfVarint(x: nat): (n: nat) {
    (Len64(Or(x, 1)) + 6) / 7
  }

  lemma SizeIsLength(x: nat)
    ensures SizeOfVarint(x) == |Varint(x)|
  {
    var n := |Varint(x)|;
    SameGroups(x, n);
    if n > 1 {
      SameGroups(x, n - 1);
    }
  }

  lemma SameGroups(x: nat, k: nat)
    requires k >= 1
    ensures |Varint(x)| <= k <==> Len64(Or(x, 1)) <= 7 * k
  {
    hide Varint, Len64, Or;
    var y := Or(x, 1);
    assert y / 2 == x / 2 by {
      OrHalves(x, 1);
      OrZero(x / 2);
    }
    VarintLength(x, k);
    Len64Bounds(y, 7 * k);
    assert Shl(1, 7 * k) == 2 * Shl(1, 7 * k - 1);
  }

  /** A buffer whose bytes from i to hi have been replaced by the given ones. */
  function Overwrite(was: seq<byte>, i: nat, bytes: seq<byte>): (now: seq<byte>)
    requires i + |bytes| <= |was|
    ensures |now| == |was|
  {
    was[..i] + bytes + was[i + |bytes|..]
  }

  lemma OverwriteAll(was: seq<byte>, bytes: seq<byte>)
    requires |bytes| == |was|
    ensures Overwrite(was, 0, bytes) == bytes
  {
  }

  lemma OverwriteTwice(was: seq<byte>, i: nat, first: seq<byte>, rest: seq<byte>)
    requires i + |first| + |rest| <= |was|
    ensures Overwrite(Overwrite(was, i + |first|, rest), i, first) == Overwrite(was, i, first + rest)
  {
  }

  /** Writes the encoding of v so that it ends just before offset, and returns where it begins. */
  method EncodeVarint(dAtA: array<byte>, offset: nat, v: uint64) returns (base: nat)
    requires |Varint(v)| <= offset <= dAtA.Length
    modifies dAtA
    ensures base + |Varint(v)| == offset
    ensures dAtA[..] == Overwrite(old(dAtA[..]), base, Varint(v))
  {
    hide Overwrite, SizeOfVarint;
    SizeIsLength(v);
    ghost var was := dAtA[..];
    base := offset - SizeOfVarint(v);
    var at, rest := base, v;
    ghost var done: seq<byte> := [];
    OverwriteNothing(was, base);
    while rest >= 128
      invariant base <= at < offset && at == base + |done|
      invariant done + Varint(rest) == Varint(v)
      invariant dAtA[..] == Overwrite(was, base, done)
      decreases rest
    {
      ghost var now, b := dAtA[..], 128 + rest % 128;
      dAtA[at] := 128 + rest % 128;
      assert dAtA[..] == now[at := b];
      OverwriteNext(was, base, done, b);
      assert done + Varint(rest) == done + [b] + Varint(rest / 128);
      done, rest, at := done + [b], rest / 128, at + 1;
    }
    ghost var now := dAtA[..];
    dAtA[at] := rest;
    assert dAtA[..] == now[at := rest];
    OverwriteNext(was, base, done, rest);
  }

  lemma OverwriteNothing(was: seq<byte>, i: nat)
    requires i <= |was|
    ensures Overwrite(was, i, []) == was
  {
  }

  lemma OverwriteNext(was: seq<byte>, i: nat, done: seq<byte>, b: byte)
    requires i + |done| < |was|
    ensures Overwrite(was, i, done)[i + |done| := b] == Overwrite(was, i, done + [b])
  {
  }
}
