/**
 * How the entry of a map field should be read, as in the sections "Maps" and "Last One Wins" of the
 * Protocol Buffers encoding specification, and exactly when UnmarshalVT reads it so.
 */
module MapEntries {
  import opened Ints
  import opened Results
  import opened Varints
  import opened Wire
  import opened Encoding
  import opened Codecs
  import opened Writer
  import E = EventSinkState

  // ---------------------------------------------------------------- the standard reading

  /** One field of an entry: its key, its value, or a field that an entry does not know. */
  datatype Piece = KeyPiece(key: seq<byte>) | ValuePiece(value: uint64) | OtherPiece

  datatype Located = Located(piece: Piece, next: nat)

  datatype Pair = Pair(key: seq<byte>, value: uint64)

  /** The field at index i of an entry that ends where t ends. The wire type is not looked at. */
  function PieceAt(t: seq<byte>, i: nat): (r: Result<Located>)
    requires i <= |t|
    ensures r.Ok? ==> i < r.value.next <= |t|
  {
    match Scan(t, i, 0)
    case Err(e) => Err(e)
    case Ok(n) =>
      if FieldNum(n.raw) == 1 then
        match SpanAt(t, n.next)
        case Err(e) => Err(e)
        case Ok(span) => Ok(Located(KeyPiece(t[span.start..span.end]), span.end))
      else if FieldNum(n.raw) == 2 then
        match Scan(t, n.next, 0)
        case Err(e) => Err(e)
        case Ok(v) => Ok(Located(ValuePiece(Uint64(v.raw)), v.next))
      else
        match SkipAt(t, i, |t|)
        case Err(e) => Err(e)
        case Ok(next) => Ok(Located(OtherPiece, next))
  }

  /** All fields of an entry that starts at index i and ends where t ends. */
  function Pieces(t: seq<byte>, i: nat): Result<seq<Piece>>
    requires i <= |t|
    decreases |t| - i
  {
    if i == |t| then Ok([])
    else match PieceAt(t, i)
      case Err(e) => Err(e)
      case Ok(first) =>
        match Pieces(t, first.next)
        case Err(e) => Err(e)
        case Ok(rest) => Ok([first.piece] + rest)
  }

  /** The last key and the last value win; what is not given stays as it is. */
  function LastOnes(p: Pair, pieces: seq<Piece>): Pair
    decreases |pieces|
  {
    if pieces == [] then p
    else
      match pieces[0]
      case KeyPiece(key) => LastOnes(p.(key := key), pieces[1..])
      case ValuePiece(value) => LastOnes(p.(value := value), pieces[1..])
      case OtherPiece => LastOnes(p, pieces[1..])
  }

  /** The entry from start to post of s, read by the standard. */
  function Standard(s: seq<byte>, start: nat, post: nat): Result<Pair>
    requires start <= post <= |s|
  {
    match Pieces(s[..post], start)
    case Err(e) => Err(e)
    case Ok(pieces) => Ok(LastOnes(Pair([], 0), pieces))
  }

  /** The values given in an entry, in order. */
  function Values(pieces: seq<Piece>): seq<uint64> {
    if pieces == [] then []
    else (if pieces[0].ValuePiece? then [pieces[0].value] else []) + Values(pieces[1..])
  }

  // ---------------------------------------------------------------- it is how a submessage is read

  const ENTRY: Schema := map[1 := BytesKind, 2 := NumberKind]

  function ApplyPiece(p: Pair, rec: Record): (r: Result<Pair>)
    ensures r.Ok?
  {
    match rec
    case BytesField(1, key) => Ok(p.(key := key))
    case NumberField(2, value) => Ok(p.(value := value))
    case _ => Ok(p)
  }

  /** An entry as what it is in the standard: a message of a key and a value. */
  const CODEC: Codec<Pair> := Codec(ENTRY, ApplyPiece)

  lemma PieceIsRecord(t: seq<byte>, i: nat)
    requires i < |t| && NextRecord(ENTRY, t, i).Ok?
    ensures PieceAt(t, i).Ok? && PieceAt(t, i).value.next == NextRecord(ENTRY, t, i).value.next
    ensures forall p :: ApplyPiece(p, NextRecord(ENTRY, t, i).value.record) ==
              Ok(LastOnes(p, [PieceAt(t, i).value.piece]))
  {
    hide Scan, Uint64, SpanAt, SkipAt, FieldNum;
  }

  lemma LastOnesFirst(p: Pair, first: Piece, rest: seq<Piece>)
    ensures LastOnes(p, [first] + rest) == LastOnes(LastOnes(p, [first]), rest)
  {
    assert ([first] + rest)[1..] == rest && [first][1..] == [];
  }

  /**
   * Whatever bytes are accepted as such a message, as any other submessage is read, have the standard
   * reading, and it is that message.
   */
  lemma {:induction false} SubmessageIsStandard(p: Pair, u: seq<byte>, t: seq<byte>, i: nat)
    requires i <= |t| && Parse(CODEC, Message(p, u), t, i).Ok?
    ensures Pieces(t, i).Ok? && Parse(CODEC, Message(p, u), t, i).value.body == LastOnes(p, Pieces(t, i).value)
    decreases |t| - i
  {
    hide NextRecord, PieceAt, LastOnes;
    if i < |t| {
      PieceIsRecord(t, i);
      var step := NextRecord(ENTRY, t, i).value;
      var m := Absorb(CODEC, Message(p, u), step.record).value;
      SubmessageIsStandard(m.body, m.unknown, t, step.next);
      LastOnesFirst(p, PieceAt(t, i).value.piece, Pieces(t, step.next).value);
      assert m.body == LastOnes(p, [PieceAt(t, i).value.piece]);
    } else {
      assert LastOnes(p, []) == p by { NoPieces(p); }
    }
  }

  lemma NoPieces(p: Pair)
    ensures LastOnes(p, []) == p
  {
  }

  // ---------------------------------------------------------------- what the code reads instead

  /** The last key, and all values or-ed into the first. */
  function OrAll(p: Pair, pieces: seq<Piece>): Pair
    decreases |pieces|
  {
    if pieces == [] then p
    else
      match pieces[0]
      case KeyPiece(key) => OrAll(p.(key := key), pieces[1..])
      case ValuePiece(value) => OrAll(p.(value := OrUint64Of(p.value, value)), pieces[1..])
      case OtherPiece => OrAll(p, pieces[1..])
  }

  function OrUint64Of(a: uint64, b: uint64): uint64 {
    PowersOfTwo();
    OrBound(a, b, 64);
    Or(a, b)
  }

  /** What one turn of the inner loop does, on an entry that ends where the input ends. */
  lemma TurnIsPiece(t: seq<byte>, i: nat, p: Pair)
    requires i < |t|
    ensures EntryTurn(t, i, |t|, p.key, p.value).Ok? <==> PieceAt(t, i).Ok?
    ensures PieceAt(t, i).Ok? ==> (
              var q := OrAll(p, [PieceAt(t, i).value.piece]);
              EntryTurn(t, i, |t|, p.key, p.value).value == Entry(q.key, q.value, PieceAt(t, i).value.next))
  {
    hide Scan, Uint64, SpanAt, SkipAt, FieldNum, Or;
    if PieceAt(t, i).Ok? {
      assert [PieceAt(t, i).value.piece][1..] == [];
    }
  }

  lemma OrAllFirst(p: Pair, first: Piece, rest: seq<Piece>)
    ensures OrAll(p, [first] + rest) == OrAll(OrAll(p, [first]), rest)
  {
    assert ([first] + rest)[1..] == rest && [first][1..] == [];
  }

  lemma OrAllNone(p: Pair)
    ensures OrAll(p, []) == p
  {
  }

  /** The inner loop accepts an entry that stands alone exactly if it has a reading, and ors its values. */
  lemma {:induction false} LoopOrsAll(t: seq<byte>, i: nat, p: Pair)
    requires i <= |t|
    ensures EntryFrom(t, i, |t|, p.key, p.value).Ok? <==> Pieces(t, i).Ok?
    ensures Pieces(t, i).Ok? ==> (
              var q := OrAll(p, Pieces(t, i).value);
              EntryFrom(t, i, |t|, p.key, p.value).value == Entry(q.key, q.value, |t|))
    decreases |t| - i
  {
    hide EntryTurn, PieceAt, OrAll;
    OrAllNone(p);
    if i < |t| {
      TurnIsPiece(t, i, p);
      if PieceAt(t, i).Ok? {
        var first := PieceAt(t, i).value;
        LoopOrsAll(t, first.next, OrAll(p, [first.piece]));
        if Pieces(t, first.next).Ok? {
          OrAllFirst(p, first.piece, Pieces(t, first.next).value);
        }
      }
    }
  }

  // ---------------------------------------------------------------- bits

  /** Bit n of x. */
  predicate Bit(x: nat, n: nat) {
    if n == 0 then x % 2 == 1 else Bit(x / 2, n - 1)
  }

  lemma {:induction false} OrBit(a: nat, b: nat, n: nat)
    ensures Bit(Or(a, b), n) <==> Bit(a, n) || Bit(b, n)
  {
    OrHalves(a, b);
    if n != 0 {
      OrBit(a / 2, b / 2, n - 1);
    }
  }

  lemma {:induction false} SameBits(a: nat, b: nat)
    requires forall n: nat :: Bit(a, n) <==> Bit(b, n)
    ensures a == b
    decreases a + b
  {
    assert Bit(a, 0) <==> Bit(b, 0);
    if a + b > 0 {
      forall n: nat
        ensures Bit(a / 2, n) <==> Bit(b / 2, n)
      {
        assert Bit(a, n + 1) <==> Bit(b, n + 1);
      }
      SameBits(a / 2, b / 2);
    }
  }

  /** Some of these values has bit n. */
  predicate AnyBit(values: seq<uint64>, n: nat) {
    exists v | v in values :: Bit(v, n)
  }

  /** The last of the values, or none. */
  function LastValue(values: seq<uint64>): uint64 {
    if values == [] then 0 else values[|values| - 1]
  }

  /** No value of an entry has a bit that the last one lacks. */
  ghost predicate LastHasAllBits(values: seq<uint64>) {
    forall v, n: nat | v in values && Bit(v, n) :: Bit(LastValue(values), n)
  }

  lemma AnyBitFirst(v: uint64, rest: seq<uint64>, n: nat)
    ensures AnyBit([v] + rest, n) <==> Bit(v, n) || AnyBit(rest, n)
  {
    hide Bit;
    var all := [v] + rest;
    assert all[0] in all;
    forall x | x in rest
      ensures x in all
    {
    }
  }

  /** The bits of what the loop reads are those of all values, and of what was there before. */
  lemma {:induction false} OrAllBit(p: Pair, pieces: seq<Piece>, n: nat)
    ensures Bit(OrAll(p, pieces).value, n) <==> Bit(p.value, n) || AnyBit(Values(pieces), n)
    decreases |pieces|
  {
    hide Or, Bit;
    if pieces != [] {
      if pieces[0].ValuePiece? {
        OrBit(p.value, pieces[0].value, n);
        OrAllBit(p.(value := OrUint64Of(p.value, pieces[0].value)), pieces[1..], n);
        AnyBitFirst(pieces[0].value, Values(pieces[1..]), n);
      } else {
        OrAllBit(if pieces[0].KeyPiece? then p.(key := pieces[0].key) else p, pieces[1..], n);
        assert [] + Values(pieces[1..]) == Values(pieces[1..]);
      }
    }
  }

  /** The standard value is the last one given, and both readings have the last key. */
  lemma {:induction false} LastOnesAre(p: Pair, q: Pair, pieces: seq<Piece>)
    requires p.key == q.key
    ensures LastOnes(p, pieces).key == OrAll(q, pieces).key
    ensures LastOnes(p, pieces).value == if Values(pieces) == [] then p.value else LastValue(Values(pieces))
    decreases |pieces|
  {
    hide Or, OrUint64Of;
    if pieces != [] {
      var first, rest := pieces[0], pieces[1..];
      match first
      case KeyPiece(key) => LastOnesAre(p.(key := key), q.(key := key), rest);
      case ValuePiece(value) => LastOnesAre(p.(value := value), q.(value := OrUint64Of(q.value, value)), rest);
      case OtherPiece => LastOnesAre(p, q, rest);
    }
  }

  lemma ZeroHasNoBit(n: nat)
    ensures !Bit(0, n)
  {
    if n != 0 {
      ZeroHasNoBit(n - 1);
    }
  }

  /** All values or-ed together are the last one if and only if no value has a bit that it lacks. */
  lemma OrIsLast(pieces: seq<Piece>)
    ensures var p := Pair([], 0);
            OrAll(p, pieces).value == LastOnes(p, pieces).value <==> LastHasAllBits(Values(pieces))
  {
    hide Bit, OrAll, LastOnes, Values;
    var p, values := Pair([], 0), Values(pieces);
    var all, last := OrAll(p, pieces).value, LastOnes(p, pieces).value;
    LastOnesAre(p, p, pieces);
    forall n: nat
      ensures Bit(all, n) <==> AnyBit(values, n)
    {
      OrAllBit(p, pieces, n);
      ZeroHasNoBit(n);
    }
    if LastHasAllBits(values) {
      forall n: nat
        ensures Bit(all, n) <==> Bit(last, n)
      {
        ZeroHasNoBit(n);
        if values != [] {
          assert values[|values| - 1] in values;
        }
      }
      SameBits(all, last);
    } else {
      var v, n: nat :| v in values && Bit(v, n) && !Bit(LastValue(values), n);
      assert AnyBit(values, n);
    }
  }

  // ---------------------------------------------------------------- where there is no reading

  /** Where the reading of an entry stops: at the first field that cannot be read, or at the end. */
  function Unread(t: seq<byte>, i: nat): (k: nat)
    requires i <= |t|
    ensures i <= k <= |t|
    decreases |t| - i
  {
    if i == |t| || PieceAt(t, i).Err? then i else Unread(t, PieceAt(t, i).value.next)
  }

  lemma {:induction false} StopsBefore(t: seq<byte>, i: nat)
    requires i <= |t|
    ensures Pieces(t, i).Ok? <==> Unread(t, i) == |t|
    decreases |t| - i
  {
    hide PieceAt;
    if i < |t| && PieceAt(t, i).Ok? {
      StopsBefore(t, PieceAt(t, i).value.next);
    }
  }

  /** Read in the whole input, the field at index k is a key or a value. */
  predicate IsKeyOrValue(s: seq<byte>, k: nat) {
    k <= |s| && PieceAt(s, k).Ok? && !PieceAt(s, k).value.piece.OtherPiece?
  }

  /** A turn on a field that the entry cut off succeeds exactly on a key or a value. */
  lemma CutOffTurn(s: seq<byte>, post: nat, i: nat, p: Pair)
    requires i < post <= |s| <= MAX_INT && PieceAt(s[..post], i).Err?
    ensures EntryTurn(s, i, post, p.key, p.value).Ok? <==> IsKeyOrValue(s, i)
  {
    hide Scan, Uint64, SpanAt, SkipAt, FieldNum, Or, Within;
    var t := s[..post];
    AppendWithin(t, s[post..]);
    assert t + s[post..] == s;
    ScanWithin(t, s, 0, i, 0);
    SkipAtWithin(t, s, 0, i, post);
    SkipReadsTag(t, i, post);
  }

  lemma TurnFits(s: seq<byte>, post: nat, i: nat, p: Pair)
    requires i < post <= |s| <= MAX_INT
    ensures PieceAt(s[..post], i).Ok? ==> EntryTurn(s, i, post, p.key, p.value).Ok?
    ensures PieceAt(s[..post], i).Ok? ==> (
              var q := OrAll(p, [PieceAt(s[..post], i).value.piece]);
              EntryTurn(s, i, post, p.key, p.value).value == Entry(q.key, q.value, PieceAt(s[..post], i).value.next))
    ensures PieceAt(s[..post], i).Err? && EntryTurn(s, i, post, p.key, p.value).Ok? ==>
              EntryTurn(s, i, post, p.key, p.value).value.next > post
  {
    hide PieceAt, EntryTurn, OrAll, Within;
    AppendWithin(s[..post], s[post..]);
    assert s[..post] + s[post..] == s;
    EntryTurnWithin(s[..post], s, 0, i, post, p.key, p.value);
    TurnIsPiece(s[..post], i, p);
  }

  lemma {:induction false} LoopStops(s: seq<byte>, post: nat, i: nat, p: Pair)
    requires i <= post <= |s| <= MAX_INT && Unread(s[..post], i) < post
    ensures EntryFrom(s, i, post, p.key, p.value).Ok? <==> IsKeyOrValue(s, Unread(s[..post], i))
    decreases post - i
  {
    hide PieceAt, EntryTurn, OrAll, IsKeyOrValue;
    var t := s[..post];
    TurnFits(s, post, i, p);
    if PieceAt(t, i).Ok? {
      LoopStops(s, post, PieceAt(t, i).value.next, OrAll(p, [PieceAt(t, i).value.piece]));
    } else {
      CutOffTurn(s, post, i, p);
    }
  }

  // ---------------------------------------------------------------- the two readings

  /**
   * For every entry that has a standard reading, wherever it stands in the input: the inner loop of
   * UnmarshalVT reads the same key and ends where the entry ends, and it reads the same value if and
   * only if no value in the entry has a bit that the last one lacks. On an entry that has none, it
   * runs past the end of the entry if the first field that cannot be read there is a key or a value
   * that goes on after it, and fails otherwise.
   */
  lemma LoopIsStandardExactly(s: seq<byte>, start: nat, post: nat)
    requires start <= post <= |s| <= MAX_INT
    ensures Standard(s, start, post).Ok? ==> (
              var read := EntryFrom(s, start, post, [], 0);
              && read.Ok? && read.value.key == Standard(s, start, post).value.key && read.value.next == post
              && (read.value.value == Standard(s, start, post).value.value <==>
                    LastHasAllBits(Values(Pieces(s[..post], start).value))))
    ensures Standard(s, start, post).Err? ==>
              if IsKeyOrValue(s, Unread(s[..post], start)) then
                EntryFrom(s, start, post, [], 0).Ok? && EntryFrom(s, start, post, [], 0).value.next > post
              else EntryFrom(s, start, post, [], 0).Err?
  {
    hide EntryFrom, Pieces, OrAll, LastOnes, Values, LastHasAllBits, Unread, IsKeyOrValue;
    var p := Pair([], 0);
    LoopOrsAll(s[..post], start, p);
    E.EntryAlone(s, start, post);
    if Pieces(s[..post], start).Ok? {
      OrIsLast(Pieces(s[..post], start).value);
      LastOnesAre(p, p, Pieces(s[..post], start).value);
    } else {
      StopsBefore(s[..post], start);
      LoopStops(s, post, start, p);
    }
  }

  /** In particular, an entry with at most one value is read as the standard asks. */
  lemma OneValueIsStandard(s: seq<byte>, start: nat, post: nat)
    requires start <= post <= |s| <= MAX_INT && Pieces(s[..post], start).Ok?
    requires |Values(Pieces(s[..post], start).value)| <= 1
    ensures EntryFrom(s, start, post, [], 0) ==
              Ok(Entry(Standard(s, start, post).value.key, Standard(s, start, post).value.value, post))
  {
    hide EntryFrom, Pieces, LastOnes, Values, Bit;
    LoopIsStandardExactly(s, start, post);
  }

  /** By the standard, an entry that gives the value one and then two has the value two. */
  lemma StandardOneThenTwo(key: seq<byte>)
    requires |EncodeEntry(key, 1) + EncodeNumber(2, 2)| <= MAX_INT
    ensures var body := EncodeEntry(key, 1) + EncodeNumber(2, 2);
            Standard(body, 0, |body|) == Ok(Pair(key, 2))
  {
    hide EncodeBytes, EncodeNumber, Unmarshal, Pieces;
    var body := EncodeEntry(key, 1) + EncodeNumber(2, 2);
    var third := [NumberField(2, 2)];
    var second := [NumberField(2, 1)] + third;
    var recs := [BytesField(1, key)] + second;
    assert recs[1..] == second && second[1..] == third && third[1..] == [];
    assert EncodeAll(third) == EncodeNumber(2, 2) by { EncodeOne(NumberField(2, 2)); }
    assert EncodeAll(second) == EncodeNumber(2, 1) + EncodeNumber(2, 2);
    assert EncodeAll(recs) == EncodeBytes(1, key) + (EncodeNumber(2, 1) + EncodeNumber(2, 2));
    assert EncodeAll(recs) + [] == body;
    assert AbsorbAll(CODEC, Message(Pair(key, 2), []), []) == Ok(Message(Pair(key, 2), []));
    assert AbsorbAll(CODEC, Message(Pair(key, 1), []), third) == Ok(Message(Pair(key, 2), []));
    assert AbsorbAll(CODEC, Message(Pair(key, 0), []), second) == Ok(Message(Pair(key, 2), []));
    ParseRecords(CODEC, Message(Pair([], 0), []), recs, []);
    assert Unmarshal(CODEC, Message(Pair(key, 2), []), []) ==
        Ok(Message(Pair(key, 2), [])) by { ReadsNothing(Pair(key, 2)); }
    assert body[..|body|] == body;
    WholeIsStandard(body);
  }

  lemma ReadsNothing(p: Pair)
    ensures Unmarshal(CODEC, Message(p, []), []) == Ok(Message(p, []))
  {
  }

  lemma WholeIsStandard(body: seq<byte>)
    requires Unmarshal(CODEC, Message(Pair([], 0), []), body).Ok?
    ensures Pieces(body, 0).Ok?
    ensures Unmarshal(CODEC, Message(Pair([], 0), []), body).value.body == LastOnes(Pair([], 0), Pieces(body, 0).value)
  {
    SubmessageIsStandard(Pair([], 0), [], body, 0);
  }
}
