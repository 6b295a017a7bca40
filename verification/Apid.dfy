/**
 * How apid rewrites the replies of its backends, so that the concatenation of all of them is one
 * response: AppendInfo and BuildError.
 */
module Apid {
  import opened Ints
  import opened Results
  import opened Varints
  import opened Wire
  import opened Encoding
  import opened Codecs

  /** The field of a response that holds its replies, and the header byte of that field. */
  const REPLIES: nat := 1
  const HEADER: nat := 8 * REPLIES + 2

  /** What AppendInfo returns: bytes, and the error of building the metadata. */
  datatype Answer = Answer(bytes: seq<byte>, err: Option<Error>)

  // ---------------------------------------------------------------- protowire.ConsumeVarint

  /** A varint of at most 64 bits at the start of s: of a tenth byte, only the lowest bit may be set. */
  function ConsumeVarint(s: seq<byte>): (r: Result<Number>)
    ensures r.Ok? ==> 0 < r.value.next <= |s|
  {
    match Scan(s, 0, 0)
    case Err(e) => Err(e)
    case Ok(n) => if n.next >= 10 && s[9] >= 2 then Err(IntOverflow) else Ok(n)
  }

  lemma ScanTurn(s: seq<byte>, i: nat, k: nat)
    requires Scan(s, i, k).Ok?
    ensures k < 10 && i < |s|
    ensures s[i] < 128 ==> Scan(s, i, k).value == Number(s[i], i + 1)
    ensures s[i] >= 128 ==> Scan(s, i + 1, k + 1).Ok? && i + 1 < Scan(s, i + 1, k + 1).value.next
    ensures s[i] >= 128 ==> Scan(s, i, k).value.next == Scan(s, i + 1, k + 1).value.next
    ensures s[i] >= 128 ==> Scan(s, i, k).value.raw == s[i] - 128 + 128 * Scan(s, i + 1, k + 1).value.raw
  {
  }

  /** A varint of n bytes has at most 7n bits. */
  lemma {:induction false} ScanBound(s: seq<byte>, i: nat, k: nat)
    requires Scan(s, i, k).Ok?
    ensures var n := Scan(s, i, k).value; n.next <= i + 10 - k && n.raw < Shl(1, 7 * (n.next - i))
    decreases 10 - k
  {
    hide Shl, Scan;
    ScanTurn(s, i, k);
    if s[i] < 128 {
      SmallPowers();
    } else {
      ScanBound(s, i + 1, k + 1);
      ShlOfSeven(7 * (Scan(s, i, k).value.next - i - 1));
    }
  }

  /** Its last byte is below two exactly if it has one bit more than its other bytes hold. */
  lemma {:induction false} ScanLast(s: seq<byte>, i: nat, k: nat)
    requires Scan(s, i, k).Ok?
    ensures var n := Scan(s, i, k).value;
            i < n.next <= i + 10 - k && (s[n.next - 1] < 2 <==> n.raw < Shl(1, 7 * (n.next - i - 1) + 1))
    decreases 10 - k
  {
    hide Shl, Scan;
    ScanTurn(s, i, k);
    if s[i] < 128 {
      SmallPowers();
    } else {
      ScanLast(s, i + 1, k + 1);
      ShlOfSeven(7 * (Scan(s, i, k).value.next - i - 2) + 1);
    }
  }

  lemma SmallPowers()
    ensures Shl(1, 7) == 128 && Shl(1, 1) == 2
  {
    PowersOfTwo();
  }

  /** What ConsumeVarint accepts is a number of 64 bits, so nothing of it is lost. */
  lemma ConsumedFits(s: seq<byte>)
    requires ConsumeVarint(s).Ok?
    ensures Uint64(ConsumeVarint(s).value.raw) == ConsumeVarint(s).value.raw < TWO_64
  {
    hide Scan;
    var n := ConsumeVarint(s).value;
    ScanBound(s, 0, 0);
    ScanLast(s, 0, 0);
    PowersOfTwo();
    if n.next < 10 {
      ShlGrows(7 * n.next, 64);
    }
    LowBound(n.raw, 64);
  }

  lemma {:induction false} ShlGrows(m: nat, n: nat)
    requires m <= n
    ensures Shl(1, m) <= Shl(1, n)
    decreases n - m
  {
    if m < n {
      ShlGrows(m, n - 1);
    }
  }

  lemma NineGroups()
    ensures Shl(1, 63) == TWO_63
  {
    PowersOfTwo();
    assert Shl(1, 64) == 2 * Shl(1, 63);
  }

  /** A varint is accepted if and only if it is one, by the standard, of a number of at most 64 bits. */
  lemma ConsumesExactly(s: seq<byte>)
    ensures ConsumeVarint(s).Ok? <==> Scan(s, 0, 0).Ok? && Scan(s, 0, 0).value.raw < TWO_64
    ensures ConsumeVarint(s).Ok? ==> ConsumeVarint(s).value == Scan(s, 0, 0).value
  {
    hide Shl;
    if ConsumeVarint(s).Ok? {
      ConsumedFits(s);
    } else if Scan(s, 0, 0).Ok? {
      ScanLast(s, 0, 0);
      PowersOfTwo();
      assert s[9] >= 2 && Scan(s, 0, 0).value.next == 10;
    }
  }

  // ---------------------------------------------------------------- the rewriting

  /** AppendInfo: adds the metadata, marshalled as payload or failed with err, to a reply. */
  function AppendInfo(streaming: bool, resp: seq<byte>, payload: seq<byte>, err: Option<Error>): Answer {
    if streaming then Answer(resp + payload, err)
    else match ConsumeVarint(resp)
      case Err(e) => Answer([], Some(e))
      case Ok(typ) =>
        match ConsumeVarint(resp[typ.next..])
        case Err(e) => Answer([], Some(e))
        case Ok(length) =>
          if typ.raw != HEADER then Answer([], Some(UnexpectedFormat(typ.raw)))
          else
            var rest := resp[typ.next + length.next..];
            Answer(Varint(HEADER) + Varint(|rest| + |payload|) + rest + payload, err)
  }

  /**
   * The bytes begin with a header that AppendInfo accepts: the varints, in any form, of the tag 10 and
   * of a length of at most 64 bits.
   */
  predicate PlainHeader(resp: seq<byte>) {
    && Scan(resp, 0, 0).Ok? && Scan(resp, 0, 0).value.raw == HEADER
    && Scan(resp, Scan(resp, 0, 0).value.next, 0).Ok?
    && Scan(resp, Scan(resp, 0, 0).value.next, 0).value.raw < TWO_64
  }

  /** AppendInfo accepts a unary response if and only if it begins with such a header. */
  lemma AcceptsExactly(resp: seq<byte>, payload: seq<byte>)
    ensures AppendInfo(false, resp, payload, None).err == None <==> PlainHeader(resp)
  {
    hide Scan, Varint;
    ConsumesExactly(resp);
    if ConsumeVarint(resp).Ok? {
      var n1 := ConsumeVarint(resp).value.next;
      ConsumesExactly(resp[n1..]);
      ScanWithin(resp[n1..], resp, n1, 0, 0);
    }
  }

  /** BuildError: an error, marshalled as payload, in the place of a reply. */
  function BuildError(streaming: bool, payload: seq<byte>): seq<byte> {
    if streaming then payload else EncodeBytes(REPLIES, payload)
  }

  /**
   * All answers of AppendInfo. While streaming, the metadata follows the reply. A unary response that does
   * not begin with two varints gives the error of the first that is none, and one whose first varint is
   * not the header says so; both lose the reply. Whether the metadata could be built is said besides.
   */
  lemma AnswersExactly(resp: seq<byte>, payload: seq<byte>, err: Option<Error>)
    ensures AppendInfo(true, resp, payload, err) == Answer(resp + payload, err)
    ensures ConsumeVarint(resp).Err? ==>
              AppendInfo(false, resp, payload, err) == Answer([], Some(ConsumeVarint(resp).error))
    ensures ConsumeVarint(resp).Ok? ==> (
              var typ := ConsumeVarint(resp).value;
              var length := ConsumeVarint(resp[typ.next..]);
              && (length.Err? ==> AppendInfo(false, resp, payload, err) == Answer([], Some(length.error)))
              && (length.Ok? && typ.raw != 10 ==>
                    AppendInfo(false, resp, payload, err) == Answer([], Some(UnexpectedFormat(typ.raw))))
              && (length.Ok? && typ.raw == 10 ==>
                    AppendInfo(false, resp, payload, err) ==
                      Answer(EncodeBytes(1, resp[typ.next + length.value.next..] + payload), err)))
    ensures BuildError(true, payload) == payload && BuildError(false, payload) == EncodeBytes(1, payload)
  {
    hide ConsumeVarint, Varint;
    if ConsumeVarint(resp).Ok? && ConsumeVarint(resp[ConsumeVarint(resp).value.next..]).Ok? {
      var typ := ConsumeVarint(resp).value;
      var rest := resp[typ.next + ConsumeVarint(resp[typ.next..]).value.next..];
      assert Varint(10) + Varint(|rest| + |payload|) + rest + payload
          == Varint(10) + Varint(|rest + payload|) + (rest + payload);
    }
  }

  // ---------------------------------------------------------------- responses

  const SCHEMA: Schema := map[REPLIES as int := BytesKind]

  function Collect(replies: seq<seq<byte>>, rec: Record): (r: Result<seq<seq<byte>>>)
    ensures r.Ok?
  {
    match rec
    case BytesField(_, body) => Ok(replies + [body])
    case _ => Ok(replies)
  }

  /** A response: its replies, each still encoded. */
  const CODEC: Codec<seq<seq<byte>>> := Codec(SCHEMA, Collect)

  const NO_REPLIES: Message<seq<seq<byte>>> := Message([], [])

  /** resp starts with one reply, which ends at index next. */
  ghost predicate StartsWith(resp: seq<byte>, body: seq<byte>, next: nat) {
    resp != [] && NextRecord(SCHEMA, resp, 0) == Ok(Step(BytesField(REPLIES, body), next))
  }

  /** The header that AppendInfo cuts off is the header of the first reply. */
  lemma HeaderIsFirst(resp: seq<byte>, payload: seq<byte>, body: seq<byte>, next: nat) returns (start: nat)
    requires AppendInfo(false, resp, payload, None).err == None && StartsWith(resp, body, next)
    ensures start <= next <= |resp| && body == resp[start..next]
    ensures AppendInfo(false, resp, payload, None).bytes == EncodeBytes(REPLIES, resp[start..] + payload)
  {
    hide Scan, Varint, Shl, Low;
    var typ := ConsumeVarint(resp).value;
    var length := ConsumeVarint(resp[typ.next..]).value;
    ConsumedFits(resp);
    ScanWithin(resp[typ.next..], resp, typ.next, 0, 0);
    start := typ.next + length.next;
    var rest := resp[start..];
    assert Varint(HEADER) + Varint(|rest| + |payload|) + rest + payload
        == Varint(HEADER) + Varint(|rest + payload|) + (rest + payload);
  }

  lemma EncodeBytesInjective(a: seq<byte>, b: seq<byte>)
    requires EncodeBytes(REPLIES, a) == EncodeBytes(REPLIES, b) && |EncodeBytes(REPLIES, a)| <= MAX_INT
    ensures a == b
  {
    hide EncodeBytes, NextRecord;
    RecordReadsBack(SCHEMA, BytesField(REPLIES, a));
    RecordReadsBack(SCHEMA, BytesField(REPLIES, b));
  }

  /**
   * A unary reply gets the metadata at its end if and only if it is the whole response. Otherwise
   * what follows it becomes part of the reply.
   */
  lemma AppendInfoExtendsReply(resp: seq<byte>, payload: seq<byte>, body: seq<byte>, next: nat)
    requires PlainHeader(resp) && StartsWith(resp, body, next)
    requires |AppendInfo(false, resp, payload, None).bytes| <= MAX_INT
    ensures AppendInfo(false, resp, payload, None).err == None
    ensures AppendInfo(false, resp, payload, None).bytes == EncodeBytes(REPLIES, body + payload) <==> next == |resp|
  {
    hide AppendInfo, EncodeBytes, StartsWith, PlainHeader;
    AcceptsExactly(resp, payload);
    var start := HeaderIsFirst(resp, payload, body, next);
    if AppendInfo(false, resp, payload, None).bytes == EncodeBytes(REPLIES, body + payload) {
      EncodeBytesInjective(resp[start..] + payload, body + payload);
    }
    if next == |resp| {
      assert body == resp[start..];
    }
  }

  /** One backend's part of a response: a reply with its metadata, or an error. */
  datatype Part = Replied(resp: seq<byte>, body: seq<byte>, payload: seq<byte>) | Failed(payload: seq<byte>)

  function PartBytes(p: Part): seq<byte> {
    match p
    case Replied(resp, _, payload) => AppendInfo(false, resp, payload, None).bytes
    case Failed(payload) => BuildError(false, payload)
  }

  /** The reply is one length-delimited field 1 and nothing else, its header in any form of plain varints. */
  ghost predicate Unary(p: Part) {
    p.Replied? ==> StartsWith(p.resp, p.body, |p.resp|) && PlainHeader(p.resp)
  }

  /** What the part should add to the response. */
  function Content(p: Part): seq<byte> {
    match p
    case Replied(_, body, payload) => body + payload
    case Failed(payload) => payload
  }

  function Concatenated(parts: seq<Part>): seq<byte> {
    if parts == [] then [] else PartBytes(parts[0]) + Concatenated(parts[1..])
  }

  function Contents(parts: seq<Part>): seq<seq<byte>> {
    seq(|parts|, i requires 0 <= i < |parts| => Content(parts[i]))
  }

  lemma PartIsField(p: Part)
    requires Unary(p) && |PartBytes(p)| <= MAX_INT
    ensures PartBytes(p) == EncodeBytes(REPLIES, Content(p))
  {
    hide AppendInfo, EncodeBytes, StartsWith, PlainHeader;
    if p.Replied? {
      AppendInfoExtendsReply(p.resp, p.payload, p.body, |p.resp|);
    }
  }

  lemma {:induction false} PartsAreFields(parts: seq<Part>)
    requires forall p | p in parts :: Unary(p)
    requires |Concatenated(parts)| <= MAX_INT
    ensures Concatenated(parts) == EncodeAll(Repeated(REPLIES, Contents(parts)))
  {
    hide EncodeBytes, PartBytes, Content, Unary;
    if parts != [] {
      PartIsField(parts[0]);
      PartsAreFields(parts[1..]);
      assert Contents(parts)[1..] == Contents(parts[1..]);
      OneMoreReply(Contents(parts));
    }
  }

  lemma OneMoreReply(items: seq<seq<byte>>)
    requires items != []
    ensures EncodeAll(Repeated(REPLIES, items)) ==
              EncodeBytes(REPLIES, items[0]) + EncodeAll(Repeated(REPLIES, items[1..]))
  {
    hide EncodeBytes;
    assert Repeated(REPLIES, items)[1..] == Repeated(REPLIES, items[1..]);
  }

  lemma {:induction false} CollectsAll(replies: seq<seq<byte>>, items: seq<seq<byte>>)
    ensures Makes(CODEC, replies, Repeated(REPLIES, items), replies + items)
    decreases |items|
  {
    hide Makes;
    if items == [] {
      assert replies + items == replies;
      MakesNothing(CODEC, replies);
    } else {
      assert replies + items == replies + [items[0]] + items[1..];
      CollectsAll(replies + [items[0]], items[1..]);
      MakesMore(CODEC, replies, [BytesField(REPLIES, items[0])], replies + [items[0]], Repeated(REPLIES, items[1..]),
        replies + items);
    }
  }

  /**
   * The parts of any number of backends, replies and errors mixed and in any order, decode as one
   * response: exactly one reply for each backend, its own reply followed by its own metadata.
   */
  lemma PartsAggregate(parts: seq<Part>)
    requires forall p | p in parts :: Unary(p)
    requires |Concatenated(parts)| <= MAX_INT
    ensures Unmarshal(CODEC, NO_REPLIES, Concatenated(parts)) == Ok(Message(Contents(parts), []))
  {
    hide Unary, Concatenated, EncodeAll, Repeated, Makes, Unmarshal;
    var contents := Contents(parts);
    var recs := Repeated(REPLIES, contents);
    PartsAreFields(parts);
    CollectsAll([], contents);
    assert [] + contents == contents;
    assert EncodeAll(recs) + [] == EncodeAll(recs);
    MakesFit(CODEC, [], recs, contents);
    NothingUnknown(SCHEMA);
    RoundTrip(CODEC, [], contents, recs, []);
  }

  /**
   * A reply, unary or streamed, that carries metadata decodes to the reply with the metadata merged
   * into it, whatever message the reply is.
   */
  lemma MetadataIsMerged<B>(c: Codec<B>, m: Message<B>, body: seq<byte>, payload: seq<byte>)
    requires |body + payload| <= MAX_INT && Unmarshal(c, m, body).Ok?
    ensures Content(Replied([], body, payload)) == AppendInfo(true, body, payload, None).bytes
    ensures SameOutcome(
              Unmarshal(c, m, AppendInfo(true, body, payload, None).bytes),
              Unmarshal(c, Unmarshal(c, m, body).value, payload))
  {
    hide Unmarshal;
    ConcatenationIsMerge(c, m, body, payload);
  }

  lemma ConsumeReadsBack(value: nat, s: seq<byte>)
    requires value <= MAX_INT && Within(Varint(value), s, 0)
    ensures ConsumeVarint(s) == Ok(Number(value, |Varint(value)|))
  {
    hide Varint, Scan, Shl;
    VarintLength(value, 9);
    NineGroups();
    ScanVarint(value, s, 0, 0);
  }

  /**
   * A reply with an ordinary header is accepted, and gets the metadata at its end. So does whatever
   * follows it in the response: a second reply would be lost inside the first.
   */
  lemma PlainReply(body: seq<byte>, rest: seq<byte>, payload: seq<byte>)
    requires |body| <= MAX_INT
    ensures AppendInfo(false, EncodeBytes(REPLIES, body) + rest, payload, None)
         == Answer(EncodeBytes(REPLIES, body + rest + payload), None)
  {
    hide Varint, ConsumeVarint, Within, AppendInfo, EncodeBytes;
    var first, second := Varint(HEADER), Varint(|body|);
    var resp := EncodeBytes(REPLIES, body) + rest;
    PlainIs(body, rest);
    AppendWithin(first, second + (body + rest));
    ConsumeReadsBack(HEADER, resp);
    assert resp[|first|..] == second + (body + rest);
    AppendWithin(second, body + rest);
    ConsumeReadsBack(|body|, resp[|first|..]);
    assert resp[|first| + |second|..] == body + rest;
    AnswersExactly(resp, payload, None);
  }

  lemma PlainIs(body: seq<byte>, rest: seq<byte>)
    ensures EncodeBytes(REPLIES, body) + rest == Varint(HEADER) + (Varint(|body|) + (body + rest))
  {
    hide Varint;
    FourParts(Varint(HEADER), Varint(|body|), body, rest);
  }

  lemma FourParts(a: seq<byte>, b: seq<byte>, c: seq<byte>, d: seq<byte>)
    ensures a + b + c + d == a + (b + (c + d))
  {
  }
}
