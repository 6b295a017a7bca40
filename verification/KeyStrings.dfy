/**
 * WireGuard keys as strings: 32 bytes in base 64, as wgtypes prints and parses them. The last of the
 * 43 letters has two bits more than the key; printing sets them to zero, and parsing ignores them.
 */
module KeyStrings {
  import opened Ints
  import opened Results

  const KEY_LEN: nat := 32

  const ZEROS: seq<byte> := [
    0, 0, 0, 0, 0, 0, 0, 0, 0, 0, 0, 0, 0, 0, 0, 0,
    0, 0, 0, 0, 0, 0, 0, 0, 0, 0, 0, 0, 0, 0, 0, 0]

  type Key = k: seq<byte> | |k| == KEY_LEN witness ZEROS

  const ZERO_KEY: Key := ZEROS

  /** The letter for six bits. */
  function Letter(n: nat): char
    requires n < 64
  {
    if n < 26 then ('A' as int + n) as char
    else if n < 52 then ('a' as int + (n - 26)) as char
    else if n < 62 then ('0' as int + (n - 52)) as char
    else if n == 62 then '+'
    else '/'
  }

  /** The six bits of a letter. */
  function Sextet(c: char): (r: Option<nat>)
    ensures r.Some? ==> r.value < 64
  {
    if 'A' <= c <= 'Z' then Some(c as int - 'A' as int)
    else if 'a' <= c <= 'z' then Some(c as int - 'a' as int + 26)
    else if '0' <= c <= '9' then Some(c as int - '0' as int + 52)
    else if c == '+' then Some(62)
    else if c == '/' then Some(63)
    else None
  }

  lemma LetterReadsBack(n: nat)
    requires n < 64
    ensures Sextet(Letter(n)) == Some(n) && Letter(n) != '='
  {
  }

  /** Three bytes as four letters. */
  function PrintGroup(a: byte, b: byte, c: byte): string {
    [Letter(a / 4), Letter(a % 4 * 16 + b / 16), Letter(b % 16 * 4 + c / 64), Letter(c % 64)]
  }

  /** The last two bytes as three letters and a sign that one is missing. */
  function PrintLast(a: byte, b: byte): string {
    [Letter(a / 4), Letter(a % 4 * 16 + b / 16), Letter(b % 16 * 4), '=']
  }

  function PrintGroups(bytes: seq<byte>): string
    requires |bytes| % 3 == 0
  {
    if bytes == [] then "" else PrintGroup(bytes[0], bytes[1], bytes[2]) + PrintGroups(bytes[3..])
  }

  /** Key.String. */
  function Print(k: Key): string {
    PrintGroups(k[..30]) + PrintLast(k[30], k[31])
  }

  function ParseGroup(s: string): Option<seq<byte>>
    requires |s| == 4
  {
    var a, b, c, d := Sextet(s[0]), Sextet(s[1]), Sextet(s[2]), Sextet(s[3]);
    if a == None || b == None || c == None || d == None then None
    else Some([a.value * 4 + b.value / 16, b.value % 16 * 16 + c.value / 4, c.value % 4 * 64 + d.value])
  }

  /** The two lowest bits of the last letter are not looked at. */
  function ParseLast(s: string): Option<seq<byte>>
    requires |s| == 4
  {
    var a, b, c := Sextet(s[0]), Sextet(s[1]), Sextet(s[2]);
    if a == None || b == None || c == None || s[3] != '=' then None
    else Some([a.value * 4 + b.value / 16, b.value % 16 * 16 + c.value / 4])
  }

  function ParseGroups(s: string): (r: Option<seq<byte>>)
    requires |s| % 4 == 0
    ensures r.Some? ==> |r.value| == |s| / 4 * 3
  {
    if s == "" then Some([])
    else
      var first, rest := ParseGroup(s[..4]), ParseGroups(s[4..]);
      if first == None || rest == None then None else Some(first.value + rest.value)
  }

  /** wgtypes.ParseKey: exactly 32 bytes, hence 44 characters of which the last one is '='. */
  function Parse(s: string): Option<Key> {
    if |s| != 44 then None
    else
      var groups, last := ParseGroups(s[..40]), ParseLast(s[40..]);
      if groups == None || last == None then None else Some(groups.value + last.value)
  }

  /** Bits that are cut apart and put together again. */
  lemma Regrouped(a: byte, b: byte, n: nat)
    requires n < 16
    ensures a / 4 * 4 + (a % 4 * 16 + n) / 16 == a
    ensures (a % 4 * 16 + n) % 16 == n
    ensures b / 16 < 16 && b / 16 * 16 + b % 16 == b
  {
  }

  lemma RegroupedLow(b: byte, c: byte)
    ensures (b % 16 * 4 + c / 64) / 4 == b % 16 && (b % 16 * 4 + c / 64) % 4 * 64 + c % 64 == c
  {
  }

  lemma GroupReadsBack(a: byte, b: byte, c: byte)
    ensures ParseGroup(PrintGroup(a, b, c)) == Some([a, b, c])
  {
    hide Letter, Sextet;
    Regrouped(a, b, b / 16);
    RegroupedLow(b, c);
    LetterReadsBack(a / 4);
    LetterReadsBack(a % 4 * 16 + b / 16);
    LetterReadsBack(b % 16 * 4 + c / 64);
    LetterReadsBack(c % 64);
  }

  /** The last group, its third letter with any two lowest bits, is read as the same two bytes. */
  lemma LastReadsBack(a: byte, b: byte, low: nat)
    requires low < 4
    ensures ParseLast([Letter(a / 4), Letter(a % 4 * 16 + b / 16), Letter(b % 16 * 4 + low), '=']) == Some([a, b])
  {
    hide Letter, Sextet;
    LetterReadsBack(a / 4);
    LetterReadsBack(a % 4 * 16 + b / 16);
    LetterReadsBack(b % 16 * 4 + low);
  }

  lemma {:induction false} GroupsReadBack(bytes: seq<byte>)
    requires |bytes| % 3 == 0
    ensures |PrintGroups(bytes)| == |bytes| / 3 * 4 && ParseGroups(PrintGroups(bytes)) == Some(bytes)
    decreases |bytes|
  {
    hide PrintGroup, ParseGroup;
    if bytes != [] {
      GroupReadsBack(bytes[0], bytes[1], bytes[2]);
      GroupsReadBack(bytes[3..]);
      GroupLength(bytes[0], bytes[1], bytes[2]);
      var first, rest := PrintGroup(bytes[0], bytes[1], bytes[2]), PrintGroups(bytes[3..]);
      assert (first + rest)[..4] == first && (first + rest)[4..] == rest;
      assert bytes == [bytes[0], bytes[1], bytes[2]] + bytes[3..];
    }
  }

  lemma GroupLength(a: byte, b: byte, c: byte)
    ensures |PrintGroup(a, b, c)| == 4
  {
  }

  /** A key written with other lowest bits in its last letter. */
  function Respelled(k: Key, low: nat): string
    requires low < 4
  {
    PrintGroups(k[..30]) + [Letter(k[30] / 4), Letter(k[30] % 4 * 16 + k[31] / 16), Letter(k[31] % 16 * 4 + low), '=']
  }

  lemma RespelledIsPrint(k: Key)
    ensures Respelled(k, 0) == Print(k)
  {
  }

  /** Every key can be written in four ways that parse, of which it is printed in the first. */
  lemma RespelledParses(k: Key, low: nat)
    requires low < 4
    ensures Parse(Respelled(k, low)) == Some(k)
  {
    hide PrintGroups, ParseGroups, ParseLast, Letter;
    var groups := PrintGroups(k[..30]);
    var last := [Letter(k[30] / 4), Letter(k[30] % 4 * 16 + k[31] / 16), Letter(k[31] % 16 * 4 + low), '='];
    GroupsReadBack(k[..30]);
    LastReadsBack(k[30], k[31], low);
    assert (groups + last)[..40] == groups && (groups + last)[40..] == last;
    assert k == k[..30] + [k[30], k[31]];
  }

  /** A printed key parses as itself. */
  lemma PrintReadsBack(k: Key)
    ensures Parse(Print(k)) == Some(k)
  {
    hide Parse, Print, Respelled;
    RespelledIsPrint(k);
    RespelledParses(k, 0);
  }

  /** Only after the letter 8 do the letters with other lowest bits not all come later. */
  lemma EarlierLetter(n: nat, low: nat)
    requires n < 16 && low < 4
    ensures Letter(4 * n + low) < Letter(4 * n) <==> n == 15 && low >= 2
  {
  }

  // ---------------------------------------------------------------- exactly what parses

  /** The letters are those of section 4 of RFC 4648, in its order, by their codes. */
  lemma LetterIs(n: nat)
    requires n < 64
    ensures n < 26 ==> Letter(n) as int == 65 + n
    ensures 26 <= n < 52 ==> Letter(n) as int == 97 + n - 26
    ensures 52 <= n < 62 ==> Letter(n) as int == 48 + n - 52
    ensures n == 62 ==> Letter(n) as int == 43
    ensures n == 63 ==> Letter(n) as int == 47
  {
  }

  lemma SextetIsLetter(c: char)
    requires Sextet(c).Some?
    ensures Letter(Sextet(c).value) == c
  {
  }

  lemma Ungrouped(a: nat, b: nat, c: nat, d: nat)
    requires a < 64 && b < 64 && c < 64 && d < 64
    ensures (a * 4 + b / 16) / 4 == a && (a * 4 + b / 16) % 4 * 16 + (b % 16 * 16 + c / 4) / 16 == b
    ensures (b % 16 * 16 + c / 4) % 16 * 4 + (c % 4 * 64 + d) / 64 == c && (c % 4 * 64 + d) % 64 == d
  {
  }

  lemma GroupIsPrinted(s: string)
    requires |s| == 4 && ParseGroup(s).Some?
    ensures |ParseGroup(s).value| == 3
    ensures var b := ParseGroup(s).value; PrintGroup(b[0], b[1], b[2]) == s
  {
    hide Letter, Sextet;
    SextetIsLetter(s[0]);
    SextetIsLetter(s[1]);
    SextetIsLetter(s[2]);
    SextetIsLetter(s[3]);
    Ungrouped(Sextet(s[0]).value, Sextet(s[1]).value, Sextet(s[2]).value, Sextet(s[3]).value);
  }

  lemma {:induction false} GroupsArePrinted(s: string)
    requires |s| % 4 == 0 && ParseGroups(s).Some?
    ensures |ParseGroups(s).value| % 3 == 0 && PrintGroups(ParseGroups(s).value) == s
    decreases |s|
  {
    hide PrintGroup, ParseGroup;
    if s != "" {
      GroupIsPrinted(s[..4]);
      GroupsArePrinted(s[4..]);
      var first, rest := ParseGroup(s[..4]).value, ParseGroups(s[4..]).value;
      assert (first + rest)[3..] == rest;
      assert s == s[..4] + s[4..];
    }
  }

  lemma LastIsPrinted(s: string) returns (low: nat)
    requires |s| == 4 && ParseLast(s).Some?
    ensures low < 4 && |ParseLast(s).value| == 2
    ensures var b := ParseLast(s).value;
            s == [Letter(b[0] / 4), Letter(b[0] % 4 * 16 + b[1] / 16), Letter(b[1] % 16 * 4 + low), '=']
  {
    hide Letter, Sextet;
    SextetIsLetter(s[0]);
    SextetIsLetter(s[1]);
    SextetIsLetter(s[2]);
    low := Sextet(s[2]).value % 4;
  }

  /** A string parses as a key if and only if it is one of the four ways to write it. */
  lemma ParsesExactly(s: string, k: Key)
    ensures Parse(s) == Some(k) <==> exists low: nat :: low < 4 && s == Respelled(k, low)
  {
    hide PrintGroups, ParseGroups, ParseLast, Letter, Respelled;
    if Parse(s) == Some(k) {
      GroupsArePrinted(s[..40]);
      var low := LastIsPrinted(s[40..]);
      var groups, last := ParseGroups(s[..40]).value, ParseLast(s[40..]).value;
      assert k[..30] == groups && k[30] == last[0] && k[31] == last[1];
      assert s == s[..40] + s[40..];
      RespelledIs(k, low);
      assert s == Respelled(k, low);
    }
    if low: nat :| low < 4 && s == Respelled(k, low) {
      RespelledParses(k, low);
    }
  }

  lemma RespelledIs(k: Key, low: nat)
    requires low < 4
    ensures Respelled(k, low) == PrintGroups(k[..30]) +
              [Letter(k[30] / 4), Letter(k[30] % 4 * 16 + k[31] / 16), Letter(k[31] % 16 * 4 + low), '=']
  {
  }
}
