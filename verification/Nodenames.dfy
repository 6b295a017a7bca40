/** From a machine's hostname to a node name, in the spirit of section 2.1 of RFC 1123. */
module Nodenames {
  import opened Results

  predicate IsAlnum(c: char) {
    'a' <= c <= 'z' || '0' <= c <= '9'
  }

  predicate IsTrimmed(c: char) {
    c == '-' || c == '.'
  }

  /** What becomes of one character; none of most. */
  function MapRune(c: char): Option<char> {
    if 'a' <= c <= 'z' then Some(c)
    else if 'A' <= c <= 'Z' then Some(c - 'A' + 'a')
    else if '0' <= c <= '9' then Some(c)
    else if c == '-' || c == '_' then Some('-')
    else if c == '.' then Some('.')
    else None
  }

  /** strings.Map. */
  function MapAll(s: string): string {
    if s == [] then []
    else (if MapRune(s[0]).Some? then [MapRune(s[0]).value] else []) + MapAll(s[1..])
  }

  function TrimLeft(s: string): string {
    if s != [] && IsTrimmed(s[0]) then TrimLeft(s[1..]) else s
  }

  function TrimRight(s: string): string {
    if s != [] && IsTrimmed(s[|s| - 1]) then TrimRight(s[..|s| - 1]) else s
  }

  function FromHostname(hostname: string): Option<string> {
    var nodename := TrimRight(TrimLeft(MapAll(hostname)));
    if nodename == "" then None else Some(nodename)
  }

  /** A node name: letters, digits, dashes and dots, with a letter or digit at both ends. */
  predicate IsNodename(s: string) {
    s != [] && IsAlnum(s[0]) && IsAlnum(s[|s| - 1]) && forall c | c in s :: IsAlnum(c) || IsTrimmed(c)
  }

  predicate Clean(s: string) {
    forall c | c in s :: IsAlnum(c) || IsTrimmed(c)
  }

  lemma {:induction false} MapIsClean(s: string)
    ensures Clean(MapAll(s))
  {
    if s != [] {
      MapIsClean(s[1..]);
    }
  }

  lemma {:induction false} MapKeepsClean(s: string)
    requires Clean(s)
    ensures MapAll(s) == s
  {
    if s != [] {
      assert s[0] in s;
      MapKeepsClean(s[1..]);
      assert s == [s[0]] + s[1..];
    }
  }

  /** Trimming drops only dashes and dots, from the two ends, and drops all it can. */
  lemma {:induction false} TrimLeftIs(s: string) returns (k: nat)
    ensures k <= |s| && TrimLeft(s) == s[k..] && forall i | 0 <= i < k :: IsTrimmed(s[i])
    ensures TrimLeft(s) != [] ==> !IsTrimmed(TrimLeft(s)[0])
  {
    if s != [] && IsTrimmed(s[0]) {
      k := TrimLeftIs(s[1..]);
      assert s[1..][k..] == s[k + 1..];
      assert forall i | 1 <= i < k + 1 :: s[i] == s[1..][i - 1];
      k := k + 1;
    } else {
      k := 0;
    }
  }

  lemma {:induction false} TrimRightIs(s: string) returns (k: nat)
    ensures k <= |s| && TrimRight(s) == s[..k] && forall i | k <= i < |s| :: IsTrimmed(s[i])
    ensures TrimRight(s) != [] ==> !IsTrimmed(TrimRight(s)[|TrimRight(s)| - 1])
    decreases |s|
  {
    if s != [] && IsTrimmed(s[|s| - 1]) {
      k := TrimRightIs(s[..|s| - 1]);
      assert s[..|s| - 1][..k] == s[..k];
      assert forall i | k <= i < |s| - 1 :: s[i] == s[..|s| - 1][i];
    } else {
      k := |s|;
    }
  }

  /** What comes out is a node name, and nothing comes out only if no letter or digit was left. */
  lemma FromHostnameIsNodename(hostname: string)
    ensures FromHostname(hostname).Some? ==> IsNodename(FromHostname(hostname).value)
    ensures FromHostname(hostname).Some? <==> exists c | c in MapAll(hostname) :: IsAlnum(c)
  {
    var s := MapAll(hostname);
    MapIsClean(hostname);
    var k := TrimLeftIs(s);
    var t := TrimLeft(s);
    var n := TrimRightIs(t);
    if FromHostname(hostname).Some? {
      assert t[..n][0] == t[0] && t[0] in s;
      assert forall c | c in t[..n] :: c in t && c in s;
      assert IsAlnum(t[0]) && IsAlnum(t[n - 1]);
    } else {
      forall i | 0 <= i < |s|
        ensures !IsAlnum(s[i])
      {
        assert IsTrimmed(s[i]);
      }
    }
  }

  /** A node name is left as it is, and so the conversion is idempotent. */
  lemma NodenameIsKept(nodename: string)
    requires IsNodename(nodename)
    ensures FromHostname(nodename) == Some(nodename)
  {
    MapKeepsClean(nodename);
  }

  lemma FromHostnameIsIdempotent(hostname: string)
    requires FromHostname(hostname).Some?
    ensures FromHostname(FromHostname(hostname).value) == FromHostname(hostname)
  {
    FromHostnameIsNodename(hostname);
    NodenameIsKept(FromHostname(hostname).value);
  }

  // ---------------------------------------------------------------- character by character

  /** What becomes of one character that is kept. */
  predicate IsMapped(c: char, d: char) {
    || (('a' <= c <= 'z' || '0' <= c <= '9' || c == '-' || c == '.') && d == c)
    || ('A' <= c <= 'Z' && d as int == c as int + 32)
    || (c == '_' && d == '-')
  }

  /** A letter in either case or a digit. */
  predicate IsLetterOrDigit(c: char) {
    'a' <= c <= 'z' || 'A' <= c <= 'Z' || '0' <= c <= '9'
  }

  /** t is s with every character mapped. */
  predicate AllMapped(s: string, t: string) {
    |t| == |s| && forall i | 0 <= i < |s| :: IsMapped(s[i], t[i])
  }

  /** The character is not one of a node name. */
  predicate IsDropped(c: char) {
    !IsLetterOrDigit(c) && c != '-' && c != '.' && c != '_'
  }

  /** s without the characters that are dropped. */
  function WithoutDropped(s: string): string {
    if s == [] then [] else (if IsDropped(s[0]) then [] else [s[0]]) + WithoutDropped(s[1..])
  }

  lemma {:induction false} MapsEach(s: string)
    ensures AllMapped(WithoutDropped(s), MapAll(s))
  {
    if s != [] {
      MapsEach(s[1..]);
      if !IsDropped(s[0]) {
        assert MapRune(s[0]).Some? && IsMapped(s[0], MapRune(s[0]).value);
      } else {
        assert MapRune(s[0]).None?;
      }
    }
  }

  /**
   * For every hostname: the node name is, of what is left without the characters that are dropped, the
   * part from the first letter or digit to the last one, each character mapped.
   */
  lemma FromHostnameExactly(hostname: string, i: nat, j: nat)
    requires i <= j < |WithoutDropped(hostname)|
    requires IsLetterOrDigit(WithoutDropped(hostname)[i]) && IsLetterOrDigit(WithoutDropped(hostname)[j])
    requires forall k | 0 <= k < i || j < k < |WithoutDropped(hostname)| ::
              !IsLetterOrDigit(WithoutDropped(hostname)[k])
    ensures FromHostname(hostname).Some?
    ensures AllMapped(WithoutDropped(hostname)[i..j + 1], FromHostname(hostname).value)
  {
    hide TrimLeft, TrimRight, MapAll, WithoutDropped, Clean, AllMapped, IsLetterOrDigit;
    var s, kept := MapAll(hostname), WithoutDropped(hostname);
    MapIsClean(hostname);
    MapsEach(hostname);
    AlnumsStay(kept, s);
    var from := TrimLeftIs(s);
    var t := TrimLeft(s);
    AlnumIsKept(s, i);
    AlnumIsKept(s, j);
    LeftEnd(s, from, i);
    assert forall k | 0 <= k < |t| :: t[k] == s[i + k];
    var n := TrimRightIs(t);
    TailIsClean(s, i);
    RightEnd(t, n, j - i);
    assert t[..j - i + 1] == s[i..j + 1];
    SliceIsMapped(kept, s, i, j + 1);
  }

  lemma AlnumsStay(kept: string, s: string)
    requires AllMapped(kept, s)
    ensures |s| == |kept| && forall k | 0 <= k < |s| :: IsAlnum(s[k]) <==> IsLetterOrDigit(kept[k])
  {
    forall k | 0 <= k < |s|
      ensures IsAlnum(s[k]) <==> IsLetterOrDigit(kept[k])
    {
      assert IsMapped(kept[k], s[k]);
    }
  }

  lemma AlnumIsKept(s: string, i: nat)
    requires i < |s| && IsAlnum(s[i])
    ensures !IsTrimmed(s[i])
  {
  }

  lemma TailIsClean(s: string, i: nat)
    requires Clean(s) && i <= |s|
    ensures Clean(s[i..])
  {
    assert forall c | c in s[i..] :: c in s;
  }

  lemma SliceIsMapped(kept: string, s: string, i: nat, j: nat)
    requires AllMapped(kept, s) && i <= j <= |s|
    ensures AllMapped(kept[i..j], s[i..j])
  {
    forall k | 0 <= k < j - i
      ensures IsMapped(kept[i..j][k], s[i..j][k])
    {
      assert IsMapped(kept[i + k], s[i + k]);
    }
  }

  lemma LeftEnd(s: string, from: nat, i: nat)
    requires Clean(s) && from <= |s| && i < |s| && IsAlnum(s[i]) && forall k | 0 <= k < from :: IsTrimmed(s[k])
    requires forall k | 0 <= k < i :: !IsAlnum(s[k])
    requires from < |s| ==> !IsTrimmed(s[from])
    ensures from == i
  {
    assert from < |s| ==> s[from] in s;
  }

  lemma RightEnd(t: string, n: nat, j: nat)
    requires Clean(t) && n <= |t| && j < |t| && IsAlnum(t[j]) && forall k | n <= k < |t| :: IsTrimmed(t[k])
    requires forall k | j < k < |t| :: !IsAlnum(t[k])
    requires n > 0 ==> !IsTrimmed(t[n - 1])
    ensures n == j + 1
  {
    assert n > 0 ==> t[n - 1] in t;
  }

  // ---------------------------------------------------------------- the documented format

  /** [a-z0-9]([-a-z0-9]*[a-z0-9])? */
  predicate InFormat(s: string) {
    s != [] && IsAlnum(s[0]) && IsAlnum(s[|s| - 1]) && forall c | c in s :: IsAlnum(c) || c == '-'
  }

  /** A letter or digit, in either case. */
  predicate IsKept(c: char) {
    MapRune(c).Some? && IsAlnum(MapRune(c).value)
  }

  predicate HasKept(s: string) {
    exists j | 0 <= j < |s| :: IsKept(s[j])
  }

  /** A dot and, somewhere after it, a letter or digit. */
  predicate DotThenKept(s: string) {
    exists k | 0 <= k < |s| :: s[k] == '.' && HasKept(s[k + 1..])
  }

  /** A dot somewhere between two letters or digits. */
  predicate DotBetween(s: string) {
    exists i | 0 <= i < |s| :: IsKept(s[i]) && DotThenKept(s[i + 1..])
  }

  lemma HasKeptFirst(s: string)
    requires s != []
    ensures HasKept(s) <==> IsKept(s[0]) || HasKept(s[1..])
  {
    assert forall j | 0 < j < |s| :: s[j] == s[1..][j - 1];
  }

  lemma DotThenKeptFirst(s: string)
    requires s != []
    ensures DotThenKept(s) <==> (s[0] == '.' && HasKept(s[1..])) || DotThenKept(s[1..])
  {
    hide HasKept;
    var rest := s[1..];
    assert forall k | 0 < k < |s| :: s[k] == rest[k - 1] && s[k + 1..] == rest[k..];
    if DotThenKept(rest) {
      var k :| 0 <= k < |rest| && rest[k] == '.' && HasKept(rest[k + 1..]);
      assert s[k + 1] == '.' && s[k + 2..] == rest[k + 1..];
    }
  }

  lemma DotBetweenFirst(s: string)
    requires s != []
    ensures DotBetween(s) <==> (IsKept(s[0]) && DotThenKept(s[1..])) || DotBetween(s[1..])
  {
    hide DotThenKept, IsKept;
    var rest := s[1..];
    assert forall k | 0 < k < |s| :: s[k] == rest[k - 1] && s[k + 1..] == rest[k..];
    if DotBetween(rest) {
      var k :| 0 <= k < |rest| && IsKept(rest[k]) && DotThenKept(rest[k + 1..]);
      assert IsKept(s[k + 1]) && s[k + 2..] == rest[k + 1..];
    }
  }

  lemma MapFirst(s: string)
    requires s != []
    ensures MapRune(s[0]).None? ==> MapAll(s) == MapAll(s[1..])
    ensures MapRune(s[0]).Some? ==>
              MapAll(s) != [] && MapAll(s)[0] == MapRune(s[0]).value && MapAll(s)[1..] == MapAll(s[1..])
  {
    if MapRune(s[0]).None? {
      assert [] + MapAll(s[1..]) == MapAll(s[1..]);
    }
  }

  /** Mapping the characters leaves letters and digits, and dots, in their places among each other. */
  lemma {:induction false} MapKeepsDots(s: string)
    ensures HasKept(MapAll(s)) <==> HasKept(s)
    ensures DotThenKept(MapAll(s)) <==> DotThenKept(s)
    ensures DotBetween(MapAll(s)) <==> DotBetween(s)
  {
    hide HasKept, DotThenKept, DotBetween, MapAll;
    if s == [] {
      MapNone();
    } else {
      MapKeepsDots(s[1..]);
      MapFirst(s);
      HasKeptFirst(s);
      DotThenKeptFirst(s);
      DotBetweenFirst(s);
      if MapRune(s[0]).Some? {
        HasKeptFirst(MapAll(s));
        DotThenKeptFirst(MapAll(s));
        DotBetweenFirst(MapAll(s));
      }
    }
  }

  lemma MapNone()
    ensures MapAll([]) == []
  {
  }

  /** A dot between two letters or digits, by its place. */
  lemma DotBetweenAt(s: string, i: nat, k: nat, j: nat)
    requires i < k < j < |s| && IsKept(s[i]) && s[k] == '.' && IsKept(s[j])
    ensures DotBetween(s)
  {
    assert s[k + 1..][j - k - 1] == s[j];
    assert s[i + 1..][k - i - 1] == s[k] && s[i + 1..][k - i..] == s[k + 1..];
  }

  lemma PlaceOfDotThenKept(s: string) returns (k: nat, j: nat)
    requires DotThenKept(s)
    ensures k < j < |s| && s[k] == '.' && IsKept(s[j])
  {
    hide IsKept;
    k :| 0 <= k < |s| && s[k] == '.' && HasKept(s[k + 1..]);
    var m :| 0 <= m < |s[k + 1..]| && IsKept(s[k + 1..][m]);
    j := k + 1 + m;
    assert s[j] == s[k + 1..][m];
  }

  lemma PlaceOfDot(s: string) returns (i: nat, k: nat, j: nat)
    requires DotBetween(s)
    ensures i < k < j < |s| && IsKept(s[i]) && s[k] == '.' && IsKept(s[j])
  {
    hide IsKept, DotThenKept;
    i :| 0 <= i < |s| && IsKept(s[i]) && DotThenKept(s[i + 1..]);
    var l, m := PlaceOfDotThenKept(s[i + 1..]);
    k, j := i + 1 + l, i + 1 + m;
    assert s[k] == s[i + 1..][l] && s[j] == s[i + 1..][m];
  }

  /**
   * What is left of a clean string between its first and last letter or digit has a dot exactly if that
   * lies between.
   */
  lemma TrimmedDots(s: string, k: nat, n: nat)
    requires Clean(s) && k < n <= |s| && IsAlnum(s[k]) && IsAlnum(s[n - 1])
    requires forall i | 0 <= i < k || n <= i < |s| :: IsTrimmed(s[i])
    ensures InFormat(s[k..n]) <==> !DotBetween(s)
  {
    hide DotBetween;
    var t := s[k..n];
    assert t[0] == s[k] && t[|t| - 1] == s[n - 1];
    assert forall c | c in t :: c in s;
    if DotBetween(s) {
      var i, d, j := PlaceOfDot(s);
      assert s[i] in s && s[j] in s;
      assert IsAlnum(s[i]) && IsAlnum(s[j]);
      assert k <= i && j < n;
      assert t[d - k] == '.' && t[d - k] in t;
    }
    if !InFormat(t) {
      var c :| c in t && !IsAlnum(c) && c != '-';
      var d :| 0 <= d < |t| && t[d] == c;
      DotBetweenAt(s, k, k + d, n - 1);
    }
  }

  /**
   * The node name has the documented format, of letters, digits and dashes, if and only if the
   * hostname has no dot between two letters or digits.
   */
  lemma FormatExactly(hostname: string)
    requires FromHostname(hostname).Some?
    ensures InFormat(FromHostname(hostname).value) <==> !DotBetween(hostname)
  {
    hide DotBetween, InFormat, TrimLeft, TrimRight, MapAll;
    var s := MapAll(hostname);
    MapIsClean(hostname);
    MapKeepsDots(hostname);
    var k := TrimLeftIs(s);
    var t := TrimLeft(s);
    var n := TrimRightIs(t);
    assert t[..n] == s[k..k + n];
    assert forall i | 0 <= i < |t| :: t[i] == s[k + i];
    assert s[k] in s && s[k + n - 1] in s;
    TrimmedDots(s, k, k + n);
  }

  /** A hostname whose node name does not have it. */
  lemma DotIsKept()
    ensures FromHostname("a.b") == Some("a.b") && !InFormat("a.b")
  {
    NodenameIsKept("a.b");
    assert "a.b"[1] == '.' && '.' in "a.b";
  }
}
