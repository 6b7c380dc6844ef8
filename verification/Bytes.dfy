/** Go strings as byte sequences: each `char` stands for one byte. */
module Bytes {

  predicate AsciiSpace(c: char) {
    c == ' ' || '\t' <= c <= '\r'
  }

  /** The two-byte spaces, U+0085 and U+00A0, in UTF-8. */
  predicate TwoByteSpace(a: char, b: char) {
    a == '\U{C2}' && (b == '\U{85}' || b == '\U{A0}')
  }

  /** The three-byte spaces: U+1680, U+2000 to U+200A, U+2028, U+2029, U+202F, U+205F, U+3000. */
  predicate ThreeByteSpace(a: char, b: char, c: char) {
    || (a == '\U{E1}' && b == '\U{9A}' && c == '\U{80}')
    || (a == '\U{E2}' && b == '\U{80}' && ('\U{80}' <= c <= '\U{8A}' || c in {'\U{A8}', '\U{A9}', '\U{AF}'}))
    || (a == '\U{E2}' && b == '\U{81}' && c == '\U{9F}')
    || (a == '\U{E3}' && b == '\U{80}' && c == '\U{80}')
  }

  /** How many bytes the white space rune at the start takes; none is 0. */
  function LeadingSpace(s: string): (n: nat)
    ensures n <= |s|
  {
    if |s| >= 1 && AsciiSpace(s[0]) then 1
    else if |s| >= 2 && TwoByteSpace(s[0], s[1]) then 2
    else if |s| >= 3 && ThreeByteSpace(s[0], s[1], s[2]) then 3
    else 0
  }

  function TrailingSpace(s: string): (n: nat)
    ensures n <= |s|
  {
    var k := |s|;
    if k >= 1 && AsciiSpace(s[k - 1]) then 1
    else if k >= 2 && TwoByteSpace(s[k - 2], s[k - 1]) then 2
    else if k >= 3 && ThreeByteSpace(s[k - 3], s[k - 2], s[k - 1]) then 3
    else 0
  }

  function TrimLeft(s: string): (r: string)
    ensures LeadingSpace(r) == 0 && |r| <= |s|
    decreases |s|
  {
    var n := LeadingSpace(s);
    if n == 0 then s else TrimLeft(s[n..])
  }

  function TrimRight(s: string): (r: string)
    ensures TrailingSpace(r) == 0 && r <= s
    decreases |s|
  {
    var n := TrailingSpace(s);
    if n == 0 then s else TrimRight(s[..|s| - n])
  }

  /** `strings.TrimSpace`. */
  function Trim(s: string): (r: string)
    ensures LeadingSpace(r) == 0 && TrailingSpace(r) == 0
  {
    var u := TrimLeft(s);
    PrefixLeading(TrimRight(u), u);
    TrimRight(u)
  }

  lemma PrefixLeading(p: string, s: string)
    requires p <= s && LeadingSpace(s) == 0
    ensures LeadingSpace(p) == 0
  {
    assert forall i :: 0 <= i < |p| ==> p[i] == s[i];
  }

  lemma TrimmedIsFixed(s: string)
    requires LeadingSpace(s) == 0 && TrailingSpace(s) == 0
    ensures Trim(s) == s
  {
  }

  /** Bytes that are nothing but white space runes. */
  predicate SpacesFromLeft(p: string)
    decreases |p|
  {
    p == "" || (LeadingSpace(p) > 0 && SpacesFromLeft(p[LeadingSpace(p)..]))
  }

  predicate SpacesFromRight(p: string)
    decreases |p|
  {
    p == "" || (TrailingSpace(p) > 0 && SpacesFromRight(p[..|p| - TrailingSpace(p)]))
  }

  lemma {:induction false} LeftSpaces(s: string) returns (a: string)
    ensures s == a + TrimLeft(s) && SpacesFromLeft(a)
    decreases |s|
  {
    hide LeadingSpace, SpacesFromLeft;
    var n := LeadingSpace(s);
    if n == 0 {
      NoSpaces();
      a := "";
    } else {
      var rest := LeftSpaces(s[n..]);
      a := s[..n] + rest;
      assert s == a + TrimLeft(s[n..]) by { assert s == s[..n] + s[n..]; }
      SameLeading(s, a, TrimLeft(s[n..]));
      OneMoreFromLeft(a, rest);
    }
  }

  lemma NoSpaces()
    ensures SpacesFromLeft("") && SpacesFromRight("")
  {
  }

  /** Which rune leads is told by the bytes that it takes. */
  lemma SameLeading(s: string, a: string, back: string)
    requires s == a + back && 0 < LeadingSpace(s) <= |a|
    ensures LeadingSpace(a) == LeadingSpace(s)
  {
    assert forall i :: 0 <= i < |a| ==> a[i] == s[i];
  }

  lemma OneMoreFromLeft(a: string, rest: string)
    requires LeadingSpace(a) > 0 && a[LeadingSpace(a)..] == rest && SpacesFromLeft(rest)
    ensures SpacesFromLeft(a)
  {
    hide LeadingSpace;
  }

  lemma {:induction false} RightSpaces(s: string) returns (b: string)
    ensures s == TrimRight(s) + b && SpacesFromRight(b)
    decreases |s|
  {
    hide TrailingSpace, SpacesFromRight;
    var n := TrailingSpace(s);
    if n == 0 {
      NoSpaces();
      b := "";
    } else {
      var k := |s| - n;
      var rest := RightSpaces(s[..k]);
      b := rest + s[k..];
      assert s == TrimRight(s[..k]) + b by { assert s == s[..k] + s[k..]; }
      SameTrailing(s, TrimRight(s[..k]), b);
      OneMoreFromRight(b, rest);
    }
  }

  /** Which rune trails is told by the bytes that it takes. */
  lemma SameTrailing(s: string, front: string, b: string)
    requires s == front + b && 0 < TrailingSpace(s) <= |b|
    ensures TrailingSpace(b) == TrailingSpace(s)
  {
    assert forall i :: 0 <= i < |b| ==> b[i] == s[|front| + i];
  }

  lemma OneMoreFromRight(b: string, rest: string)
    requires TrailingSpace(b) > 0 && b[..|b| - TrailingSpace(b)] == rest && SpacesFromRight(rest)
    ensures SpacesFromRight(b)
  {
    hide TrailingSpace;
  }

  /** Trimming takes white space runes off both ends, and nothing else, until neither end is
      white space. */
  lemma TrimTakesSpaces(s: string) returns (a: string, b: string)
    ensures s == a + Trim(s) + b && SpacesFromLeft(a) && SpacesFromRight(b)
    ensures LeadingSpace(Trim(s)) == 0 && TrailingSpace(Trim(s)) == 0
  {
    a := LeftSpaces(s);
    b := RightSpaces(TrimLeft(s));
  }

  // ----- Decimal numbers

  function Digit(d: nat): char
    requires d < 10
  {
    "0123456789"[d]
  }

  function Decimal(n: nat): (r: string)
    ensures |r| >= 1
  {
    if n < 10 then [Digit(n)] else Decimal(n / 10) + [Digit(n % 10)]
  }

  function DigitValue(c: char): nat {
    if '0' <= c <= '9' then (c - '0') as nat else 0
  }

  /** The number that decimal digits stand for. */
  function DecimalValue(s: string): nat {
    if s == "" then 0 else 10 * DecimalValue(s[..|s| - 1]) + DigitValue(s[|s| - 1])
  }

  lemma {:induction false} DecimalTells(n: nat)
    ensures DecimalValue(Decimal(n)) == n
    ensures forall i :: 0 <= i < |Decimal(n)| ==> '0' <= Decimal(n)[i] <= '9'
  {
    assert forall d: nat :: d < 10 ==> DigitValue(Digit(d)) == d && '0' <= Digit(d) <= '9';
    if n < 10 {
      assert [Digit(n)][..0] == "";
    } else {
      DecimalTells(n / 10);
    }
  }

  function Pow10(k: nat): nat {
    if k == 0 then 1 else 10 * Pow10(k - 1)
  }

  lemma {:induction false} DecimalLength(n: nat, k: nat)
    requires k >= 1 && n < Pow10(k)
    ensures |Decimal(n)| <= k
    decreases k
  {
    if n >= 10 {
      assert k >= 2;
      DecimalLength(n / 10, k - 1);
    }
  }

  // ----- `compactToolResult`

  const OMITTED_BEFORE := "\n... [truncated "
  const OMITTED_AFTER := " bytes] ...\n"

  function Limit(limit: int): (l: nat)
    ensures l >= 200 && l >= limit
  {
    if limit < 200 then 200 else limit
  }

  function HeadSize(l: nat): nat {
    l / 3
  }

  function TailSize(l: nat): nat
    requires l >= 200
  {
    var tail := l - HeadSize(l) - 80;
    if tail < 80 then 80 else tail
  }

  function Marker(omitted: nat): string {
    OMITTED_BEFORE + Decimal(omitted) + OMITTED_AFTER
  }

  function Compact(s: string, limit: int): string {
    var t, l := Trim(s), Limit(limit);
    if |t| <= l then t
    else
      var head, tail := HeadSize(l), TailSize(l);
      t[..head] + Marker(|t| - head - tail) + t[|t| - tail..]
  }

  const MAX_INT: nat := 0x7FFF_FFFF_FFFF_FFFF

  lemma MarkerLength(omitted: nat)
    requires omitted <= MAX_INT
    ensures |Marker(omitted)| <= 28 + 19
  {
    assert Pow10(19) == 1_0000_0000_0000_0000_000 by {
      assert Pow10(5) == 100_000;
      assert Pow10(10) == 10_000_000_000;
      assert Pow10(15) == 1_000_000_000_000_000;
    }
    DecimalLength(omitted, 19);
  }

  /** Whatever the input and the limit, a compacted result is no longer than the limit (or 200)
      bytes, the marker and its number included. */
  lemma {:induction false} CompactFits(s: string, limit: int)
    requires |Trim(s)| <= MAX_INT
    ensures |Compact(s, limit)| <= Limit(limit)
  {
    var t, l := Trim(s), Limit(limit);
    SizesFit(l);
    hide HeadSize, TailSize, Trim, Marker;
    if |t| > l {
      var head, tail := HeadSize(l), TailSize(l);
      var marker := Marker(|t| - head - tail);
      MarkerLength(|t| - head - tail);
      hide Compact, Limit, Decimal;
      CompactLong(s, limit);
      assert |t[..head] + marker + t[|t| - tail..]| == head + |marker| + tail;
    }
  }

  lemma CompactLong(s: string, limit: int)
    requires |Trim(s)| > Limit(limit)
    ensures var t, head, tail := Trim(s), HeadSize(Limit(limit)), TailSize(Limit(limit));
            head + tail <= |t| && Compact(s, limit) == t[..head] + Marker(|t| - head - tail) + t[|t| - tail..]
  {
  }

  lemma SizesFit(l: nat)
    requires l >= 200
    ensures 3 <= HeadSize(l) && 3 <= TailSize(l) && HeadSize(l) + TailSize(l) + 28 + 19 <= l
  {
  }

  /** It keeps the beginning and the end of the trimmed input, and tells how much is left out
      between them. */
  lemma CompactKeepsEnds(s: string, limit: int)
    ensures var t, l, c := Trim(s), Limit(limit), Compact(s, limit);
            if |t| <= l then c == t
            else
              && HeadSize(l) + TailSize(l) <= l
              && t[..HeadSize(l)] <= c && |c| >= TailSize(l) && c[|c| - TailSize(l)..] == t[|t| - TailSize(l)..]
              && c[HeadSize(l)..|c| - TailSize(l)] == Marker(|t| - HeadSize(l) - TailSize(l))
  {
  }

  /** The limit is at least 200 bytes; a third of it is for the head, and all but 80 bytes of the
      rest for the tail, or 80 bytes if that is more. */
  lemma SizesExactly(limit: int)
    ensures Limit(limit) == (if limit < 200 then 200 else limit)
    ensures HeadSize(Limit(limit)) == Limit(limit) / 3
    ensures var rest := Limit(limit) - Limit(limit) / 3 - 80;
            TailSize(Limit(limit)) == if rest < 80 then 80 else rest
    ensures forall n: nat :: Marker(n) == "\n... [truncated " + Decimal(n) + " bytes] ...\n"
  {
  }

  /** Nothing becomes blank that was not. */
  lemma CompactBlank(s: string, limit: int)
    ensures Compact(s, limit) == "" <==> Trim(s) == ""
  {
  }

  /** Compacting again changes nothing. */
  lemma CompactIdempotent(s: string, limit: int)
    requires |Trim(s)| <= MAX_INT
    ensures Compact(Compact(s, limit), limit) == Compact(s, limit)
  {
    var t, l, c := Trim(s), Limit(limit), Compact(s, limit);
    CompactFits(s, limit);
    CompactKeepsEnds(s, limit);
    SizesFit(l);
    hide HeadSize, TailSize, Trim, Marker, Compact;
    if |t| > l {
      SameEnds(c, t, t[..HeadSize(l)], t[|t| - TailSize(l)..]);
    }
    TrimmedIsFixed(c);
    ShortIsKept(c, limit);
  }

  lemma ShortIsKept(s: string, limit: int)
    requires Trim(s) == s && |s| <= Limit(limit)
    ensures Compact(s, limit) == s
  {
  }

  /** White space at either end is told by three bytes. */
  lemma SameEnds(a: string, b: string, head: string, tail: string)
    requires |head| >= 3 && |tail| >= 3 && head <= a && head <= b
    requires |tail| <= |a| && a[|a| - |tail|..] == tail && |tail| <= |b| && b[|b| - |tail|..] == tail
    ensures LeadingSpace(a) == LeadingSpace(b) && TrailingSpace(a) == TrailingSpace(b)
  {
    assert a[0] == b[0] && a[1] == b[1] && a[2] == b[2];
    var n := |tail|;
    assert tail[n - 1] == a[|a| - 1] == b[|b| - 1];
    assert tail[n - 2] == a[|a| - 2] == b[|b| - 2];
    assert tail[n - 3] == a[|a| - 3] == b[|b| - 3];
  }
}
