/**
 * The string helpers of the app: JavaScript's `String.prototype.trim`, the
 * decimal rendering of integers, the `mm:ss` clock text (`formatMMSS`) and
 * HTML escaping (`escapeHtml`).
 */
module Text {
  import opened Basics

  // ---------------------------------------------------------------------
  // trim
  // ---------------------------------------------------------------------

  /**
   * The characters `trim` strips: ECMAScript WhiteSpace (tab, vertical tab,
   * form feed, the byte order mark and every Zs space separator) and
   * LineTerminator (line feed, carriage return, U+2028, U+2029).
   */
  predicate IsWhitespace(c: char) {
    c == '\t' || c == '\n' || c == '\U{000B}' || c == '\U{000C}' || c == '\r'
    || c == ' ' || c == '\U{00A0}' || c == '\U{1680}'
    || ('\U{2000}' <= c <= '\U{200A}')
    || c == '\U{2028}' || c == '\U{2029}' || c == '\U{202F}' || c == '\U{205F}'
    || c == '\U{3000}' || c == '\U{FEFF}'
  }

  predicate AllWhitespace(s: string) {
    forall i :: 0 <= i < |s| ==> IsWhitespace(s[i])
  }

  /** Every character of `s` from index `lo` up to (not including) `hi` is whitespace. */
  predicate WhitespaceBetween(s: string, lo: int, hi: int)
    requires 0 <= lo && hi <= |s|
  {
    forall p :: lo <= p < hi ==> IsWhitespace(s[p])
  }

  /** The first index at or after `from` whose character is not whitespace, or `|s|` if there is none. */
  function SkipLeading(s: string, from: nat): (i: nat)
    requires from <= |s|
    ensures from <= i <= |s|
    ensures WhitespaceBetween(s, from, i)
    ensures i < |s| ==> !IsWhitespace(s[i])
    decreases |s| - from
  {
    if from < |s| && IsWhitespace(s[from]) then SkipLeading(s, from + 1) else from
  }

  /** The end of `s[lo..hi]` once its whitespace suffix is dropped. */
  function SkipTrailing(s: string, lo: nat, hi: nat): (k: nat)
    requires lo <= hi <= |s|
    ensures lo <= k <= hi
    ensures WhitespaceBetween(s, k, hi)
    ensures k > lo ==> !IsWhitespace(s[k - 1])
    decreases hi - lo
  {
    if lo < hi && IsWhitespace(s[hi - 1]) then SkipTrailing(s, lo, hi - 1) else hi
  }

  /**
   * `s.trim()`: `s` without its leading and trailing whitespace. The result
   * is a slice of `s` with only whitespace before and after it, and it
   * neither starts nor ends with whitespace, which makes it the largest such
   * slice.
   */
  function Trim(s: string): (r: string)
    ensures exists i, j :: 0 <= i <= j <= |s| && r == s[i..j] && WhitespaceBetween(s, 0, i) && WhitespaceBetween(s, j, |s|)
    ensures r != [] ==> !IsWhitespace(r[0]) && !IsWhitespace(r[|r| - 1])
    ensures r == [] <==> AllWhitespace(s)
  {
    var i := SkipLeading(s, 0);
    var k := SkipTrailing(s, i, |s|);
    s[i..k]
  }

  /** Trimming twice is trimming once. */
  lemma TrimIdempotent(s: string)
    ensures Trim(Trim(s)) == Trim(s)
  {
    var r := Trim(s);
    if r != [] {
      assert SkipLeading(r, 0) == 0;
      assert SkipTrailing(r, 0, |r|) == |r|;
      assert r[0..|r|] == r;
    }
  }

  // ---------------------------------------------------------------------
  // Decimal numerals (Number.prototype.toString on integers)
  // ---------------------------------------------------------------------

  predicate IsDigit(c: char) {
    '0' <= c <= '9'
  }

  predicate AllDigits(s: string) {
    forall i :: 0 <= i < |s| ==> IsDigit(s[i])
  }

  function DigitValue(c: char): nat
    requires IsDigit(c)
  {
    (c as int) - ('0' as int)
  }

  function DigitChar(d: nat): (c: char)
    requires d < 10
    ensures IsDigit(c) && DigitValue(c) == d
  {
    (('0' as int) + d) as char
  }

  /** The number a string of decimal digits denotes (leading zeros allowed). */
  function DecimalValue(s: string): nat
    requires AllDigits(s)
    decreases |s|
  {
    if s == [] then 0
    else 10 * DecimalValue(s[..|s| - 1]) + DigitValue(s[|s| - 1])
  }

  /** The shortest decimal numeral of `n`: digits only, no leading zero. */
  function NatToDecimal(n: nat): (r: string)
    ensures r != [] && AllDigits(r) && DecimalValue(r) == n
    ensures |r| == 1 <==> n < 10
    ensures n < 100 ==> |r| <= 2
    ensures |r| > 1 ==> r[0] != '0'
    decreases n
  {
    if n < 10 then [DigitChar(n)]
    else
      var q, d := n / 10, n % 10;
      SplitLastDigit(n);
      var front := NatToDecimal(q);
      var r := front + [DigitChar(d)];
      assert r[..|r| - 1] == front;
      r
  }

  /** The last decimal digit of a number of two or more digits, and what is left in front of it. */
  lemma SplitLastDigit(n: nat)
    requires n >= 10
    ensures n == 10 * (n / 10) + n % 10 && 0 <= n % 10 < 10
    ensures 1 <= n / 10 < n
    ensures n < 100 ==> n / 10 < 10
  {
  }

  /** `String(n)` for an integer `n`: a minus sign, then the numeral of `|n|`. */
  function IntToString(n: int): (r: string)
    ensures n >= 0 ==> AllDigits(r) && DecimalValue(r) == n
    ensures n < 0 ==> r != [] && r[0] == '-' && AllDigits(r[1..]) && DecimalValue(r[1..]) == -n
    ensures r != []
    ensures n >= 0 && |r| > 1 ==> r[0] != '0'
    ensures n < 0 && |r| > 2 ==> r[1] != '0'
  {
    if n < 0 then
      var r := "-" + NatToDecimal(-n);
      assert r[1..] == NatToDecimal(-n);
      r
    else NatToDecimal(n)
  }

  /** `t.padStart(2, '0')`: `t` with zeros in front until it is two characters long. */
  function PadStart2(t: string): (r: string)
    ensures |r| == if |t| < 2 then 2 else |t|
    ensures r[|r| - |t|..] == t
    ensures forall i :: 0 <= i < |r| - |t| ==> r[i] == '0'
  {
    if |t| < 2 then seq(2 - |t|, _ => '0') + t else t
  }

  /** Leading zeros do not change the value of a numeral. */
  lemma {:induction false} LeadingZeros(z: string, t: string)
    requires forall i :: 0 <= i < |z| ==> z[i] == '0'
    requires AllDigits(t)
    ensures AllDigits(z + t) && DecimalValue(z + t) == DecimalValue(t)
    decreases |t|
  {
    if t == [] {
      assert z + t == z;
      AllZeros(z);
    } else {
      var zt := z + t;
      var init := t[..|t| - 1];
      assert zt[..|zt| - 1] == z + init;
      LeadingZeros(z, init);
    }
  }

  lemma {:induction false} AllZeros(z: string)
    requires forall i :: 0 <= i < |z| ==> z[i] == '0'
    ensures AllDigits(z) && DecimalValue(z) == 0
    decreases |z|
  {
    if z != [] {
      AllZeros(z[..|z| - 1]);
    }
  }

  /** Padding a numeral keeps it a numeral of the same value. */
  lemma PadKeepsValue(t: string)
    requires AllDigits(t)
    ensures AllDigits(PadStart2(t)) && DecimalValue(PadStart2(t)) == DecimalValue(t)
  {
    var r := PadStart2(t);
    var z := r[..|r| - |t|];
    assert r == z + t;
    LeadingZeros(z, t);
  }

  // ---------------------------------------------------------------------
  // formatMMSS
  // ---------------------------------------------------------------------

  /** `Math.floor(s / 60)`: the whole minutes in `s` seconds, rounded down. */
  function Minutes(s: int): (q: int)
    ensures 60 * q <= s < 60 * q + 60
  {
    s / 60
  }

  /**
   * JavaScript's `s % 60`: the remainder of a division truncated toward zero,
   * so it carries the sign of `s`. It is `s` less 60 times the truncated
   * quotient (`Minutes` of `s`, or minus `Minutes` of `-s` when `s` is
   * negative).
   */
  function SecondsRem(s: int): (r: int)
    ensures -60 < r < 60
    ensures s >= 0 ==> r >= 0 && r == s - 60 * Minutes(s)
    ensures s < 0 ==> r <= 0 && r == s + 60 * Minutes(-s)
  {
    if s >= 0 then s % 60 else -((-s) % 60)
  }

  /** A text `...mm:ss`: at least two minute digits, a colon, two second digits. */
  predicate IsClockText(r: string) {
    |r| >= 5 && r[|r| - 3] == ':' && AllDigits(r[..|r| - 3]) && AllDigits(r[|r| - 2..])
  }

  /** The number of seconds a clock text denotes. */
  function ClockSeconds(r: string): int
    requires IsClockText(r)
  {
    60 * DecimalValue(r[..|r| - 3]) + DecimalValue(r[|r| - 2..])
  }

  /**
   * `formatMMSS(s)`: whole minutes, a colon and the remaining seconds, each
   * zero-padded to two digits. Its properties are stated by
   * `FormatMMSSReadsBack` and `FormatMMSSNegative`.
   */
  function FormatMMSS(s: int): string {
    PadStart2(IntToString(Minutes(s))) + ":" + PadStart2(IntToString(SecondsRem(s)))
  }

  /**
   * For a non-negative count the clock text reads back as exactly `s`
   * seconds, its seconds field is below 60, and it is five characters long
   * below 100 minutes. A minutes field longer than the two-digit pad has no
   * leading zero.
   */
  lemma FormatMMSSReadsBack(s: int)
    requires s >= 0
    ensures IsClockText(FormatMMSS(s))
    ensures ClockSeconds(FormatMMSS(s)) == s
    ensures DecimalValue(FormatMMSS(s)[|FormatMMSS(s)| - 2..]) < 60
    ensures s < 6000 ==> |FormatMMSS(s)| == 5
    ensures |FormatMMSS(s)| > 5 ==> FormatMMSS(s)[0] != '0'
  {
    var q, rem := Minutes(s), SecondsRem(s);
    assert 0 <= q && 0 <= rem < 60 && s == 60 * q + rem;
    var m := PadStart2(IntToString(q));
    var sec := PadStart2(IntToString(rem));
    PadKeepsValue(IntToString(q));
    PadKeepsValue(IntToString(rem));
    assert |sec| == 2;
    assert s < 6000 ==> q < 100;
    ClockJoin(m, sec);
  }

  /** A negative count renders with a leading minus sign, and is still at least five characters long. */
  lemma FormatMMSSNegative(s: int)
    requires s < 0
    ensures |FormatMMSS(s)| >= 5 && FormatMMSS(s)[0] == '-'
  {
    var q := Minutes(s);
    var t := IntToString(q);
    assert t[0] == '-' && |t| >= 2;
    var m := PadStart2(t);
    assert m == t;
    var sec := PadStart2(IntToString(SecondsRem(s)));
    var r := m + ":" + sec;
    assert r[0] == m[0];
  }

  /** Joining numerals for the minutes and a two-digit seconds field with a colon gives a clock text of their value. */
  lemma ClockJoin(m: string, sec: string)
    requires |m| >= 2 && AllDigits(m) && |sec| == 2 && AllDigits(sec)
    ensures var r := m + ":" + sec;
            IsClockText(r) && ClockSeconds(r) == 60 * DecimalValue(m) + DecimalValue(sec)
            && r[|r| - 2..] == sec && |r| == |m| + 3
  {
    var r := m + ":" + sec;
    assert r[..|r| - 3] == m && r[|r| - 2..] == sec && r[|r| - 3] == ':' by {
      assert r == m + [':'] + sec;
    }
    assert IsClockText(r);
  }

  // ---------------------------------------------------------------------
  // escapeHtml
  // ---------------------------------------------------------------------

  /** `s.replaceAll(c, by)` for a one-character pattern `c`. */
  function ReplaceAll(s: string, c: char, rep: string): string
    decreases |s|
  {
    if s == [] then [] else (if s[0] == c then rep else [s[0]]) + ReplaceAll(s[1..], c, rep)
  }

  /**
   * `escapeHtml(s)`: `&` becomes `&amp;`, then `<` becomes `&lt;`, then `>`
   * becomes `&gt;`. The result holds no angle bracket.
   */
  function EscapeHtml(s: string): (r: string)
    ensures '<' !in r && '>' !in r
  {
    var amp := ReplaceAll(s, '&', "&amp;");
    var lt := ReplaceAll(amp, '<', "&lt;");
    ReplaceAllAvoids(amp, '<', "&lt;", '<');
    ReplaceAllAvoids(lt, '>', "&gt;", '<');
    ReplaceAllAvoids(lt, '>', "&gt;", '>');
    ReplaceAll(lt, '>', "&gt;")
  }

  /** A character in neither the replacement nor (unless it is the one replaced) the input is not in the output. */
  lemma {:induction false} ReplaceAllAvoids(s: string, c: char, rep: string, x: char)
    requires x !in rep && (x == c || x !in s)
    ensures x !in ReplaceAll(s, c, rep)
    decreases |s|
  {
    if s != [] {
      assert x == c || x !in s[1..];
      ReplaceAllAvoids(s[1..], c, rep, x);
    }
  }

  /** A text without the pattern character comes back unchanged. */
  lemma {:induction false} ReplaceAllAbsent(s: string, c: char, rep: string)
    requires c !in s
    ensures ReplaceAll(s, c, rep) == s
    decreases |s|
  {
    if s != [] {
      assert c !in s[1..];
      ReplaceAllAbsent(s[1..], c, rep);
      assert s == [s[0]] + s[1..];
    }
  }

  /** The entity one character turns into. */
  function EscapeChar(x: char): string {
    if x == '&' then "&amp;"
    else if x == '<' then "&lt;"
    else if x == '>' then "&gt;"
    else [x]
  }

  /** Escaping every character on its own: the reference for `EscapeHtml`. */
  function EscapeEach(s: string): string
    decreases |s|
  {
    if s == [] then [] else EscapeChar(s[0]) + EscapeEach(s[1..])
  }

  /** Decoding `&lt;`, `&gt;` and `&amp;`, left to right; every other character stands for itself. */
  function Unescape(t: string): string
    decreases |t|
  {
    if t == [] then []
    else if |t| >= 4 && t[..4] == "&lt;" then ['<'] + Unescape(t[4..])
    else if |t| >= 4 && t[..4] == "&gt;" then ['>'] + Unescape(t[4..])
    else if |t| >= 5 && t[..5] == "&amp;" then ['&'] + Unescape(t[5..])
    else [t[0]] + Unescape(t[1..])
  }

  lemma {:induction false} ReplaceAllConcat(a: string, b: string, c: char, rep: string)
    ensures ReplaceAll(a + b, c, rep) == ReplaceAll(a, c, rep) + ReplaceAll(b, c, rep)
    decreases |a|
  {
    if a == [] {
      assert a + b == b;
    } else {
      assert (a + b)[1..] == a[1..] + b;
      ReplaceAllConcat(a[1..], b, c, rep);
    }
  }

  /** Escaping a single character gives its entity, because `&` is replaced first. */
  lemma EscapeOne(x: char)
    ensures EscapeHtml([x]) == EscapeChar(x)
  {
    if x == '&' {
      EscapeAmpersand();
    } else if x == '<' {
      EscapeLessThan();
    } else if x == '>' {
      EscapeGreaterThan();
    } else {
      ReplaceAllSingle(x, '&', "&amp;");
      ReplaceAllSingle(x, '<', "&lt;");
      ReplaceAllSingle(x, '>', "&gt;");
    }
  }

  lemma EscapeAmpersand()
    ensures EscapeHtml("&") == "&amp;"
  {
    var amp := ReplaceAll("&", '&', "&amp;");
    assert amp == "&amp;" by {
      ReplaceAllSingle('&', '&', "&amp;");
    }
    var lt := ReplaceAll(amp, '<', "&lt;");
    assert lt == "&amp;" by {
      ReplaceAllAbsent("&amp;", '<', "&lt;");
    }
    assert ReplaceAll(lt, '>', "&gt;") == "&amp;" by {
      ReplaceAllAbsent("&amp;", '>', "&gt;");
    }
  }

  lemma EscapeLessThan()
    ensures EscapeHtml("<") == "&lt;"
  {
    ReplaceAllSingle('<', '&', "&amp;");
    ReplaceAllSingle('<', '<', "&lt;");
    ReplaceAllAbsent("&lt;", '>', "&gt;");
  }

  lemma EscapeGreaterThan()
    ensures EscapeHtml(">") == "&gt;"
  {
    ReplaceAllSingle('>', '&', "&amp;");
    ReplaceAllSingle('>', '<', "&lt;");
    ReplaceAllSingle('>', '>', "&gt;");
  }

  lemma ReplaceAllSingle(x: char, c: char, rep: string)
    ensures ReplaceAll([x], c, rep) == if x == c then rep else [x]
  {
    assert [x][1..] == [];
    assert ReplaceAll([], c, rep) == [];
  }

  /**
   * The three sequential passes of `escapeHtml` escape each character
   * independently: no entity produced by a pass is touched by a later one.
   */
  lemma {:induction false} EscapeHtmlIsPerCharacter(s: string)
    ensures EscapeHtml(s) == EscapeEach(s)
    decreases |s|
  {
    if s != [] {
      var x, rest := s[0], s[1..];
      assert s == [x] + rest;
      ReplaceAllConcat([x], rest, '&', "&amp;");
      var a1, b1 := ReplaceAll([x], '&', "&amp;"), ReplaceAll(rest, '&', "&amp;");
      ReplaceAllConcat(a1, b1, '<', "&lt;");
      var a2, b2 := ReplaceAll(a1, '<', "&lt;"), ReplaceAll(b1, '<', "&lt;");
      ReplaceAllConcat(a2, b2, '>', "&gt;");
      EscapeOne(x);
      EscapeHtmlIsPerCharacter(rest);
    }
  }

  lemma {:induction false} UnescapeEach(s: string)
    ensures Unescape(EscapeEach(s)) == s
    decreases |s|
  {
    if s != [] {
      var x, rest := s[0], s[1..];
      var tail := EscapeEach(rest);
      var t := EscapeChar(x) + tail;
      assert EscapeEach(s) == t;
      UnescapeEach(rest);
      if x == '&' {
        assert t[..4] == "&amp" && t[..5] == "&amp;" && t[5..] == tail;
      } else if x == '<' {
        assert t[..4] == "&lt;" && t[4..] == tail;
      } else if x == '>' {
        assert t[..4] == "&gt;" && t[4..] == tail;
      } else {
        assert t[0] == x && t[1..] == tail;
        assert |t| >= 4 ==> t[..4][0] == x;
        assert |t| >= 5 ==> t[..5][0] == x;
      }
      assert s == [x] + rest;
    }
  }

  /** Un-escaping `&lt;`, `&gt;` and `&amp;` restores the original text exactly. */
  lemma EscapeRoundTrip(s: string)
    ensures Unescape(EscapeHtml(s)) == s
  {
    EscapeHtmlIsPerCharacter(s);
    UnescapeEach(s);
  }

  /** Escaping never shortens a text and keeps every character other than `&`, `<`, `>`. */
  lemma {:induction false} EscapeEachKeeps(s: string)
    ensures |EscapeEach(s)| >= |s|
    ensures forall x :: x in s && x != '&' && x != '<' && x != '>' ==> x in EscapeEach(s)
    decreases |s|
  {
    if s != [] {
      EscapeEachKeeps(s[1..]);
      assert s == [s[0]] + s[1..];
    }
  }
}
