/** The pieces of Go's strings, strconv, fmt and html/template packages that the content
    pipeline relies on. A Go string is modelled as its sequence of runes (Unicode code points);
    Dafny's `char` is a Unicode scalar value, so rune order and UTF-8 byte order agree. */
module Text {
  import opened Wrappers

  // ---------------------------------------------------------------- prefixes and occurrences

  /** strings.HasPrefix */
  predicate HasPrefix(s: string, p: string) {
    |p| <= |s| && s[..|p|] == p
  }

  /** strings.HasSuffix */
  predicate HasSuffix(s: string, p: string) {
    |p| <= |s| && s[|s| - |p|..] == p
  }

  /** strings.TrimSuffix: removes one trailing p, if there is one. */
  function TrimSuffix(s: string, p: string): (r: string)
    ensures HasSuffix(s, p) ==> r + p == s
    ensures !HasSuffix(s, p) ==> r == s
  {
    if HasSuffix(s, p) then
      assert s[..|s| - |p|] + s[|s| - |p|..] == s;
      s[..|s| - |p|]
    else s
  }

  /** pat occurs in s at index k. */
  predicate MatchAt(s: string, k: int, pat: string) {
    0 <= k && k + |pat| <= |s| && s[k..k + |pat|] == pat
  }

  /** strings.Contains */
  ghost predicate Contains(s: string, pat: string) {
    exists k :: MatchAt(s, k, pat)
  }

  /** Index of the first c in s, or |s| when there is none. */
  function IndexOf(s: string, c: char): (k: nat)
    ensures k <= |s|
    ensures forall i :: 0 <= i < k ==> s[i] != c
    ensures k < |s| ==> s[k] == c
  {
    if s == [] then 0
    else if s[0] == c then 0
    else 1 + IndexOf(s[1..], c)
  }

  // ---------------------------------------------------------------- strings.ReplaceAll(s, pat, "")

  /** strings.ReplaceAll(s, pat, ""): the occurrences of pat found by scanning left to right,
      each search resuming after the previous occurrence, are deleted. An empty pat deletes nothing. */
  function RemoveAll(s: string, pat: string): (r: string)
    ensures |r| <= |s|
    decreases |s|
  {
    if |pat| == 0 || |s| < |pat| then s
    else if s[..|pat|] == pat then RemoveAll(s[|pat|..], pat)
    else [s[0]] + RemoveAll(s[1..], pat)
  }

  /** A string without the pattern is left as it is. */
  lemma {:induction false} RemoveAllAbsent(s: string, pat: string)
    requires !Contains(s, pat)
    ensures RemoveAll(s, pat) == s
    decreases |s|
  {
    if |pat| != 0 && |s| >= |pat| {
      assert !MatchAt(s, 0, pat);
      forall k | MatchAt(s[1..], k, pat) ensures false {
        assert s[1..][k..k + |pat|] == s[k + 1..k + 1 + |pat|];
        assert MatchAt(s, k + 1, pat);
      }
      RemoveAllAbsent(s[1..], pat);
      assert s == [s[0]] + s[1..];
    }
  }

  /** A leading occurrence is deleted and the scan resumes right after it. */
  lemma RemoveAllLeading(pat: string, s: string)
    requires |pat| > 0
    ensures RemoveAll(pat + s, pat) == RemoveAll(s, pat)
  {
    assert (pat + s)[..|pat|] == pat;
    assert (pat + s)[|pat|..] == s;
  }

  /** A trailing occurrence that no earlier occurrence overlaps is deleted, and nothing else is. */
  lemma {:induction false} RemoveAllTrailing(t: string, pat: string)
    requires |pat| > 0
    requires forall k :: 0 <= k < |t| ==> !MatchAt(t + pat, k, pat)
    ensures RemoveAll(t + pat, pat) == t
    decreases |t|
  {
    if t == [] {
      assert t + pat == pat;
      assert pat[..|pat|] == pat && pat[|pat|..] == [];
    } else {
      assert !MatchAt(t + pat, 0, pat);
      assert (t + pat)[1..] == t[1..] + pat;
      forall k | 0 <= k < |t[1..]| ensures !MatchAt(t[1..] + pat, k, pat) {
        assert (t[1..] + pat)[k..k + |pat|] == (t + pat)[k + 1..k + 1 + |pat|];
        assert !MatchAt(t + pat, k + 1, pat);
      }
      RemoveAllTrailing(t[1..], pat);
      assert t == [t[0]] + t[1..];
    }
  }

  // ---------------------------------------------------------------- strings.TrimSpace

  /** unicode.IsSpace: the Latin-1 spaces and the other code points with the White_Space property. */
  predicate IsSpace(c: char) {
    c == '\t' || c == '\n' || c == '\U{000B}' || c == '\U{000C}' || c == '\r' || c == ' '
    || c == '\U{0085}' || c == '\U{00A0}' || c == '\U{1680}'
    || ('\U{2000}' <= c <= '\U{200A}')
    || c == '\U{2028}' || c == '\U{2029}' || c == '\U{202F}' || c == '\U{205F}' || c == '\U{3000}'
  }

  /** Number of white-space runes at the start of s. */
  function LeadingSpaces(s: string): (k: nat)
    ensures k <= |s|
    ensures forall i :: 0 <= i < k ==> IsSpace(s[i])
    ensures k < |s| ==> !IsSpace(s[k])
  {
    if s != [] && IsSpace(s[0]) then 1 + LeadingSpaces(s[1..]) else 0
  }

  /** Number of white-space runes at the end of s. */
  function TrailingSpaces(s: string): (k: nat)
    ensures k <= |s|
    ensures forall i :: |s| - k <= i < |s| ==> IsSpace(s[i])
    ensures k < |s| ==> !IsSpace(s[|s| - k - 1])
  {
    if s != [] && IsSpace(s[|s| - 1]) then 1 + TrailingSpaces(s[..|s| - 1]) else 0
  }

  /** The end of the window TrimSpace keeps. */
  function TrimEnd(s: string): (e: nat)
    ensures LeadingSpaces(s) <= e <= |s|
    ensures forall i :: e <= i < |s| ==> IsSpace(s[i])
    ensures LeadingSpaces(s) < e ==> !IsSpace(s[e - 1])
  {
    var lead := LeadingSpaces(s);
    var rest := s[lead..];
    var trail := TrailingSpaces(rest);
    assert forall i :: |s| - trail <= i < |s| ==> s[i] == rest[i - lead];
    |s| - trail
  }

  /** strings.TrimSpace: the result is the window of s that starts at its first non-space rune
      and ends at its last one; everything outside the window is white space. */
  function TrimSpace(s: string): (r: string)
    ensures r != [] ==> !IsSpace(r[0]) && !IsSpace(r[|r| - 1])
    ensures LeadingSpaces(s) + |r| <= |s|
    ensures r == s[LeadingSpaces(s)..LeadingSpaces(s) + |r|]
    ensures forall i :: 0 <= i < |s| && !(LeadingSpaces(s) <= i < LeadingSpaces(s) + |r|) ==> IsSpace(s[i])
  {
    s[LeadingSpaces(s)..TrimEnd(s)]
  }

  /** A string that starts and ends with a non-space rune is already trimmed. */
  lemma TrimSpaceKeeps(s: string)
    requires s != [] && !IsSpace(s[0]) && !IsSpace(s[|s| - 1])
    ensures TrimSpace(s) == s
  {
    assert LeadingSpaces(s) == 0;
    assert s[0..] == s;
    assert TrailingSpaces(s) == 0;
  }

  /** ... and one trailing newline is trimmed off it. */
  lemma TrimSpaceNewline(s: string)
    requires s != [] && !IsSpace(s[0]) && !IsSpace(s[|s| - 1])
    ensures TrimSpace(s + "\n") == s
  {
    var u := s + "\n";
    assert LeadingSpaces(u) == 0;
    assert u[0..] == u;
    assert u[..|u| - 1] == s;
    assert TrailingSpaces(s) == 0;
    assert TrailingSpaces(u) == 1;
  }

  /** Trimming twice is trimming once. */
  lemma TrimSpaceIdempotent(s: string)
    ensures TrimSpace(TrimSpace(s)) == TrimSpace(s)
  {
    var r := TrimSpace(s);
    if r != [] {
      assert LeadingSpaces(r) == 0;
      assert TrailingSpaces(r[0..]) == 0 by { assert r[0..] == r; }
      assert r[0..][..|r|] == r;
    }
  }

  // ---------------------------------------------------------------- fmt.Sprint and strconv.Atoi on int

  predicate IsDigit(c: char) {
    '0' <= c <= '9'
  }

  predicate AllDigits(s: string) {
    forall i :: 0 <= i < |s| ==> IsDigit(s[i])
  }

  function DigitChar(d: nat): (c: char)
    requires d < 10
    ensures IsDigit(c)
  {
    ('0' as int + d) as char
  }

  /** Decimal digits of n, most significant first, without leading zeros. */
  function NatToString(n: nat): (r: string)
    ensures |r| >= 1 && AllDigits(r)
    ensures (r[0] == '0') == (n == 0)
    decreases n
  {
    if n < 10 then [DigitChar(n)] else NatToString(n / 10) + [DigitChar(n % 10)]
  }

  /** fmt.Sprint of an int: an optional minus sign, then the decimal digits. */
  function IntToString(n: int): (r: string)
  {
    if n < 0 then "-" + NatToString(-n) else NatToString(n)
  }

  /** The number a string of decimal digits denotes. */
  function DigitsValue(s: string): nat
    requires AllDigits(s)
  {
    if s == [] then 0 else 10 * DigitsValue(s[..|s| - 1]) + (s[|s| - 1] as int - '0' as int)
  }

  lemma {:induction false} NatToStringValue(n: nat)
    ensures DigitsValue(NatToString(n)) == n
    decreases n
  {
    if n >= 10 {
      NatToStringValue(n / 10);
      var s := NatToString(n);
      assert s[..|s| - 1] == NatToString(n / 10);
    }
  }

  const MinInt64: int := -0x8000_0000_0000_0000
  const MaxInt64: int := 0x7fff_ffff_ffff_ffff

  /** strconv.Atoi on a 64-bit platform: an optional '+' or '-', then at least one decimal digit,
      and the value must fit in 64 bits; anything else is an error (None). */
  function Atoi(s: string): (r: Option<int>)
    ensures r.Some? ==> MinInt64 <= r.value <= MaxInt64
  {
    var neg := |s| > 0 && s[0] == '-';
    var body := if |s| > 0 && (s[0] == '+' || s[0] == '-') then s[1..] else s;
    if body == [] || !AllDigits(body) then None
    else
      var mag: int := DigitsValue(body);
      var v := if neg then -mag else mag;
      if MinInt64 <= v <= MaxInt64 then Some(v) else None
  }

  /** Parsing what fmt.Sprint printed gives the number back. */
  lemma IntToStringAtoi(n: int)
    requires MinInt64 <= n <= MaxInt64
    ensures Atoi(IntToString(n)) == Some(n)
  {
    var s := IntToString(n);
    if n < 0 {
      var digits := NatToString(-n);
      NatToStringValue(-n);
      assert s[0] == '-' && s[1..] == digits;
      assert DigitsValue(s[1..]) == -n;
    } else {
      var digits := NatToString(n);
      NatToStringValue(n);
      assert s == digits && s[0] != '-' && s[0] != '+';
    }
  }

  /** The decimal form holds only digits and a leading minus sign. */
  lemma IntToStringChars(n: int)
    ensures forall i :: 0 <= i < |IntToString(n)| ==> IsDigit(IntToString(n)[i]) || IntToString(n)[i] == '-'
  {
    var s := IntToString(n);
    if n < 0 {
      assert forall i :: 1 <= i < |s| ==> s[i] == NatToString(-n)[i - 1];
    }
  }

  /** Searching a concatenation whose first part lacks c searches the second part. */
  lemma {:induction false} IndexOfAppend(a: string, b: string, c: char)
    requires forall i :: 0 <= i < |a| ==> a[i] != c
    ensures IndexOf(a + b, c) == |a| + IndexOf(b, c)
  {
    if a != [] {
      assert (a + b)[1..] == a[1..] + b;
      IndexOfAppend(a[1..], b, c);
    } else {
      assert a + b == b;
    }
  }

  // ---------------------------------------------------------------- template.HTMLEscapeString

  /** The runes HTML escaping must never leave behind. */
  predicate IsMarkup(c: char) {
    c == '<' || c == '>' || c == '"' || c == '\''
  }

  function EscapeRune(c: char): string {
    if c == '"' then "&#34;"
    else if c == '\'' then "&#39;"
    else if c == '&' then "&amp;"
    else if c == '<' then "&lt;"
    else if c == '>' then "&gt;"
    else if c == '\0' then "\U{FFFD}"
    else [c]
  }

  /** template.HTMLEscapeString: quotes, ampersand and angle brackets become entities and NUL
      becomes U+FFFD; no markup rune survives. */
  function HTMLEscape(s: string): (r: string)
    ensures forall i :: 0 <= i < |r| ==> !IsMarkup(r[i])
  {
    if s == [] then "" else EscapeRune(s[0]) + HTMLEscape(s[1..])
  }

  /** Decodes the five entities HTMLEscape writes. */
  function HTMLUnescape(s: string): string
    decreases |s|
  {
    if s == [] then ""
    else if s[0] != '&' then [s[0]] + HTMLUnescape(s[1..])
    else if HasPrefix(s, "&#34;") then "\"" + HTMLUnescape(s[5..])
    else if HasPrefix(s, "&#39;") then "'" + HTMLUnescape(s[5..])
    else if HasPrefix(s, "&amp;") then "&" + HTMLUnescape(s[5..])
    else if HasPrefix(s, "&lt;") then "<" + HTMLUnescape(s[4..])
    else if HasPrefix(s, "&gt;") then ">" + HTMLUnescape(s[4..])
    else [s[0]] + HTMLUnescape(s[1..])
  }

  lemma UnescapeRune(c: char, rest: string)
    requires c != '\0'
    ensures HTMLUnescape(EscapeRune(c) + rest) == [c] + HTMLUnescape(rest)
  {
    if c == '"' || c == '\'' {
      UnescapeQuote(c, rest);
    } else if c == '&' || c == '<' || c == '>' {
      UnescapeAmpOrAngle(c, rest);
    } else {
      var e := EscapeRune(c) + rest;
      assert e[0] == c && e[1..] == rest;
      assert e[0] != '&';
    }
  }

  lemma UnescapeQuote(c: char, rest: string)
    requires c == '"' || c == '\''
    ensures HTMLUnescape(EscapeRune(c) + rest) == [c] + HTMLUnescape(rest)
  {
    var e := EscapeRune(c) + rest;
    if c == '"' {
      assert e[..5] == "&#34;" && e[5..] == rest;
    } else {
      assert e[..5] == "&#39;" && e[5..] == rest;
      assert e[3] != '4';
    }
  }

  lemma UnescapeAmpOrAngle(c: char, rest: string)
    requires c == '&' || c == '<' || c == '>'
    ensures HTMLUnescape(EscapeRune(c) + rest) == [c] + HTMLUnescape(rest)
  {
    if c == '&' {
      UnescapeAmp(rest);
    } else if c == '<' {
      UnescapeLt(rest);
    } else {
      UnescapeGt(rest);
    }
  }

  lemma UnescapeAmp(rest: string)
    ensures HTMLUnescape("&amp;" + rest) == "&" + HTMLUnescape(rest)
  {
    var e := "&amp;" + rest;
    assert e[..5] == "&amp;" && e[5..] == rest;
    assert e[1] != '#';
  }

  lemma UnescapeLt(rest: string)
    ensures HTMLUnescape("&lt;" + rest) == "<" + HTMLUnescape(rest)
  {
    var e := "&lt;" + rest;
    assert e[..4] == "&lt;" && e[4..] == rest;
    assert e[1] != '#' && e[1] != 'a';
  }

  lemma UnescapeGt(rest: string)
    ensures HTMLUnescape("&gt;" + rest) == ">" + HTMLUnescape(rest)
  {
    var e := "&gt;" + rest;
    assert e[..4] == "&gt;" && e[4..] == rest;
    assert e[1] != '#' && e[1] != 'a' && e[1] != 'l';
  }

  /** Unescaping undoes escaping for every string without NUL. */
  lemma {:induction false} HTMLEscapeRoundTrip(s: string)
    requires '\0' !in s
    ensures HTMLUnescape(HTMLEscape(s)) == s
  {
    if s != [] {
      UnescapeRune(s[0], HTMLEscape(s[1..]));
      assert '\0' !in s[1..] by { assert forall i :: 0 <= i < |s[1..]| ==> s[1..][i] == s[i + 1]; }
      HTMLEscapeRoundTrip(s[1..]);
      assert s == [s[0]] + s[1..];
    }
  }

  // ---------------------------------------------------------------- string order, as sort.Strings uses

  /** Go's s < t on strings: lexicographic on runes, a proper prefix first. */
  predicate StringLess(a: string, b: string)
    decreases |a|
  {
    if b == [] then false
    else if a == [] then true
    else if a[0] != b[0] then a[0] < b[0]
    else StringLess(a[1..], b[1..])
  }

  lemma {:induction false} StringLessIrreflexive(a: string)
    ensures !StringLess(a, a)
    decreases |a|
  {
    if a != [] {
      StringLessIrreflexive(a[1..]);
    }
  }

  lemma {:induction false} StringLessTransitive(a: string, b: string, c: string)
    requires StringLess(a, b) && StringLess(b, c)
    ensures StringLess(a, c)
    decreases |a|
  {
    if a != [] && a[0] == b[0] && b[0] == c[0] {
      StringLessTransitive(a[1..], b[1..], c[1..]);
    }
  }

  lemma {:induction false} StringLessTotal(a: string, b: string)
    ensures a == b || StringLess(a, b) || StringLess(b, a)
    decreases |a|
  {
    if a != [] && b != [] && a[0] == b[0] {
      StringLessTotal(a[1..], b[1..]);
      assert a == [a[0]] + a[1..] && b == [b[0]] + b[1..];
    }
  }

  // ---------------------------------------------------------------- quoting

  /** The escape fmt's %q writes for one rune; only the quote and the backslash are escaped,
      which is exact for printable text. */
  function QuoteRune(c: char): string {
    if c == '"' then "\\\"" else if c == '\\' then "\\\\" else [c]
  }

  function QuoteBody(s: string): (r: string)
    ensures |r| >= |s|
  {
    if s == [] then "" else QuoteRune(s[0]) + QuoteBody(s[1..])
  }

  /** %q of a string: the escaped text between double quotes. */
  function Quote(s: string): (r: string)
    ensures |r| >= |s| + 2 && r[0] == '"' && r[|r| - 1] == '"'
  {
    "\"" + QuoteBody(s) + "\""
  }

  /** Text without quotes or backslashes is quoted as it is. */
  lemma {:induction false} QuotePlain(s: string)
    requires forall i :: 0 <= i < |s| ==> s[i] != '"' && s[i] != '\\'
    ensures Quote(s) == "\"" + s + "\""
  {
    QuoteBodyPlain(s);
  }

  lemma {:induction false} QuoteBodyPlain(s: string)
    requires forall i :: 0 <= i < |s| ==> s[i] != '"' && s[i] != '\\'
    ensures QuoteBody(s) == s
  {
    if s != [] {
      QuoteBodyPlain(s[1..]);
      assert s == [s[0]] + s[1..];
    }
  }
}
