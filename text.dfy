/**
  The few pieces of Python's string semantics the pipeline relies on:
  `str.strip`, `str.split` with a one-character separator, `int(str)` for
  base-10 text and `str(int)`.
*/
module Text {
  import opened Common

  /** Python's `str.isspace` for a single character (the characters that
      `str.strip()` and `int()` treat as white space). */
  predicate IsSpace(c: char) {
    c == ' ' || ('\t' <= c <= '\r') || ('\U{1C}' <= c <= '\U{1F}')
    || c == '\U{85}' || c == '\U{A0}' || c == '\U{1680}'
    || ('\U{2000}' <= c <= '\U{200A}') || c == '\U{2028}' || c == '\U{2029}'
    || c == '\U{202F}' || c == '\U{205F}' || c == '\U{3000}'
  }

  predicate IsAt(c: char) { c == '@' }

  predicate IsDigit(c: char) { '0' <= c <= '9' }

  /** Number of leading characters of `s` that satisfy `drop`. */
  function LeadingCount(s: string, drop: char -> bool): (n: nat)
    ensures n <= |s|
    ensures forall k :: 0 <= k < n ==> drop(s[k])
    ensures n == |s| || !drop(s[n])
  {
    if |s| > 0 && drop(s[0]) then
      var m := LeadingCount(s[1..], drop);
      assert forall k :: 1 <= k < m + 1 ==> s[k] == s[1..][k - 1];
      m + 1
    else 0
  }

  /** Number of trailing characters of `s` that satisfy `drop`. */
  function TrailingCount(s: string, drop: char -> bool): (n: nat)
    ensures n <= |s|
    ensures forall k :: |s| - n <= k < |s| ==> drop(s[k])
    ensures n == |s| || !drop(s[|s| - n - 1])
  {
    if |s| > 0 && drop(s[|s| - 1]) then
      var m := TrailingCount(s[..|s| - 1], drop);
      assert forall k :: |s| - 1 - m <= k < |s| - 1 ==> s[k] == s[..|s| - 1][k];
      m + 1
    else 0
  }

  /** Python's `s.strip(chars)`, where `drop` says which characters are in
      `chars`: the slice between the first and the last kept character. */
  function Strip(s: string, drop: char -> bool): (r: string)
    ensures |r| <= |s|
    ensures r == [] <==> forall k :: 0 <= k < |s| ==> drop(s[k])
    ensures r != [] ==> !drop(r[0]) && !drop(r[|r| - 1])
  {
    var lead := LeadingCount(s, drop);
    var rest := s[lead..];
    var trail := TrailingCount(rest, drop);
    var r := rest[..|rest| - trail];
    assert r == s[lead..lead + |r|];
    r
  }

  /** A string none of whose end characters is dropped is left unchanged. */
  lemma StripNoOp(s: string, drop: char -> bool)
    requires s == [] || (!drop(s[0]) && !drop(s[|s| - 1]))
    ensures Strip(s, drop) == s
  {
    if s != [] {
      assert LeadingCount(s, drop) == 0;
      assert s[0..] == s;
      assert TrailingCount(s, drop) == 0;
    }
  }

  /** Stripping a word surrounded by padding leaves the word. */
  lemma StripPadding(s: string, lead: string, w: string, pad: string, drop: char -> bool)
    requires s == lead + w + pad
    requires w != [] && !drop(w[0]) && !drop(w[|w| - 1])
    requires forall k :: 0 <= k < |lead| ==> drop(lead[k])
    requires forall k :: 0 <= k < |pad| ==> drop(pad[k])
    ensures Strip(s, drop) == w
  {
    var m := LeadingCount(s, drop);
    assert s[|lead|] == w[0];
    assert m == |lead|;
    var rest := s[m..];
    assert rest == w + pad;
    var n := TrailingCount(rest, drop);
    assert rest[|w| - 1] == w[|w| - 1];
    assert n == |pad|;
    assert rest[..|rest| - n] == w;
  }

  // ---------------------------------------------------------------- split

  /** Python's `s.split(sep)`: never empty, `""` splits into `[""]`. */
  function Split(s: string, sep: char): (parts: seq<string>)
    ensures |parts| >= 1
    ensures forall i :: 0 <= i < |parts| ==> sep !in parts[i]
    ensures Join(parts, sep) == s
  {
    if |s| == 0 then [""]
    else
      var rest := Split(s[1..], sep);
      if s[0] == sep then
        assert Join([""] + rest, sep) == [sep] + Join(rest, sep);
        [""] + rest
      else
        var parts := [[s[0]] + rest[0]] + rest[1..];
        JoinHead(rest, sep);
        JoinHead(parts, sep);
        assert parts[1..] == rest[1..];
        parts
  }

  /** Python's `sep.join(parts)`. */
  function Join(parts: seq<string>, sep: char): string
    requires |parts| >= 1
  {
    if |parts| == 1 then parts[0] else parts[0] + [sep] + Join(parts[1..], sep)
  }

  lemma JoinHead(parts: seq<string>, sep: char)
    requires |parts| >= 1
    ensures Join(parts, sep) == parts[0] + (if |parts| == 1 then [] else [sep] + Join(parts[1..], sep))
  {
  }

  /** A leading separator starts an empty part. */
  lemma SplitSep(t: string, sep: char)
    ensures Split([sep] + t, sep) == [""] + Split(t, sep)
  {
    assert ([sep] + t)[1..] == t;
  }

  /** Any other leading character joins the first part. */
  lemma SplitChar(c: char, t: string, sep: char)
    requires c != sep
    ensures Split([c] + t, sep) == [[c] + Split(t, sep)[0]] + Split(t, sep)[1..]
  {
    assert ([c] + t)[1..] == t;
  }

  /** Splitting undoes joining: a list of separator-free parts is recovered
      exactly from its join, so Split and Join are mutually inverse. */
  lemma {:induction false} SplitJoin(parts: seq<string>, sep: char)
    requires |parts| >= 1
    requires forall i :: 0 <= i < |parts| ==> sep !in parts[i]
    ensures Split(Join(parts, sep), sep) == parts
    decreases |parts|, |parts[0]|
  {
    var p := parts[0];
    JoinHead(parts, sep);
    if |p| == 0 {
      if |parts| == 1 {
        assert parts == [""] && Join(parts, sep) == "";
      } else {
        var tail := parts[1..];
        SplitJoin(tail, sep);
        var j := Join(tail, sep);
        assert Join(parts, sep) == [sep] + j;
        SplitSep(j, sep);
        assert [""] + tail == parts;
      }
    } else {
      var rest := [p[1..]] + parts[1..];
      assert forall i :: 1 <= i < |rest| ==> rest[i] == parts[i];
      SplitJoin(rest, sep);
      JoinHead(rest, sep);
      assert rest[1..] == parts[1..];
      assert Join(parts, sep) == [p[0]] + Join(rest, sep);
      assert p[0] != sep by { assert p[0] in p; }
      SplitChar(p[0], Join(rest, sep), sep);
      assert [p[0]] + p[1..] == p;
      assert [p] + parts[1..] == parts;
    }
  }

  // ------------------------------------------------------------ integers

  function DigitValue(c: char): nat
    requires IsDigit(c)
  {
    c as int - '0' as int
  }

  function DigitChar(d: nat): (c: char)
    requires d < 10
    ensures IsDigit(c) && DigitValue(c) == d
  {
    ('0' as int + d) as char
  }

  /** The body of a base-10 literal as Python's `int()` reads it,
      restricted to ASCII digits (Python also takes any other Unicode
      decimal digit), optionally grouped by single underscores between
      digits. */
  predicate IsDigitGroup(s: string) {
    && |s| > 0
    && IsDigit(s[0]) && IsDigit(s[|s| - 1])
    && (forall i :: 0 <= i < |s| ==> IsDigit(s[i]) || s[i] == '_')
    && (forall i, j :: 0 <= i < |s| - 1 && j == i + 1 ==> s[i] == '_' ==> s[j] != '_')
  }

  /** Value of the digits of `s`, underscores ignored. */
  function DigitsValue(s: string): nat
    requires forall i :: 0 <= i < |s| ==> IsDigit(s[i]) || s[i] == '_'
  {
    if |s| == 0 then 0
    else if s[|s| - 1] == '_' then DigitsValue(s[..|s| - 1])
    else DigitsValue(s[..|s| - 1]) * 10 + DigitValue(s[|s| - 1])
  }

  /** Python's `int(s)` on a string, base 10: `None` where Python raises
      `ValueError`. */
  function ParseInt(s: string): (r: Option<int>)
    ensures r.Some? ==> exists c :: c in Strip(s, IsSpace) && IsDigit(c)
  {
    var t := Strip(s, IsSpace);
    if |t| > 0 && (t[0] == '-' || t[0] == '+') then
      var body := t[1..];
      if IsDigitGroup(body) then
        assert body[0] in t;
        var v: int := DigitsValue(body);
        Some(if t[0] == '-' then -v else v)
      else None
    else if IsDigitGroup(t) then
      assert t[0] in t;
      Some(DigitsValue(t))
    else None
  }

  function NatToString(n: nat): (s: string)
    ensures |s| >= 1 && forall i :: 0 <= i < |s| ==> IsDigit(s[i])
  {
    if n < 10 then [DigitChar(n)] else NatToString(n / 10) + [DigitChar(n % 10)]
  }

  /** Python's `str(n)` for an integer. */
  function IntToString(n: int): (s: string)
    ensures |s| >= 1 && (forall i :: 0 <= i < |s| ==> IsDigit(s[i]) || s[i] == '-')
    ensures '_' !in s && '/' !in s
  {
    if n < 0 then "-" + NatToString(-n) else NatToString(n)
  }

  lemma {:induction false} NatToStringValue(n: nat)
    ensures IsDigitGroup(NatToString(n))
    ensures DigitsValue(NatToString(n)) == n
  {
    var s := NatToString(n);
    if n >= 10 {
      NatToStringValue(n / 10);
      assert s[..|s| - 1] == NatToString(n / 10);
    }
  }

  lemma ParseNonNegative(n: nat)
    ensures ParseInt(IntToString(n)) == Some(n)
  {
    var s := IntToString(n);
    assert s == NatToString(n);
    assert !IsSpace(s[0]) && !IsSpace(s[|s| - 1]);
    StripNoOp(s, IsSpace);
    NatToStringValue(n);
    assert IsDigitGroup(s);
    assert s[0] != '-' && s[0] != '+';
  }

  lemma ParseNegative(n: int)
    requires n < 0
    ensures ParseInt(IntToString(n)) == Some(n)
  {
    NatToStringValue(-n);
    ParseMinusDigits(NatToString(-n), -n);
  }

  /** A minus sign followed by a digit group parses as the negated value
      of the digits. */
  lemma ParseMinusDigits(body: string, v: nat)
    requires IsDigitGroup(body) && DigitsValue(body) == v
    ensures ParseInt("-" + body) == Some(-(v as int))
  {
    var s := "-" + body;
    assert s[|s| - 1] == body[|body| - 1];
    StripNoOp(s, IsSpace);
    assert s[1..] == body;
  }

  /** `int(str(n)) == n`: printing an integer and parsing it back is the
      identity, so `str` is injective on integers. */
  lemma ParseIntToString(n: int)
    ensures ParseInt(IntToString(n)) == Some(n)
  {
    if n < 0 { ParseNegative(n); } else { ParseNonNegative(n); }
  }

  lemma IntToStringInjective(a: int, b: int)
    requires IntToString(a) == IntToString(b)
    ensures a == b
  {
    ParseIntToString(a);
    ParseIntToString(b);
  }
}
