/** String primitives shared by the proxy model: the handful of Python string
    and regular-expression operations the proxy relies on, each written as a
    plain function over `seq<char>`. */
module Text {

  datatype Option<+T> = None | Some(value: T)

  /** Python's `\s` on a `str` pattern (the characters `str.isspace` accepts). */
  predicate IsSpace(c: char)
  {
    || ('\t' <= c <= '\r')
    || ('\U{1C}' <= c <= ' ')
    || c == '\U{85}' || c == '\U{A0}' || c == '\U{1680}'
    || ('\U{2000}' <= c <= '\U{200A}')
    || c == '\U{2028}' || c == '\U{2029}' || c == '\U{202F}' || c == '\U{205F}' || c == '\U{3000}'
  }

  predicate IsDigit(c: char)
  {
    '0' <= c <= '9'
  }

  /** ASCII lower-casing, the folding `re.I` applies to the ASCII names matched here. */
  function Lower(c: char): char
  {
    if 'A' <= c <= 'Z' then (c as int + 32) as char else c
  }

  predicate SameIgnoringCase(a: string, b: string)
  {
    |a| == |b| && forall i :: 0 <= i < |a| ==> Lower(a[i]) == Lower(b[i])
  }

  predicate StartsWith(s: string, p: string)
  {
    |p| <= |s| && s[..|p|] == p
  }

  predicate EndsWith(s: string, p: string)
  {
    |p| <= |s| && s[|s| - |p|..] == p
  }

  /** `p` occurs in `s` starting at index `i`. */
  predicate OccursAt(s: string, p: string, i: nat)
  {
    i + |p| <= |s| && s[i..i + |p|] == p
  }

  /** Python's `p in s`. */
  predicate Contains(s: string, p: string)
  {
    exists i :: 0 <= i <= |s| - |p| && OccursAt(s, p, i)
  }

  /** The first index at or after `from` where `p` occurs in `s` (`str.find`, `re.search`
      on a literal). */
  function FindFrom(s: string, p: string, from: nat): (r: Option<nat>)
    ensures r.Some? ==> from <= r.value && OccursAt(s, p, r.value)
    ensures r.Some? ==> forall j :: from <= j < r.value ==> !OccursAt(s, p, j)
    ensures r.None? ==> forall j :: from <= j ==> !OccursAt(s, p, j)
    decreases |s| - from
  {
    if from + |p| > |s| then None
    else if OccursAt(s, p, from) then Some(from)
    else FindFrom(s, p, from + 1)
  }

  function Find(s: string, p: string): (r: Option<nat>)
    ensures r.Some? <==> Contains(s, p)
    ensures r.Some? ==> OccursAt(s, p, r.value) && forall j :: 0 <= j < r.value ==> !OccursAt(s, p, j)
  {
    FindFrom(s, p, 0)
  }

  /** The longest prefix of `s` holding no character of `stops` (a `[^...]*` group). */
  function TakeUntil(s: string, stops: set<char>): (r: string)
    ensures StartsWith(s, r)
    ensures forall i :: 0 <= i < |r| ==> r[i] !in stops
    ensures |r| < |s| ==> s[|r|] in stops
  {
    if |s| == 0 || s[0] in stops then [] else [s[0]] + TakeUntil(s[1..], stops)
  }

  /** The longest prefix of ASCII digits (a `\d+` group once it is non-empty). */
  function TakeDigits(s: string): (r: string)
    ensures StartsWith(s, r)
    ensures forall i :: 0 <= i < |r| ==> IsDigit(r[i])
    ensures |r| < |s| ==> !IsDigit(s[|r|])
  {
    if |s| == 0 || !IsDigit(s[0]) then [] else [s[0]] + TakeDigits(s[1..])
  }

  /** What remains after a greedy `\s*`. */
  function SkipSpaces(s: string): (r: string)
    ensures |r| <= |s|
    ensures |r| > 0 ==> !IsSpace(r[0])
  {
    if |s| > 0 && IsSpace(s[0]) then SkipSpaces(s[1..]) else s
  }

  /** The white space `int()` skips around its digits. Non-ASCII white space is first
      turned into a space; of the ASCII characters only tab, line feed, vertical tab,
      form feed, carriage return and space are skipped, so the separators
      U+001C to U+001F, which `\s` does hold, are not. */
  predicate IsIntSpace(c: char)
  {
    IsSpace(c) && !('\U{1C}' <= c <= '\U{1F}')
  }

  /** `int()`'s stripping of leading and trailing white space. */
  function StripIntSpace(s: string): (r: string)
    ensures |r| <= |s|
    ensures |r| > 0 ==> !IsIntSpace(r[0]) && !IsIntSpace(r[|r| - 1])
  {
    DropTrailingIntSpace(SkipIntSpace(s))
  }

  function SkipIntSpace(s: string): (r: string)
    ensures |r| <= |s|
    ensures |r| > 0 ==> !IsIntSpace(r[0])
  {
    if |s| > 0 && IsIntSpace(s[0]) then SkipIntSpace(s[1..]) else s
  }

  function DropTrailingIntSpace(s: string): (r: string)
    ensures StartsWith(s, r)
    ensures |r| > 0 ==> !IsIntSpace(r[|r| - 1])
    ensures |s| > 0 && !IsIntSpace(s[0]) ==> |r| > 0 && r[0] == s[0]
  {
    if |s| > 0 && IsIntSpace(s[|s| - 1]) then DropTrailingIntSpace(s[..|s| - 1]) else s
  }

  /** Python's `s.replace(a, b)`: every occurrence of `a`, scanning left to right
      without overlap, is replaced by `b`. */
  function ReplaceAll(s: string, a: string, b: string): string
    requires |a| > 0
    decreases |s|
  {
    if |s| < |a| then s
    else if s[..|a|] == a then b + ReplaceAll(s[|a|..], a, b)
    else [s[0]] + ReplaceAll(s[1..], a, b)
  }

  function DigitChar(d: nat): char
    requires d < 10
  {
    ('0' as int + d) as char
  }

  /** `'%d' % n` for a natural number. */
  function Decimal(n: nat): (r: string)
    ensures |r| > 0 && forall i :: 0 <= i < |r| ==> IsDigit(r[i])
  {
    if n < 10 then [DigitChar(n)] else Decimal(n / 10) + [DigitChar(n % 10)]
  }

  function DigitValue(c: char): nat
    requires IsDigit(c)
  {
    c as int - '0' as int
  }

  function DigitsValue(s: string): nat
    requires forall i :: 0 <= i < |s| ==> IsDigit(s[i])
  {
    if |s| == 0 then 0 else 10 * DigitsValue(s[..|s| - 1]) + DigitValue(s[|s| - 1])
  }

  /** Python's limit on the number of digits `int()` converts from text
      (`sys.int_info.default_max_str_digits`, in force from Python 3.11 on). */
  const MaxStrDigits: nat := 4300

  /** The text after an optional leading sign. */
  function Unsigned(t: string): (d: string)
    ensures |t| > 0 && (t[0] == '-' || t[0] == '+') ==> d == t[1..]
    ensures |t| == 0 || (t[0] != '-' && t[0] != '+') ==> d == t
  {
    if |t| > 0 && (t[0] == '-' || t[0] == '+') then t[1..] else t
  }

  /** The stripped text `int()` accepts: an optional sign, then one to `MaxStrDigits`
      ASCII digits. */
  predicate IsIntText(t: string)
  {
    var d := Unsigned(t);
    0 < |d| <= MaxStrDigits && forall i :: 0 <= i < |d| ==> IsDigit(d[i])
  }

  /** Python's `int(s)` on base-10 text: surrounding `int()` white space, an optional sign,
      then one or more ASCII digits, no more than `MaxStrDigits` of them; anything
      else raises, here `None`. */
  function ParseInt(s: string): (r: Option<int>)
    ensures r.Some? <==> IsIntText(StripIntSpace(s))
    ensures r.Some? ==> var t := StripIntSpace(s);
                        var v: int := DigitsValue(Unsigned(t));
                        r.value == if t[0] == '-' then -v else v
  {
    var t := StripIntSpace(s);
    if |t| == 0 then None
    else
      var neg := t[0] == '-';
      var digits := if t[0] == '-' || t[0] == '+' then t[1..] else t;
      if 0 < |digits| <= MaxStrDigits && forall i :: 0 <= i < |digits| ==> IsDigit(digits[i]) then
        var v: int := DigitsValue(digits);
        Some(if neg then -v else v)
      else None
  }

  // ---------------------------------------------------------------------------
  // Facts about the primitives

  lemma {:induction false} DecimalValue(n: nat)
    ensures DigitsValue(Decimal(n)) == n
  {
    if n >= 10 {
      DecimalValue(n / 10);
      var d := Decimal(n);
      assert d[..|d| - 1] == Decimal(n / 10);
    }
  }

  /** `int('%d' % n) == n`: the decimal rendering parses back. */
  lemma ParseDecimal(n: nat)
    requires |Decimal(n)| <= MaxStrDigits
    ensures ParseInt(Decimal(n)) == Some(n)
  {
    ParseDigits(Decimal(n));
    DecimalValue(n);
  }

  /** A non-empty run of ASCII digits parses to its value. */
  lemma ParseDigits(d: string)
    requires 0 < |d| <= MaxStrDigits && forall i :: 0 <= i < |d| ==> IsDigit(d[i])
    ensures ParseInt(d) == Some(DigitsValue(d))
  {
    StripDigits(d);
    assert IsDigit(d[0]);
  }

  /** White space stripping leaves a non-empty run of digits as it is. */
  lemma StripDigits(d: string)
    requires |d| > 0 && forall i :: 0 <= i < |d| ==> IsDigit(d[i])
    ensures StripIntSpace(d) == d
  {
    assert SkipIntSpace(d) == d by { assert IsDigit(d[0]); }
    assert DropTrailingIntSpace(d) == d by { assert IsDigit(d[|d| - 1]); }
  }

  /** `int()` raises on digits followed by one of the separators U+001C to U+001F,
      although `str.strip()` and `\s` would treat that character as white space. */
  lemma SeparatorRejected(d: string, c: char)
    requires 0 < |d| && forall i :: 0 <= i < |d| ==> IsDigit(d[i])
    requires '\U{1C}' <= c <= '\U{1F}'
    ensures IsSpace(c)
    ensures ParseInt(d + [c]) == None
  {
    var s := d + [c];
    assert SkipIntSpace(s) == s by { assert IsDigit(s[0]); }
    assert DropTrailingIntSpace(s) == s;
    var u := Unsigned(s);
    assert u == s by { assert IsDigit(s[0]); }
    assert !IsDigit(u[|u| - 1]);
  }

  lemma {:induction false} ReplaceInserts(s: string, a: string, b: string)
    requires |a| > 0 && Contains(s, a)
    ensures Contains(ReplaceAll(s, a, b), b)
    decreases |s|
  {
    var r := ReplaceAll(s, a, b);
    if s[..|a|] == a {
      assert OccursAt(r, b, 0);
    } else {
      var i :| 0 <= i <= |s| - |a| && OccursAt(s, a, i);
      assert i != 0;
      assert s[1..][i - 1..i - 1 + |a|] == s[i..i + |a|];
      assert OccursAt(s[1..], a, i - 1);
      ReplaceInserts(s[1..], a, b);
      var t := ReplaceAll(s[1..], a, b);
      var k :| 0 <= k <= |t| - |b| && OccursAt(t, b, k);
      assert r == [s[0]] + t;
      assert r[k + 1..k + 1 + |b|] == t[k..k + |b|];
      assert OccursAt(r, b, k + 1);
    }
  }

  /** A replacement that does not start at index 0 keeps the first character. */
  lemma ReplaceKeepsHead(s: string, a: string, b: string)
    requires |a| > 0 && |s| > 0 && !StartsWith(s, a)
    ensures |ReplaceAll(s, a, b)| > 0 && ReplaceAll(s, a, b)[0] == s[0]
  {
  }

  lemma HeadOfPrefix(s: string, p: string)
    requires |p| > 0 && StartsWith(s, p)
    ensures |s| > 0 && s[0] == p[0]
  {
    assert s[..|p|][0] == s[0];
  }

  /** A string starting with `p` does not start with a `q` of another first letter. */
  lemma StartsDiffer(s: string, p: string, q: string)
    requires |p| > 0 && |q| > 0 && StartsWith(s, p) && p[0] != q[0]
    ensures !StartsWith(s, q)
  {
    HeadOfPrefix(s, p);
    if StartsWith(s, q) {
      HeadOfPrefix(s, q);
    }
  }

  lemma ContainsPrefix(s: string, p: string, q: string)
    requires Contains(s, p + q)
    ensures Contains(s, p)
  {
    var i :| 0 <= i <= |s| - |p + q| && OccursAt(s, p + q, i);
    assert s[i..i + |p|] == (p + q)[..|p|];
    assert OccursAt(s, p, i);
  }

  lemma ContainsSuffix(s: string, p: string, q: string)
    requires Contains(s, p + q)
    ensures Contains(s, q)
  {
    var i :| 0 <= i <= |s| - |p + q| && OccursAt(s, p + q, i);
    assert s[i + |p|..i + |p| + |q|] == (p + q)[|p|..];
    assert OccursAt(s, q, i + |p|);
  }

  lemma ContainsAppended(s: string, p: string)
    ensures Contains(s + p, p)
  {
    assert (s + p)[|s|..|s| + |p|] == p;
    assert OccursAt(s + p, p, |s|);
  }
}
