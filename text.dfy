/**
 * The string operations the entry scripts and the sweep builder rely on:
 * Python's `str` of an integer and of a boolean, `int()` as its inverse,
 * `split("/")[-1]`, and the prefix and span helpers used to read a run
 * name back.
 */
module Text {
  import opened Wrappers

  predicate IsDigit(c: char) {
    '0' <= c <= '9'
  }

  predicate IsDigits(s: string) {
    forall i :: 0 <= i < |s| ==> IsDigit(s[i])
  }

  function DigitChar(d: nat): (c: char)
    requires d < 10
    ensures IsDigit(c) && DigitValue(c) == d
  {
    ('0' as int + d) as char
  }

  function DigitValue(c: char): nat
    requires IsDigit(c)
  {
    c as int - '0' as int
  }

  /** Decimal digits of `n`, most significant first, with no leading zero. */
  function NatToString(n: nat): (s: string)
    ensures |s| > 0 && IsDigits(s)
    ensures s[0] == '0' <==> n == 0
  {
    if n < 10 then [DigitChar(n)] else NatToString(n / 10) + [DigitChar(n % 10)]
  }

  /** The value of a run of decimal digits. */
  function ParseNat(s: string): nat
    requires IsDigits(s)
  {
    if s == [] then 0 else ParseNat(s[..|s| - 1]) * 10 + DigitValue(s[|s| - 1])
  }

  lemma {:induction false} ParseNatOfNatToString(n: nat)
    ensures ParseNat(NatToString(n)) == n
  {
    if n >= 10 {
      var s := NatToString(n);
      assert s[..|s| - 1] == NatToString(n / 10);
      ParseNatOfNatToString(n / 10);
    }
  }

  /** Python's `str(n)` for an integer: an optional minus sign, then the digits of `|n|`. */
  function IntToString(n: int): (s: string)
    ensures |s| > 0
    ensures forall i :: 0 <= i < |s| ==> IsDigit(s[i]) || (i == 0 && s[i] == '-')
    ensures s[0] == '-' <==> n < 0
  {
    if n < 0 then "-" + NatToString(-n) else NatToString(n)
  }

  /** Python's `int(s)` on a sign and a run of digits; anything else is rejected. */
  function ParseInt(s: string): (r: Option<int>)
    ensures r.Some? <==> (|s| > 0 && IsDigits(s)) || (|s| > 1 && (s[0] == '-' || s[0] == '+') && IsDigits(s[1..]))
  {
    if |s| > 1 && s[0] == '-' && IsDigits(s[1..]) then Some(-(ParseNat(s[1..]) as int))
    else if |s| > 1 && s[0] == '+' && IsDigits(s[1..]) then Some(ParseNat(s[1..]))
    else if |s| > 0 && IsDigits(s) then Some(ParseNat(s))
    else None
  }

  /** What `int()` reads back from `str(n)` is `n`. */
  lemma IntRoundTrip(n: int)
    ensures ParseInt(IntToString(n)) == Some(n)
  {
    if n < 0 {
      var s := IntToString(n);
      assert s[1..] == NatToString(-n);
      ParseNatOfNatToString(-n);
    } else {
      ParseNatOfNatToString(n);
    }
  }

  lemma IntToStringAvoids(n: int, c: char)
    requires c != '-' && !IsDigit(c)
    ensures c !in IntToString(n)
  {
  }

  /** Python's `str(b)` for a boolean. */
  function BoolToString(b: bool): string {
    if b then "True" else "False"
  }

  function LowerChar(c: char): char {
    if 'A' <= c <= 'Z' then (c as int - 'A' as int + 'a' as int) as char else c
  }

  /** ASCII lower-casing, as `str.lower` does on the texts it is applied to here. */
  function Lower(s: string): (r: string)
    ensures |r| == |s|
    ensures forall i :: 0 <= i < |s| ==> r[i] == LowerChar(s[i])
  {
    if s == [] then [] else [LowerChar(s[0])] + Lower(s[1..])
  }

  /**
   * Python's `s.split("/")[-1]`: the text after the last slash, or all of
   * `s` when it holds none.
   */
  function LastSegment(s: string): (r: string)
    ensures '/' !in r
    ensures |r| <= |s| && s[|s| - |r|..] == r
    ensures |r| < |s| ==> s[|s| - |r| - 1] == '/'
  {
    if s == [] then []
    else if s[|s| - 1] == '/' then []
    else LastSegment(s[..|s| - 1]) + [s[|s| - 1]]
  }

  /** The last segment is whatever follows the final slash. */
  lemma {:induction false} LastSegmentAfterSlash(prefix: string, name: string)
    requires '/' !in name
    ensures LastSegment(prefix + "/" + name) == name
  {
    var s := prefix + "/" + name;
    if name != [] {
      var n := |name| - 1;
      assert name[n] in name;
      assert s[..|s| - 1] == prefix + "/" + name[..n];
      LastSegmentAfterSlash(prefix, name[..n]);
      assert name[..n] + [name[n]] == name;
    }
  }

  /** The same, for a path joined as `prefix + ("/" + name)`. */
  lemma LastSegmentOfChild(prefix: string, name: string)
    requires '/' !in name
    ensures LastSegment(prefix + ("/" + name)) == name
  {
    assert prefix + ("/" + name) == prefix + "/" + name;
    LastSegmentAfterSlash(prefix, name);
  }

  predicate StartsWith(p: string, s: string) {
    |p| <= |s| && s[..|p|] == p
  }

  /** `s` without its prefix `p`, if it has that prefix. */
  function StripPrefix(p: string, s: string): (r: Option<string>)
    ensures r.Some? <==> StartsWith(p, s)
    ensures r.Some? ==> s == p + r.value
  {
    if StartsWith(p, s) then Some(s[|p|..]) else None
  }

  lemma StripPrefixOf(p: string, t: string)
    ensures StripPrefix(p, p + t) == Some(t)
  {
    assert (p + t)[..|p|] == p;
    assert (p + t)[|p|..] == t;
  }

  /**
   * Splits `s` before the first `c`: the part before it holds no `c`, and
   * the rest is empty or starts with `c`.
   */
  function Span(s: string, c: char): (r: (string, string))
    ensures r.0 + r.1 == s
    ensures c !in r.0
    ensures r.1 == [] || r.1[0] == c
  {
    if s == [] then ([], [])
    else if s[0] == c then ([], s)
    else var t := Span(s[1..], c); ([s[0]] + t.0, t.1)
  }

  /** Span cuts exactly at the first `c`. */
  lemma {:induction false} SpanOf(x: string, y: string, c: char)
    requires c !in x
    requires y == [] || y[0] == c
    ensures Span(x + y, c) == (x, y)
  {
    if x == [] {
      assert x + y == y;
    } else {
      var s := x + y;
      assert s[0] == x[0] && x[0] in x;
      assert s[1..] == x[1..] + y;
      SpanOf(x[1..], y, c);
      assert Span(s, c) == ([s[0]] + x[1..], y);
      assert [x[0]] + x[1..] == x;
    }
  }
}
