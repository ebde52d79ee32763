/**
 * The few JavaScript string operations the modelled code relies on:
 * the whitespace class shared by `\s` and `String.prototype.trim`, trimming,
 * ASCII lower-casing, decimal printing (`String(n)`), decimal parsing
 * (`Number(s)` restricted to integers), `Array.prototype.join` and its inverse.
 */
module Strings {
  import opened Wrappers

  /** The WhiteSpace and LineTerminator code points of ECMAScript: what `\s` matches and `trim` removes. */
  predicate IsWhitespace(c: char) {
    || c == '\t' || c == '\n' || c == '\U{000B}' || c == '\U{000C}' || c == '\r' || c == ' '
    || c == '\U{00A0}' || c == '\U{1680}' || ('\U{2000}' <= c <= '\U{200A}')
    || c == '\U{2028}' || c == '\U{2029}' || c == '\U{202F}' || c == '\U{205F}'
    || c == '\U{3000}' || c == '\U{FEFF}'
  }

  predicate AllWhitespace(s: string) {
    forall k :: 0 <= k < |s| ==> IsWhitespace(s[k])
  }

  /** Drops the leading whitespace: what remains is a suffix that is empty or starts with a non-space. */
  function TrimStart(s: string): (r: string)
    ensures |r| <= |s| && r == s[|s| - |r|..]
    ensures forall k :: 0 <= k < |s| - |r| ==> IsWhitespace(s[k])
    ensures r == [] || !IsWhitespace(r[0])
  {
    if s != [] && IsWhitespace(s[0]) then TrimStart(s[1..]) else s
  }

  /** Drops the trailing whitespace: what remains is a prefix that is empty or ends with a non-space. */
  function TrimEnd(s: string): (r: string)
    ensures |r| <= |s| && r == s[..|r|]
    ensures forall k :: |r| <= k < |s| ==> IsWhitespace(s[k])
    ensures r == [] || !IsWhitespace(r[|r| - 1])
  {
    if s != [] && IsWhitespace(s[|s| - 1]) then TrimEnd(s[..|s| - 1]) else s
  }

  /** `String.prototype.trim`. */
  function Trim(s: string): string {
    TrimEnd(TrimStart(s))
  }

  /** The length of the leading whitespace run that trim removes. */
  function LeadingLength(s: string): nat {
    |s| - |TrimStart(s)|
  }

  /**
   * Trim removes only whitespace, and only at the two ends: the trimmed text
   * is the slice after the leading whitespace run, and what lies before and
   * after it is whitespace.
   */
  lemma TrimIsInfix(s: string)
    ensures LeadingLength(s) + |Trim(s)| <= |s|
    ensures Trim(s) == s[LeadingLength(s)..LeadingLength(s) + |Trim(s)|]
    ensures AllWhitespace(s[..LeadingLength(s)]) && AllWhitespace(s[LeadingLength(s) + |Trim(s)|..])
    ensures Trim(s) == [] || (!IsWhitespace(Trim(s)[0]) && !IsWhitespace(Trim(s)[|Trim(s)| - 1]))
  {
    TrimInfixAt(s, LeadingLength(s), Trim(s));
  }

  lemma TrimInfixAt(s: string, i: nat, r: string)
    requires i == |s| - |TrimStart(s)| && r == Trim(s)
    ensures i + |r| <= |s| && r == s[i..i + |r|]
    ensures AllWhitespace(s[..i]) && AllWhitespace(s[i + |r|..])
    ensures r == [] || (!IsWhitespace(r[0]) && !IsWhitespace(r[|r| - 1]))
  {
    TrimSliceAt(s, i, r);
    LeadingRun(s, i);
    TrailingRunAt(s, i, r);
    TrimEdges(s);
  }

  lemma TrimSliceAt(s: string, i: nat, r: string)
    requires i == |s| - |TrimStart(s)| && r == Trim(s)
    ensures i + |r| <= |s| && r == s[i..i + |r|]
  {
    var t := TrimStart(s);
    assert r == TrimEnd(t);
    PrefixOfSuffix(s, t, r, i);
  }

  lemma TrailingRunAt(s: string, i: nat, r: string)
    requires i == |s| - |TrimStart(s)| && r == Trim(s)
    ensures i + |r| <= |s| && AllWhitespace(s[i + |r|..])
  {
    var t := TrimStart(s);
    assert r == TrimEnd(t);
    TrailingRun(t);
    SuffixOfSuffix(s, t, i, |r|);
  }

  /** A prefix of the suffix from `i` is the slice starting at `i`. */
  lemma PrefixOfSuffix<T>(s: seq<T>, t: seq<T>, r: seq<T>, i: nat)
    requires i <= |s| && t == s[i..]
    requires |r| <= |t| && r == t[..|r|]
    ensures r == s[i..i + |r|]
  {
    assert s[i..][..|r|] == s[i..i + |r|];
  }

  /** A suffix of the suffix from `i` is a suffix. */
  lemma SuffixOfSuffix<T>(s: seq<T>, t: seq<T>, i: nat, n: nat)
    requires i <= |s| && t == s[i..] && n <= |t|
    ensures s[i + n..] == t[n..]
  {
  }

  /** What `TrimStart` drops is whitespace. */
  lemma LeadingRun(s: string, i: nat)
    requires i == |s| - |TrimStart(s)|
    ensures AllWhitespace(s[..i])
  {
    forall k | 0 <= k < i ensures IsWhitespace(s[..i][k]) {
      assert s[..i][k] == s[k];
    }
  }

  /** What `TrimEnd` drops is whitespace. */
  lemma TrailingRun(t: string)
    ensures AllWhitespace(t[|TrimEnd(t)|..])
  {
    var n := |TrimEnd(t)|;
    forall k | 0 <= k < |t| - n ensures IsWhitespace(t[n..][k]) {
      assert t[n..][k] == t[n + k];
    }
  }

  /** The trim neither starts nor ends with whitespace. */
  lemma TrimEdges(s: string)
    ensures Trim(s) == [] || (!IsWhitespace(Trim(s)[0]) && !IsWhitespace(Trim(s)[|Trim(s)| - 1]))
  {
    var t := TrimStart(s);
    var r := TrimEnd(t);
    assert Trim(s) == r;
    if r != [] {
      assert r[0] == t[0];
    }
  }

  /** Trim yields the empty string exactly when the input is whitespace only. */
  lemma TrimEmptyIff(s: string)
    ensures Trim(s) == [] <==> AllWhitespace(s)
  {
    var t := TrimStart(s);
    var r := TrimEnd(t);
    if !AllWhitespace(s) {
      var k :| 0 <= k < |s| && !IsWhitespace(s[k]);
      assert t != [];
    }
  }

  /** A string that neither starts nor ends with whitespace is left as it is. */
  lemma TrimNoEdgeWhitespace(s: string)
    requires s == [] || (!IsWhitespace(s[0]) && !IsWhitespace(s[|s| - 1]))
    ensures Trim(s) == s
  {
  }

  lemma {:induction false} TrimStartSkipsWhitespace(w: string, s: string)
    requires AllWhitespace(w)
    ensures TrimStart(w + s) == TrimStart(s)
  {
    if w != [] {
      assert (w + s)[1..] == w[1..] + s;
      TrimStartSkipsWhitespace(w[1..], s);
    } else {
      assert w + s == s;
    }
  }

  lemma {:induction false} TrimEndSkipsWhitespace(s: string, w: string)
    requires AllWhitespace(w)
    ensures TrimEnd(s + w) == TrimEnd(s)
  {
    if w != [] {
      assert (s + w)[..|s + w| - 1] == s + w[..|w| - 1];
      TrimEndSkipsWhitespace(s, w[..|w| - 1]);
    } else {
      assert s + w == s;
    }
  }

  lemma {:induction false} TrimStartKeepsTail(s: string, w: string)
    requires !AllWhitespace(s)
    ensures TrimStart(s + w) == TrimStart(s) + w
  {
    if IsWhitespace(s[0]) {
      assert (s + w)[1..] == s[1..] + w;
      assert !AllWhitespace(s[1..]) by {
        var k :| 0 <= k < |s| && !IsWhitespace(s[k]);
        assert s[1..][k - 1] == s[k];
      }
      TrimStartKeepsTail(s[1..], w);
    }
  }

  lemma AllWhitespaceConcat(a: string, b: string)
    requires AllWhitespace(a) && AllWhitespace(b)
    ensures AllWhitespace(a + b)
  {
    forall k | 0 <= k < |a + b| ensures IsWhitespace((a + b)[k]) {
      if k < |a| { assert (a + b)[k] == a[k]; } else { assert (a + b)[k] == b[k - |a|]; }
    }
  }

  /** Whitespace around a string does not change what trim returns. */
  lemma TrimIgnoresSurroundingWhitespace(w1: string, s: string, w2: string)
    requires AllWhitespace(w1) && AllWhitespace(w2)
    ensures Trim(w1 + s + w2) == Trim(s)
  {
    assert w1 + s + w2 == w1 + (s + w2);
    TrimStartSkipsWhitespace(w1, s + w2);
    if AllWhitespace(s) {
      AllWhitespaceConcat(s, w2);
      TrimEmptyIff(s);
      TrimEmptyIff(s + w2);
    } else {
      TrimStartKeepsTail(s, w2);
      TrimEndSkipsWhitespace(TrimStart(s), w2);
    }
  }

  /** Maps the ASCII capitals A-Z to a-z and leaves every other character alone. */
  function LowerChar(c: char): (d: char)
    ensures 'A' <= c <= 'Z' ==> 'a' <= d <= 'z' && d as int - c as int == 32
    ensures !('A' <= c <= 'Z') ==> d == c
  {
    if 'A' <= c <= 'Z' then (c as int + 32) as char else c
  }

  /** `String.prototype.toLowerCase` restricted to ASCII letters. */
  function LowerAscii(s: string): (r: string)
    ensures |r| == |s| && forall k :: 0 <= k < |s| ==> r[k] == LowerChar(s[k])
  {
    seq(|s|, k requires 0 <= k < |s| => LowerChar(s[k]))
  }

  /**
   * Lower-casing leaves no ASCII capital, keeps every other character where it
   * was, and changes nothing the second time.
   */
  lemma LowerAsciiSpec(s: string)
    ensures |LowerAscii(s)| == |s|
    ensures forall k :: 0 <= k < |s| ==> !('A' <= LowerAscii(s)[k] <= 'Z')
    ensures forall k :: 0 <= k < |s| && !('A' <= s[k] <= 'Z') ==> LowerAscii(s)[k] == s[k]
    ensures LowerAscii(LowerAscii(s)) == LowerAscii(s)
    ensures (forall k :: 0 <= k < |s| ==> !('A' <= s[k] <= 'Z')) ==> LowerAscii(s) == s
  {
  }

  predicate IsDigit(c: char) {
    '0' <= c <= '9'
  }

  predicate AllDigits(s: string) {
    forall k :: 0 <= k < |s| ==> IsDigit(s[k])
  }

  function DigitChar(d: nat): (c: char)
    requires d < 10
    ensures IsDigit(c)
  {
    ('0' as int + d) as char
  }

  function DigitValue(c: char): (d: nat)
    requires IsDigit(c)
    ensures d < 10 && DigitChar(d) == c
  {
    c as int - '0' as int
  }

  /** Decimal notation of a natural number, without leading zeros. */
  function NatToString(n: nat): (s: string)
    ensures |s| > 0 && AllDigits(s)
  {
    if n < 10 then [DigitChar(n)] else NatToString(n / 10) + [DigitChar(n % 10)]
  }

  /** `String(n)` for an integer `n`. */
  function IntToString(i: int): string {
    if i < 0 then "-" + NatToString(-i) else NatToString(i)
  }

  /** The value of a string of decimal digits (0 for the empty string). */
  function DigitsValue(s: string): nat
    requires AllDigits(s)
  {
    if s == [] then 0 else DigitsValue(s[..|s| - 1]) * 10 + DigitValue(s[|s| - 1])
  }

  lemma {:induction false} DigitsValueOfNatToString(n: nat)
    ensures DigitsValue(NatToString(n)) == n
  {
    var s := NatToString(n);
    if n >= 10 {
      assert s[..|s| - 1] == NatToString(n / 10);
      DigitsValueOfNatToString(n / 10);
    }
  }

  /**
   * `Number(s)` where it yields a finite number, restricted to integers:
   * surrounding whitespace is ignored, the empty string is 0, an optional
   * sign may precede the digits; anything else is not a finite number.
   */
  function ParseNumber(s: string): Option<int> {
    var t := Trim(s);
    if t == [] then Some(0)
    else if (t[0] == '-' || t[0] == '+') && |t| > 1 && AllDigits(t[1..]) then
      var v: int := DigitsValue(t[1..]);
      Some(if t[0] == '-' then -v else v)
    else if AllDigits(t) then Some(DigitsValue(t))
    else None
  }

  /** Printing an integer and parsing it back gives the same integer. */
  lemma ParseNumberOfIntToString(i: int)
    ensures ParseNumber(IntToString(i)) == Some(i)
  {
    var s := IntToString(i);
    var digits := NatToString(if i < 0 then -i else i);
    assert !IsWhitespace(s[0]) && !IsWhitespace(s[|s| - 1]);
    TrimNoEdgeWhitespace(s);
    DigitsValueOfNatToString(if i < 0 then -i else i);
    if i < 0 {
      assert s[1..] == digits;
    }
  }

  /** A string with no whitespace at either end that is not an optionally signed digit string is not a finite number. */
  lemma ParseNumberRejectsNonNumeric(s: string)
    requires s != [] && !IsWhitespace(s[0]) && !IsWhitespace(s[|s| - 1])
    requires !AllDigits(s) && !((s[0] == '-' || s[0] == '+') && |s| > 1 && AllDigits(s[1..]))
    ensures ParseNumber(s) == None
  {
    TrimNoEdgeWhitespace(s);
  }

  /** `Array.prototype.join(sep)`. */
  function Join(parts: seq<string>, sep: string): string {
    if |parts| == 0 then ""
    else if |parts| == 1 then parts[0]
    else parts[0] + sep + Join(parts[1..], sep)
  }

  /** `String.prototype.split(c)` for a one-character separator: the inverse of `Join`. */
  function Split(s: string, c: char): (parts: seq<string>)
    ensures |parts| >= 1
    decreases |s|
  {
    if c !in s then [s]
    else
      var i := IndexOfChar(s, c);
      [s[..i]] + Split(s[i + 1..], c)
  }

  /** The first position of `c` in `s`. */
  function IndexOfChar(s: string, c: char): (i: nat)
    requires c in s
    ensures i < |s| && s[i] == c && c !in s[..i]
  {
    if s[0] == c then 0 else 1 + IndexOfChar(s[1..], c)
  }

  lemma IndexOfCharAfterPrefix(p: string, c: char, rest: string)
    requires c !in p
    ensures c in p + [c] + rest && IndexOfChar(p + [c] + rest, c) == |p|
  {
    var s := p + [c] + rest;
    assert s[|p|] == c;
    assert s[..|p|] == p;
  }

  /** Splitting a joined list at its separator recovers the list when no part holds the separator. */
  lemma {:induction false} SplitJoin(parts: seq<string>, c: char)
    requires |parts| >= 1
    requires forall k :: 0 <= k < |parts| ==> c !in parts[k]
    ensures Split(Join(parts, [c]), c) == parts
  {
    if |parts| > 1 {
      var s := Join(parts, [c]);
      var rest := parts[1..];
      var tail := Join(rest, [c]);
      assert s == parts[0] + [c] + tail;
      IndexOfCharAfterPrefix(parts[0], c, tail);
      assert s[..|parts[0]|] == parts[0];
      assert s[|parts[0]| + 1..] == tail;
      assert Split(s, c) == [parts[0]] + Split(tail, c);
      assert forall k :: 0 <= k < |rest| ==> rest[k] == parts[k + 1];
      SplitJoin(rest, c);
      assert parts == [parts[0]] + rest;
    }
  }
}
