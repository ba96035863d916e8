/** The pieces of Python's text handling that the log parser relies on:
    `str.strip()` and `str.split()` with no arguments, and the grammars that
    `int()` and `float()` accept for a single whitespace-free token. Only ASCII
    digits are modelled. */
module Lexical {
  import opened Wrappers

  /** The characters that `str.split()` and `str.strip()` treat as whitespace. */
  predicate IsSpace(c: char) {
    || c == ' '
    || '\U{9}' <= c <= '\U{D}'
    || '\U{1C}' <= c <= '\U{1F}'
    || c == '\U{85}' || c == '\U{A0}' || c == '\U{1680}'
    || '\U{2000}' <= c <= '\U{200A}'
    || c == '\U{2028}' || c == '\U{2029}' || c == '\U{202F}' || c == '\U{205F}' || c == '\U{3000}'
  }

  predicate AllSpace(s: string) {
    forall i :: 0 <= i < |s| ==> IsSpace(s[i])
  }

  predicate NoSpace(s: string) {
    forall i :: 0 <= i < |s| ==> !IsSpace(s[i])
  }

  /** `s.lstrip()`. */
  function StripLeft(s: string): string {
    if s != "" && IsSpace(s[0]) then StripLeft(s[1..]) else s
  }

  /** `s.rstrip()`. */
  function StripRight(s: string): string {
    if s != "" && IsSpace(s[|s| - 1]) then StripRight(s[..|s| - 1]) else s
  }

  /** `s.strip()`. */
  function Strip(s: string): string {
    StripRight(StripLeft(s))
  }

  /** `lstrip` drops the leading whitespace and nothing else. */
  lemma {:induction false} StripLeftSpec(s: string)
    ensures |StripLeft(s)| <= |s| && StripLeft(s) == s[|s| - |StripLeft(s)|..]
    ensures AllSpace(s[..|s| - |StripLeft(s)|])
    ensures StripLeft(s) != "" ==> !IsSpace(StripLeft(s)[0])
  {
    if s != "" && IsSpace(s[0]) {
      StripLeftSpec(s[1..]);
      var r := StripLeft(s);
      assert s[..|s| - |r|] == [s[0]] + s[1..][..|s| - 1 - |r|];
    }
  }

  /** `rstrip` drops the trailing whitespace and nothing else. */
  lemma {:induction false} StripRightSpec(s: string)
    ensures |StripRight(s)| <= |s| && StripRight(s) == s[..|StripRight(s)|]
    ensures AllSpace(s[|StripRight(s)|..])
    ensures StripRight(s) != "" ==> !IsSpace(StripRight(s)[|StripRight(s)| - 1])
  {
    if s != "" && IsSpace(s[|s| - 1]) {
      StripRightSpec(s[..|s| - 1]);
      var r := StripRight(s);
      assert s[|r|..] == s[..|s| - 1][|r|..] + [s[|s| - 1]];
    }
  }

  /** `strip` leaves nothing exactly when the text is all whitespace, and
      otherwise a text that begins and ends with a non-space. */
  lemma StripSpec(s: string)
    ensures Strip(s) == "" <==> AllSpace(s)
    ensures Strip(s) != "" ==> !IsSpace(Strip(s)[0]) && !IsSpace(Strip(s)[|Strip(s)| - 1])
  {
    var left := StripLeft(s);
    StripLeftSpec(s);
    StripRightSpec(left);
    var r := StripRight(left);
    if r == "" {
      assert s == s[..|s| - |left|] + left;
    } else {
      assert r[0] == left[0];
    }
  }

  /** Length of the longest whitespace-free prefix of s. */
  function WordLength(s: string): (n: nat)
    ensures n <= |s|
  {
    if s == "" || IsSpace(s[0]) then 0 else 1 + WordLength(s[1..])
  }

  lemma {:induction false} WordLengthSpec(s: string)
    ensures NoSpace(s[..WordLength(s)])
    ensures WordLength(s) < |s| ==> IsSpace(s[WordLength(s)])
  {
    if s != "" && !IsSpace(s[0]) {
      WordLengthSpec(s[1..]);
      assert s[..WordLength(s)] == [s[0]] + s[1..][..WordLength(s[1..])];
    }
  }

  /** `s.split()`. */
  function Split(s: string): seq<string>
    decreases |s|
  {
    if s == "" then []
    else if IsSpace(s[0]) then Split(s[1..])
    else
      var n := WordLength(s);
      [s[..n]] + Split(s[n..])
  }

  /** `split` gives the maximal whitespace-free pieces: none is empty or holds
      a space, and there are none exactly when the text is all whitespace. */
  lemma {:induction false} SplitSpec(s: string)
    ensures forall w :: w in Split(s) ==> w != "" && NoSpace(w)
    ensures Split(s) == [] <==> AllSpace(s)
    decreases |s|
  {
    if s == "" {
    } else if IsSpace(s[0]) {
      SplitSpec(s[1..]);
      assert AllSpace(s) <==> AllSpace(s[1..]) by {
        assert forall i :: 0 < i < |s| ==> s[i] == s[1..][i - 1];
      }
    } else {
      var n := WordLength(s);
      WordLengthSpec(s);
      SplitSpec(s[n..]);
      assert s[..n] != "" by { assert s[..n][0] == s[0]; }
      assert !AllSpace(s) by { assert !IsSpace(s[0]); }
    }
  }

  /** `" ".join(words)`. */
  function Join(words: seq<string>): string {
    if words == [] then ""
    else if |words| == 1 then words[0]
    else words[0] + " " + Join(words[1..])
  }

  lemma WordLengthOfWord(w: string, t: string)
    requires NoSpace(w)
    requires t == "" || IsSpace(t[0])
    ensures WordLength(w + t) == |w|
    decreases |w|
  {
    if w != "" {
      assert (w + t)[1..] == w[1..] + t;
      WordLengthOfWord(w[1..], t);
    } else {
      assert w + t == t;
    }
  }

  lemma SplitWordThen(w: string, t: string)
    requires w != "" && NoSpace(w)
    requires t == "" || IsSpace(t[0])
    ensures Split(w + t) == [w] + Split(t)
  {
    WordLengthOfWord(w, t);
    assert (w + t)[..|w|] == w;
    assert (w + t)[|w|..] == t;
  }

  /** One word in front of a space-joined list splits off as its first word. */
  lemma SplitJoinStep(w: string, rest: seq<string>)
    requires w != "" && NoSpace(w) && rest != []
    ensures Split(w + " " + Join(rest)) == [w] + Split(Join(rest))
  {
    var tail := " " + Join(rest);
    assert w + " " + Join(rest) == w + tail;
    SplitWordThen(w, tail);
    assert tail[0] == ' ' && tail[1..] == Join(rest);
    assert Split(tail) == Split(Join(rest));
  }

  /** Splitting words joined with single spaces gives the words back. */
  lemma {:induction false} SplitJoin(words: seq<string>)
    requires forall w :: w in words ==> w != "" && NoSpace(w)
    ensures Split(Join(words)) == words
  {
    if |words| == 1 {
      assert words[0] in words;
      SplitWordThen(words[0], "");
      assert words[0] + "" == words[0];
    } else if |words| > 1 {
      assert words[0] in words;
      assert forall w :: w in words[1..] ==> w in words;
      SplitJoin(words[1..]);
      SplitJoinStep(words[0], words[1..]);
      assert words == [words[0]] + words[1..];
    }
  }

  predicate IsDigit(c: char) {
    '0' <= c <= '9'
  }

  function DigitValue(c: char): nat
    requires IsDigit(c)
  {
    c as int - '0' as int
  }

  function DigitChar(d: nat): (c: char)
    requires d < 10
    ensures IsDigit(c) && DigitValue(c) == d
  {
    ('0' as int + d) as char
  }

  /** The `digitpart` of Python's numeric grammars: ASCII digits, with single
      underscores allowed between two digits. */
  predicate IsDigitPart(s: string) {
    && s != ""
    && IsDigit(s[0])
    && IsDigit(s[|s| - 1])
    && forall i :: 0 < i < |s| - 1 ==> DigitOrJoiner(s, i)
  }

  predicate DigitOrJoiner(s: string, i: nat)
    requires 0 < i < |s| - 1
  {
    IsDigit(s[i]) || (s[i] == '_' && IsDigit(s[i - 1]) && IsDigit(s[i + 1]))
  }

  lemma DigitPartChar(s: string, i: nat)
    requires IsDigitPart(s) && i < |s|
    ensures IsDigit(s[i]) || s[i] == '_'
  {
    if 0 < i < |s| - 1 {
      assert DigitOrJoiner(s, i);
    }
  }

  /** The number written by the digits of s, underscores skipped. */
  function DigitsValue(s: string): nat {
    if s == "" then 0
    else if IsDigit(s[|s| - 1]) then 10 * DigitsValue(s[..|s| - 1]) + DigitValue(s[|s| - 1])
    else DigitsValue(s[..|s| - 1])
  }

  /** How many digits s holds. */
  function DigitCount(s: string): nat {
    if s == "" then 0
    else (if IsDigit(s[|s| - 1]) then 1 else 0) + DigitCount(s[..|s| - 1])
  }

  /** A leading '+' or '-' (true when negative) and the text after it. */
  function SplitSign(s: string): (bool, string) {
    if s != "" && (s[0] == '+' || s[0] == '-') then (s[0] == '-', s[1..]) else (false, s)
  }

  /** `int(s)` for a whitespace-free token: `[sign] digitpart`. */
  function ParseInt(s: string): Option<int> {
    var (negative, digits) := SplitSign(s);
    if IsDigitPart(digits) then
      Some(if negative then -(DigitsValue(digits) as int) else DigitsValue(digits) as int)
    else None
  }

  /** Index of the first character of s satisfying `stop`, or |s|. */
  function IndexWhere(s: string, stop: char -> bool): (i: nat)
    ensures i <= |s|
    ensures i < |s| ==> stop(s[i])
    ensures forall k :: 0 <= k < i ==> !stop(s[k])
  {
    if s == "" || stop(s[0]) then 0 else 1 + IndexWhere(s[1..], stop)
  }

  function Pow10(e: int): (r: real)
    ensures r > 0.0
    decreases if e < 0 then -e else e
  {
    if e == 0 then 1.0
    else if e > 0 then 10.0 * Pow10(e - 1)
    else Pow10(e + 1) / 10.0
  }

  predicate IsPoint(c: char) {
    c == '.'
  }

  predicate IsExponentMark(c: char) {
    c == 'e' || c == 'E'
  }

  /** The number written `whole.fraction`. */
  function PointValue(whole: string, fraction: string): real {
    DigitsValue(whole) as real + DigitsValue(fraction) as real / Pow10(DigitCount(fraction))
  }

  /** The mantissa of a Python float literal:
      `digitpart ['.' [digitpart]]` or `'.' digitpart`. */
  function ParseMantissa(m: string): Option<real> {
    var dot := IndexWhere(m, IsPoint);
    if dot == |m| then
      if IsDigitPart(m) then Some(DigitsValue(m) as real) else None
    else
      var whole, fraction := m[..dot], m[dot + 1..];
      if (whole == "" || IsDigitPart(whole)) && (fraction == "" || IsDigitPart(fraction))
         && !(whole == "" && fraction == "")
      then Some(PointValue(whole, fraction))
      else None
  }

  /** `float(s)` for a whitespace-free token holding a finite literal:
      `[sign] mantissa [('e' | 'E') [sign] digitpart]`. */
  function ParseDecimal(s: string): Option<real> {
    var (negative, body) := SplitSign(s);
    var e := IndexWhere(body, IsExponentMark);
    var exponent := if e == |body| then Some(0) else ParseInt(body[e + 1..]);
    match (ParseMantissa(body[..e]), exponent)
    case (Some(m), Some(x)) => Some(if negative then -(m * Pow10(x)) else m * Pow10(x))
    case _ => None
  }

  /** The decimal rendering of n that Python's `str(n)` gives. */
  function NatLiteral(n: nat): (s: string)
    ensures s != ""
    ensures forall i :: 0 <= i < |s| ==> IsDigit(s[i])
  {
    if n < 10 then [DigitChar(n)] else NatLiteral(n / 10) + [DigitChar(n % 10)]
  }

  function IntLiteral(n: int): string {
    if n < 0 then "-" + NatLiteral(-n) else NatLiteral(n)
  }

  lemma {:induction false} NatLiteralValue(n: nat)
    ensures DigitsValue(NatLiteral(n)) == n
  {
    if n >= 10 {
      var s := NatLiteral(n);
      assert s[..|s| - 1] == NatLiteral(n / 10);
      NatLiteralValue(n / 10);
    }
  }

  /** `int(str(n)) == n`. */
  lemma ParseIntLiteral(n: int)
    ensures ParseInt(IntLiteral(n)) == Some(n)
  {
    var m := if n < 0 then -n else n;
    NatLiteralValue(m);
    var digits := NatLiteral(m);
    assert IsDigitPart(digits);
    if n < 0 {
      assert SplitSign(IntLiteral(n)) == (true, digits);
    } else {
      assert SplitSign(IntLiteral(n)) == (false, digits);
    }
  }

  /** A run of digits with no joiner counts one digit per character. */
  lemma {:induction false} DigitCountAll(f: string)
    requires forall i :: 0 <= i < |f| ==> IsDigit(f[i])
    ensures DigitCount(f) == |f|
  {
    if f != "" {
      DigitCountAll(f[..|f| - 1]);
    }
  }

  /** A run of digits with no joiner is a `digitpart` as soon as it is non-empty. */
  lemma AllDigitsIsDigitPart(f: string)
    requires f != "" && forall i :: 0 <= i < |f| ==> IsDigit(f[i])
    ensures IsDigitPart(f)
  {
    forall i | 0 < i < |f| - 1
      ensures DigitOrJoiner(f, i)
    {
    }
  }

  /** The first stopping character of w + [c] + f is c when w has none. */
  lemma IndexWhereAfter(w: string, c: char, f: string, stop: char -> bool)
    requires stop(c) && forall k :: 0 <= k < |w| ==> !stop(w[k])
    ensures IndexWhere(w + [c] + f, stop) == |w|
  {
    var s := w + [c] + f;
    assert s[|w|] == c;
    assert forall k :: 0 <= k < |w| ==> s[k] == w[k];
  }

  /** A token with neither sign nor exponent is read by `float()` as its mantissa. */
  lemma PlainDecimal(s: string)
    requires s != "" && IsDigit(s[0])
    requires forall k :: 0 <= k < |s| ==> !IsExponentMark(s[k])
    ensures ParseDecimal(s) == ParseMantissa(s)
  {
    assert SplitSign(s) == (false, s);
    assert IndexWhere(s, IsExponentMark) == |s|;
    assert s[..|s|] == s;
  }

  /** A mantissa with a point at d and digit parts on both sides of it. */
  lemma MantissaAt(m: string, d: nat)
    requires d == IndexWhere(m, IsPoint) && d < |m|
    requires IsDigitPart(m[..d]) && IsDigitPart(m[d + 1..])
    ensures ParseMantissa(m) == Some(PointValue(m[..d], m[d + 1..]))
  {
  }

  /** In `w.f`, with no point in w, the first point separates w from f. */
  lemma PointSplit(w: string, f: string)
    requires forall i :: 0 <= i < |w| ==> IsDigit(w[i])
    ensures var s := w + "." + f;
      IndexWhere(s, IsPoint) == |w| && s[..|w|] == w && s[|w| + 1..] == f
  {
    var s := w + "." + f;
    assert s == w + ['.'] + f;
    IndexWhereAfter(w, '.', f, IsPoint);
  }

  /** The mantissa `w.f` of two non-empty runs of digits is the number they write. */
  lemma PointMantissa(w: string, f: string)
    requires w != "" && forall i :: 0 <= i < |w| ==> IsDigit(w[i])
    requires f != "" && forall i :: 0 <= i < |f| ==> IsDigit(f[i])
    ensures ParseMantissa(w + "." + f) == Some(PointValue(w, f))
  {
    PointSplit(w, f);
    AllDigitsIsDigitPart(w);
    AllDigitsIsDigitPart(f);
    MantissaAt(w + "." + f, |w|);
  }

  /** `float()` reads the literal `a.f`, the decimal rendering of a natural
      number, a point and a non-empty run of digits, as a + f / 10^|f|. */
  lemma PointLiteral(a: nat, f: string)
    requires f != "" && forall i :: 0 <= i < |f| ==> IsDigit(f[i])
    ensures ParseDecimal(NatLiteral(a) + "." + f) == Some(a as real + DigitsValue(f) as real / Pow10(|f|))
  {
    var w := NatLiteral(a);
    var s := w + "." + f;
    forall k | 0 <= k < |s|
      ensures !IsExponentMark(s[k])
    {
      if k < |w| {
        assert s[k] == w[k];
      } else if k > |w| {
        assert s[k] == f[k - |w| - 1];
      }
    }
    assert s[0] == w[0];
    PlainDecimal(s);
    PointMantissa(w, f);
    NatLiteralValue(a);
    DigitCountAll(f);
  }

  /** `float()` reads `a.d`, one digit after the point, as a + d / 10. */
  lemma TenthsLiteral(a: nat, d: nat)
    requires d < 10
    ensures ParseDecimal(NatLiteral(a) + "." + [DigitChar(d)]) == Some(a as real + d as real / 10.0)
  {
    var f := [DigitChar(d)];
    PointLiteral(a, f);
    assert f[..0] == "";
    assert Pow10(1) == 10.0;
  }

  /** Every token `int()` accepts, `float()` accepts too, with the same value. */
  lemma IntTokenIsDecimal(s: string)
    requires ParseInt(s).Some?
    ensures ParseDecimal(s) == Some(ParseInt(s).value as real)
  {
    var (negative, body) := SplitSign(s);
    var e := IndexWhere(body, IsExponentMark);
    if e < |body| {
      DigitPartChar(body, e);
    }
    assert body[..e] == body;
    var dot := IndexWhere(body, IsPoint);
    if dot < |body| {
      DigitPartChar(body, dot);
    }
  }
}
