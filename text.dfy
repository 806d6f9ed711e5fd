/** The string operations the handlers rely on: `String.prototype.trim`, decimal rendering of a
    number in a template literal, and the `<` comparison of two strings. */
module Text {

  /** JavaScript's WhiteSpace and LineTerminator characters, which `trim` strips. */
  const JsWhitespace: set<char> :=
    {'\t', '\n', '\U{000B}', '\U{000C}', '\r', ' ', '\U{00A0}', '\U{1680}',
     '\U{2000}', '\U{2001}', '\U{2002}', '\U{2003}', '\U{2004}', '\U{2005}', '\U{2006}',
     '\U{2007}', '\U{2008}', '\U{2009}', '\U{200A}', '\U{2028}', '\U{2029}', '\U{202F}',
     '\U{205F}', '\U{3000}', '\U{FEFF}'}

  predicate IsJsWhitespace(c: char) {
    c in JsWhitespace
  }

  predicate AllWhitespace(s: string) {
    forall i :: 0 <= i < |s| ==> IsJsWhitespace(s[i])
  }

  /** How many whitespace characters `s` starts with. */
  function LeadingCount(s: string): (n: nat)
    ensures n <= |s|
    ensures forall i :: 0 <= i < n ==> IsJsWhitespace(s[i])
    ensures n < |s| ==> !IsJsWhitespace(s[n])
    decreases |s|
  {
    if s != [] && IsJsWhitespace(s[0]) then 1 + LeadingCount(s[1..]) else 0
  }

  /** Where the whitespace `s` ends with begins. */
  function TrailingStart(s: string): (m: nat)
    ensures m <= |s|
    ensures forall i :: m <= i < |s| ==> IsJsWhitespace(s[i])
    ensures 0 < m ==> !IsJsWhitespace(s[m - 1])
    decreases |s|
  {
    if s != [] && IsJsWhitespace(s[|s| - 1]) then TrailingStart(s[..|s| - 1]) else |s|
  }

  /** `s.trim()`: the part of `s` between its leading and its trailing whitespace. Everything
      it drops is whitespace, and what it keeps neither starts nor ends with whitespace. */
  function Trim(s: string): (r: string)
    ensures r == [] <==> AllWhitespace(s)
    ensures r != [] ==> !IsJsWhitespace(r[0]) && !IsJsWhitespace(r[|r| - 1])
    ensures LeadingCount(s) + |r| <= |s|
    ensures forall i :: 0 <= i < |r| ==> r[i] == s[LeadingCount(s) + i]
    ensures forall i :: 0 <= i < |s| && !(LeadingCount(s) <= i < LeadingCount(s) + |r|) ==>
              IsJsWhitespace(s[i])
  {
    var n := LeadingCount(s);
    var m := TrailingStart(s);
    if n < m then s[n..m] else []
  }

  /** Trimming an already trimmed string changes nothing. */
  lemma TrimIdempotent(s: string)
    ensures Trim(Trim(s)) == Trim(s)
  {
    var t := Trim(s);
    if t != [] {
      assert LeadingCount(t) == 0;
      assert TrailingStart(t) == |t|;
      assert t[0..|t|] == t;
    }
  }

  // ---------------------------------------------------------------------------------------------
  // Decimal digits

  predicate IsDigit(c: char) { '0' <= c <= '9' }

  predicate AllDigits(s: string) { forall i :: 0 <= i < |s| ==> IsDigit(s[i]) }

  function DigitChar(d: nat): (c: char)
    requires d < 10
    ensures IsDigit(c) && DigitValue(c) == d
  {
    (48 + d) as char
  }

  function DigitValue(c: char): (d: nat)
    requires IsDigit(c)
    ensures d < 10
  {
    (c as int) - 48
  }

  /** The value of a string of decimal digits. */
  function DigitsValue(s: string): nat
    requires AllDigits(s)
    decreases |s|
  {
    if s == [] then 0 else DigitsValue(s[..|s| - 1]) * 10 + DigitValue(s[|s| - 1])
  }

  /** `${n}` for a non-negative integer `n`: its decimal digits without leading zeros. */
  function NatToString(n: nat): (r: string)
    ensures r != [] && AllDigits(r)
    ensures |r| > 1 ==> r[0] != '0'
    ensures DigitsValue(r) == n
    decreases n
  {
    if n < 10 then [DigitChar(n)]
    else
      var prefix := NatToString(n / 10);
      var r := prefix + [DigitChar(n % 10)];
      assert r[..|r| - 1] == prefix;
      r
  }

  /** Distinct numbers render as distinct strings. */
  lemma NatToStringInjective(a: nat, b: nat)
    requires NatToString(a) == NatToString(b)
    ensures a == b
  {
    assert a == DigitsValue(NatToString(a));
  }

  // ---------------------------------------------------------------------------------------------
  // String comparison

  /** JavaScript's `a < b` on strings: lexicographic, a proper prefix comes first. */
  predicate LexLess(a: string, b: string)
    decreases |a|
  {
    if a == [] then b != []
    else if b == [] then false
    else if a[0] != b[0] then a[0] < b[0]
    else LexLess(a[1..], b[1..])
  }

  lemma {:induction false} LexLessIrreflexive(a: string)
    ensures !LexLess(a, a)
    decreases |a|
  {
    if a != [] { LexLessIrreflexive(a[1..]); }
  }

  lemma {:induction false} LexLessTransitive(a: string, b: string, c: string)
    requires LexLess(a, b) && LexLess(b, c)
    ensures LexLess(a, c)
    decreases |a|
  {
    if a != [] && a[0] == b[0] && b[0] == c[0] {
      LexLessTransitive(a[1..], b[1..], c[1..]);
    }
  }

  /** Any two strings are equal or ordered one way, and never ordered both ways. */
  lemma {:induction false} LexLessTrichotomy(a: string, b: string)
    ensures a == b || LexLess(a, b) || LexLess(b, a)
    ensures !(LexLess(a, b) && LexLess(b, a))
    decreases |a|
  {
    if a != [] && b != [] && a[0] == b[0] {
      LexLessTrichotomy(a[1..], b[1..]);
      if a[1..] == b[1..] { assert a == [a[0]] + a[1..] && b == [b[0]] + b[1..]; }
    }
  }

  /** Comparing two concatenations whose first parts have the same length. */
  lemma {:induction false} LexLessConcat(a1: string, a2: string, b1: string, b2: string)
    requires |a1| == |b1|
    ensures LexLess(a1 + a2, b1 + b2) <==> LexLess(a1, b1) || (a1 == b1 && LexLess(a2, b2))
    decreases |a1|
  {
    if a1 != [] {
      assert (a1 + a2)[0] == a1[0] && (b1 + b2)[0] == b1[0];
      assert (a1 + a2)[1..] == a1[1..] + a2 && (b1 + b2)[1..] == b1[1..] + b2;
      LexLessConcat(a1[1..], a2, b1[1..], b2);
      if a1[0] == b1[0] && a1[1..] == b1[1..] { assert a1 == b1; }
    } else {
      assert a1 + a2 == a2 && b1 + b2 == b2;
    }
  }

  /** On digit strings of one length, string order is numeric order. */
  lemma {:induction false} DigitsOrder(a: string, b: string)
    requires |a| == |b| && AllDigits(a) && AllDigits(b)
    ensures LexLess(a, b) <==> DigitsValue(a) < DigitsValue(b)
    ensures a == b <==> DigitsValue(a) == DigitsValue(b)
    decreases |a|
  {
    if a == [] {
      return;
    }
    var n := |a| - 1;
    var a', b' := a[..n], b[..n];
    var x, y := a[n], b[n];
    assert a == a' + [x] && b == b' + [y];
    DigitsOrder(a', b');
    LexLessConcat(a', [x], b', [y]);
    LexLessTrichotomy(a', b');
    var va, vb := DigitsValue(a'), DigitsValue(b');
    assert DigitsValue(a) == va * 10 + DigitValue(x);
    assert DigitsValue(b) == vb * 10 + DigitValue(y);
    if va < vb {
      assert va * 10 + 10 <= vb * 10;
    } else if vb < va {
      assert vb * 10 + 10 <= va * 10;
    }
    assert LexLess([x], [y]) <==> x < y;
    assert x == y ==> [x] == [y];
  }

  // ---------------------------------------------------------------------------------------------
  // Calendar dates in the ISO 8601 form `YYYY-MM-DD` (what `toISOString().split('T')[0]` yields)

  predicate IsIsoDate(s: string) {
    |s| == 10 && s[4] == '-' && s[7] == '-' &&
    AllDigits(s[..4]) && AllDigits(s[5..7]) && AllDigits(s[8..])
  }

  function Year(s: string): nat requires IsIsoDate(s) { DigitsValue(s[..4]) }
  function Month(s: string): nat requires IsIsoDate(s) { DigitsValue(s[5..7]) }
  function Day(s: string): nat requires IsIsoDate(s) { DigitsValue(s[8..]) }

  /** Date `a` falls on an earlier calendar day than date `b`. */
  predicate ChronologicallyBefore(a: string, b: string)
    requires IsIsoDate(a) && IsIsoDate(b)
  {
    Year(a) < Year(b) ||
    (Year(a) == Year(b) && (Month(a) < Month(b) || (Month(a) == Month(b) && Day(a) < Day(b))))
  }

  /** For ISO dates the string comparison `a < b` is exactly "earlier calendar day". */
  lemma IsoDateOrder(a: string, b: string)
    requires IsIsoDate(a) && IsIsoDate(b)
    ensures LexLess(a, b) <==> ChronologicallyBefore(a, b)
  {
    var dash := ['-'];
    assert a == a[..4] + (dash + (a[5..7] + (dash + a[8..])));
    assert b == b[..4] + (dash + (b[5..7] + (dash + b[8..])));
    DigitsOrder(a[..4], b[..4]);
    DigitsOrder(a[5..7], b[5..7]);
    DigitsOrder(a[8..], b[8..]);
    LexLessConcat(a[..4], dash + (a[5..7] + (dash + a[8..])), b[..4], dash + (b[5..7] + (dash + b[8..])));
    LexLessIrreflexive(dash);
    LexLessConcat(dash, a[5..7] + (dash + a[8..]), dash, b[5..7] + (dash + b[8..]));
    LexLessConcat(a[5..7], dash + a[8..], b[5..7], dash + b[8..]);
    LexLessConcat(dash, a[8..], dash, b[8..]);
  }
}
