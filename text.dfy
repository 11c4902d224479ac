/**
 * The pieces of java.lang.String and java.util.Formatter that the core relies
 * on: decimal rendering (`String.valueOf`, `%d`, `%02d`), `contains`,
 * `replace`, `lastIndexOf`, `trim`, `hashCode`, and a stand-in for the
 * floating-point `%.1f` renderings that the model does not compute.
 */
module Text {
  import opened Base

  predicate IsDigit(c: char) { '0' <= c <= '9' }

  predicate AllDigits(s: string) { forall i :: 0 <= i < |s| ==> IsDigit(s[i]) }

  function DigitValue(c: char): (d: nat)
    requires IsDigit(c)
    ensures d < 10
  {
    c as int - '0' as int
  }

  function DigitChar(d: nat): (c: char)
    requires d < 10
    ensures IsDigit(c) && DigitValue(c) == d
  {
    (d + '0' as int) as char
  }

  /** Decimal rendering of a non-negative number, without leading zeros. */
  function NatToString(n: nat): (s: string)
    ensures 1 <= |s| && AllDigits(s)
    ensures |s| == 1 <==> n < 10
    ensures s[0] == '0' <==> n == 0
    decreases n
  {
    if n < 10 then [DigitChar(n)] else NatToString(n / 10) + [DigitChar(n % 10)]
  }

  /** Java's `String.valueOf(long)` / `%d`: a minus sign for negative values. */
  function IntToString(n: int): (s: string)
    ensures n >= 0 ==> s == NatToString(n)
    ensures n < 0 ==> s == "-" + NatToString(-n)
  {
    if n < 0 then "-" + NatToString(-n) else NatToString(n)
  }

  /** Java's `%02d`: zero-padded to two characters; wider values and negative values are not padded. */
  function Pad2(n: int): (s: string)
    ensures 0 <= n < 100 ==> |s| == 2 && AllDigits(s)
    ensures n >= 10 || n < 0 ==> s == IntToString(n)
  {
    if 0 <= n < 10 then ['0', DigitChar(n)] else IntToString(n)
  }
  /** A single digit is written as itself, and padded with one leading zero. */
  lemma SingleDigit(n: int)
    requires 0 <= n < 10
    ensures IntToString(n) == [DigitChar(n)] && Pad2(n) == ['0', DigitChar(n)]
  {
  }


  /** The value of a string of decimal digits. */
  function DigitsValue(s: string): nat
    requires AllDigits(s)
  {
    if s == [] then 0 else 10 * DigitsValue(s[..|s| - 1]) + DigitValue(s[|s| - 1])
  }

  /** Reads back a field of decimal digits; the partner of NatToString and Pad2. */
  function ParseNat(s: string): (r: Option<nat>)
    ensures r.Some? <==> s != [] && AllDigits(s)
  {
    if s != [] && AllDigits(s) then Some(DigitsValue(s)) else None
  }

  /** Reads back an optionally negative decimal number; the partner of IntToString. */
  function ParseInt(s: string): (r: Option<int>)
  {
    if |s| >= 2 && s[0] == '-' then
      match ParseNat(s[1..])
      case Some(n) => if n > 0 then Some(-(n as int)) else None
      case None => None
    else
      match ParseNat(s)
      case Some(n) => Some(n)
      case None => None
  }

  lemma {:induction false} ParseNatToString(n: nat)
    ensures ParseNat(NatToString(n)) == Some(n)
    decreases n
  {
    var s := NatToString(n);
    if n >= 10 {
      ParseNatToString(n / 10);
      var init := s[..|s| - 1];
      assert init == NatToString(n / 10);
      assert DigitsValue(init) == n / 10;
      assert DigitValue(s[|s| - 1]) == n % 10;
      assert DigitsValue(s) == 10 * (n / 10) + n % 10;
    } else {
      assert s[..0] == [];
      assert DigitsValue(s) == 10 * DigitsValue([]) + n;
    }
  }

  lemma NatToStringInjective(a: nat, b: nat)
    requires NatToString(a) == NatToString(b)
    ensures a == b
  {
    ParseNatToString(a);
    ParseNatToString(b);
  }

  lemma IntToStringRoundTrip(n: int)
    ensures ParseInt(IntToString(n)) == Some(n)
  {
    ParseNatToString(if n < 0 then -n else n);
    if n < 0 {
      assert IntToString(n)[1..] == NatToString(-n);
    }
  }

  lemma Pad2RoundTrip(n: int)
    requires n >= 0
    ensures ParseNat(Pad2(n)) == Some(n)
  {
    if n < 10 {
      var s := Pad2(n);
      assert s[..1] == "0";
      assert "0"[..0] == [];
      assert DigitsValue("0") == 0;
      assert DigitsValue(s) == 10 * DigitsValue("0") + n;
    } else {
      ParseNatToString(n);
    }
  }

  /** `s.startsWith(prefix)`. */
  predicate StartsWith(s: string, prefix: string)
  {
    |prefix| <= |s| && s[..|prefix|] == prefix
  }

  /** Java's `s.contains(sub)`: `sub` occurs as a contiguous piece of `s`. */
  predicate Contains(s: string, sub: string)
    decreases |s|
  {
    StartsWith(s, sub) || (s != [] && Contains(s[1..], sub))
  }

  /** Java's `s.replace(String.valueOf(c), "")`: every occurrence of `c` removed. */
  function RemoveChar(s: string, c: char): (r: string)
    ensures c !in r
    ensures forall x :: x in r <==> x in s && x != c
    ensures c !in s ==> r == s
    ensures |r| <= |s|
  {
    if s == [] then []
    else (if s[0] == c then [] else [s[0]]) + RemoveChar(s[1..], c)
  }

  /** Removal keeps everything else in order: it works piece by piece over a concatenation. */
  lemma {:induction false} RemoveCharAppend(a: string, b: string, c: char)
    ensures RemoveChar(a + b, c) == RemoveChar(a, c) + RemoveChar(b, c)
    decreases |a|
  {
    if a != [] {
      assert (a + b)[0] == a[0] && (a + b)[1..] == a[1..] + b;
      RemoveCharAppend(a[1..], b, c);
    } else {
      assert a + b == b;
    }
  }

  /** On one character, removal drops it exactly when it is `c`. */
  lemma RemoveCharSingle(x: char, c: char)
    ensures RemoveChar([x], c) == if x == c then [] else [x]
  {
    assert [x][1..] == [];
  }

  /** Java's `s.indexOf(c)`: the first position of `c`, or -1. */
  function IndexOfChar(s: string, c: char): (k: int)
    ensures -1 <= k < |s|
    ensures k == -1 <==> c !in s
    ensures k >= 0 ==> s[k] == c && c !in s[..k]
  {
    if s == [] then -1
    else if s[0] == c then 0
    else var k := IndexOfChar(s[1..], c);
      assert k >= 0 ==> s[..k + 1] == [s[0]] + s[1..][..k];
      if k < 0 then -1 else k + 1
  }

  /** Java's `s.lastIndexOf(c)`: the last position of `c`, or -1. */
  function LastIndexOfChar(s: string, c: char): (k: int)
    ensures -1 <= k < |s|
    ensures k == -1 <==> c !in s
    ensures k >= 0 ==> s[k] == c && c !in s[k + 1..]
  {
    if s == [] then -1
    else if s[|s| - 1] == c then |s| - 1
    else
      var k := LastIndexOfChar(s[..|s| - 1], c);
      LastIndexStep(s[..|s| - 1], s[|s| - 1], c, k);
      assert s == s[..|s| - 1] + [s[|s| - 1]];
      k
  }

  /** Appending a character other than c keeps the last position of c. */
  lemma LastIndexStep(p: string, last: char, c: char, k: int)
    requires last != c && -1 <= k < |p|
    requires k == -1 <==> c !in p
    requires k >= 0 ==> p[k] == c && c !in p[k + 1..]
    ensures k == -1 <==> c !in p + [last]
    ensures k >= 0 ==> c !in (p + [last])[k + 1..]
  {
    var s := p + [last];
    if k == -1 {
      forall i | 0 <= i < |s|
        ensures s[i] != c
      {
        if i < |p| {
          assert s[i] == p[i];
        }
      }
    } else {
      assert s[k] == c;
      assert s[k + 1..] == p[k + 1..] + [last];
    }
  }

  lemma {:induction false} LastIndexOfAppend(a: string, c: char, b: string)
    requires c !in b
    ensures LastIndexOfChar(a + [c] + b, c) == |a|
    decreases |b|
  {
    var s := a + [c] + b;
    if b != [] {
      var b' := b[..|b| - 1];
      assert s[|s| - 1] == b[|b| - 1];
      assert s[..|s| - 1] == a + [c] + b';
      LastIndexOfAppend(a, c, b');
    }
  }

  /** The pieces of `s` between occurrences of `c` (used to read rendered clock times back). */
  function Split(s: string, c: char): (parts: seq<string>)
    ensures |parts| >= 1
    ensures forall i :: 0 <= i < |parts| ==> c !in parts[i]
    decreases |s|
  {
    var k := IndexOfChar(s, c);
    if k < 0 then [s] else [s[..k]] + Split(s[k + 1..], c)
  }

  lemma SplitAt(a: string, c: char, b: string)
    requires c !in a
    ensures Split(a + [c] + b, c) == [a] + Split(b, c)
  {
    var s := a + [c] + b;
    var k := IndexOfChar(s, c);
    assert s[|a|] == c;
    assert forall j :: 0 <= j < |a| ==> s[j] == a[j];
    assert s[..k] == a;
    assert s[k + 1..] == b;
  }

  /** Java's string concatenation of a possibly null String: null is written as "null". */
  function JavaStr(s: Option<string>): string
  {
    match s
    case Some(t) => t
    case None => "null"
  }

  /**
   * Reads a rendered clock time back into seconds: "h:mm:ss" or "m:ss", each
   * field decimal digits. The partner of the duration formatters.
   */
  function ClockValue(t: string): Option<nat>
  {
    ClockFieldsValue(Split(t, ':'))
  }

  function ClockFieldsValue(parts: seq<string>): Option<nat>
  {
    if |parts| == 2 then
      var m, s := ParseNat(parts[0]), ParseNat(parts[1]);
      if m.Some? && s.Some? then Some(60 * m.value + s.value) else None
    else if |parts| == 3 then
      var h, m, s := ParseNat(parts[0]), ParseNat(parts[1]), ParseNat(parts[2]);
      if h.Some? && m.Some? && s.Some? then Some(3600 * h.value + 60 * m.value + s.value) else None
    else None
  }

  lemma SplitWhole(s: string, c: char)
    requires c !in s
    ensures Split(s, c) == [s]
  {
  }

  lemma NoColonIn(s: string)
    requires ParseNat(s).Some?
    ensures ':' !in s
  {
  }

  /** A minute or second field of a clock: two digits with a value below 60. */
  predicate SixtyField(x: string)
  {
    |x| == 2 && AllDigits(x) && ParseNat(x).Some? && ParseNat(x).value < 60
  }

  /** Two digit fields joined by ':' read back as 60 * first + second. */
  lemma ClockValueOfTwo(a: string, b: string, m: nat, s: nat)
    requires ParseNat(a) == Some(m) && ParseNat(b) == Some(s)
    ensures ClockValue(a + ":" + b) == Some(60 * m + s)
  {
    NoColonIn(a);
    NoColonIn(b);
    assert a + ":" + b == a + [':'] + b;
    SplitAt(a, ':', b);
    SplitWhole(b, ':');
  }

  lemma SplitThree(a: string, b: string, c: string)
    requires ':' !in a && ':' !in b && ':' !in c
    ensures Split(a + ":" + b + ":" + c, ':') == [a, b, c]
  {
    var tail := b + [':'] + c;
    assert a + ":" + b + ":" + c == a + [':'] + tail;
    SplitAt(a, ':', tail);
    SplitAt(b, ':', c);
    SplitWhole(c, ':');
  }

  lemma FieldsOfThree(a: string, b: string, c: string, h: nat, m: nat, s: nat)
    requires ParseNat(a) == Some(h) && ParseNat(b) == Some(m) && ParseNat(c) == Some(s)
    ensures ClockFieldsValue([a, b, c]) == Some(3600 * h + 60 * m + s)
  {
    var parts := [a, b, c];
    assert parts[0] == a && parts[1] == b && parts[2] == c;
  }

  /** Three digit fields joined by ':' read back as 3600 * first + 60 * second + third. */
  lemma ClockValueOfThree(a: string, b: string, c: string, h: nat, m: nat, s: nat)
    requires ParseNat(a) == Some(h) && ParseNat(b) == Some(m) && ParseNat(c) == Some(s)
    ensures ClockValue(a + ":" + b + ":" + c) == Some(3600 * h + 60 * m + s)
  {
    NoColonIn(a);
    NoColonIn(b);
    NoColonIn(c);
    SplitThree(a, b, c);
    FieldsOfThree(a, b, c, h, m, s);
  }

  /** Java's `trim` removes every leading and trailing character at or below U+0020. */
  predicate IsJavaSpace(c: char) { c <= ' ' }

  function LeadingSpaces(s: string): (k: nat)
    ensures k <= |s|
    ensures forall i :: 0 <= i < k ==> IsJavaSpace(s[i])
    ensures k < |s| ==> !IsJavaSpace(s[k])
  {
    if s == [] || !IsJavaSpace(s[0]) then 0 else 1 + LeadingSpaces(s[1..])
  }

  function TrailingSpaces(s: string): (k: nat)
    ensures k <= |s|
    ensures forall i :: |s| - k <= i < |s| ==> IsJavaSpace(s[i])
    ensures k < |s| ==> !IsJavaSpace(s[|s| - 1 - k])
  {
    if s == [] || !IsJavaSpace(s[|s| - 1]) then 0 else 1 + TrailingSpaces(s[..|s| - 1])
  }

  /** Only spaces lie before position a and from position b on. */
  predicate TrimmedAt(s: string, a: int, b: int)
  {
    0 <= a <= b <= |s| && (forall i :: 0 <= i < a ==> IsJavaSpace(s[i])) && (forall i :: b <= i < |s| ==> IsJavaSpace(s[i]))
  }

  /** Java's `String.trim`: the slice of s between its leading and trailing runs of spaces. */
  function Trim(s: string): (r: string)
    ensures r == [] <==> forall i :: 0 <= i < |s| ==> IsJavaSpace(s[i])
    ensures r != [] ==> !IsJavaSpace(r[0]) && !IsJavaSpace(r[|r| - 1])
    ensures exists a, b :: TrimmedAt(s, a, b) && r == s[a..b]
  {
    var lead := LeadingSpaces(s);
    if lead == |s| then
      assert TrimmedAt(s, lead, lead) && s[lead..lead] == [];
      []
    else
      var t := TrailingSpaces(s);
      TrimBounds(s, lead, t);
      var b := |s| - t;
      assert s[lead..b][0] == s[lead] && s[lead..b][b - lead - 1] == s[b - 1];
      s[lead..b]
  }

  /**
   * With a non-space at position a after a leading run of a spaces, a
   * trailing run of t spaces ends before a: both runs stop at non-spaces.
   */
  lemma TrimBounds(s: string, a: nat, t: nat)
    requires a < |s| && !IsJavaSpace(s[a]) && forall i :: 0 <= i < a ==> IsJavaSpace(s[i])
    requires t <= |s| && forall i :: |s| - t <= i < |s| ==> IsJavaSpace(s[i])
    requires t < |s| ==> !IsJavaSpace(s[|s| - 1 - t])
    ensures a < |s| - t && TrimmedAt(s, a, |s| - t)
    ensures !IsJavaSpace(s[|s| - t - 1])
  {
  }

  /** Java's `String.hashCode`: h = 31*h + c over the characters, in 32-bit arithmetic. */
  function StringHash(s: string): (h: int)
    ensures INT_MIN <= h <= INT_MAX
  {
    if s == [] then 0 else Wrap32(31 * StringHash(s[..|s| - 1]) + s[|s| - 1] as int)
  }

  /** The same recurrence on unbounded integers: the hash before any wrap-around. */
  function HashSum(s: string): int
  {
    if s == [] then 0 else 31 * HashSum(s[..|s| - 1]) + s[|s| - 1] as int
  }

  function Pow31(n: nat): nat
  {
    if n == 0 then 1 else 31 * Pow31(n - 1)
  }

  /** The documented closed form s[0]*31^(n-1) + s[1]*31^(n-2) + ... + s[n-1]. */
  function HashPolynomial(s: string): int
  {
    if s == [] then 0 else s[0] as int * Pow31(|s| - 1) + HashPolynomial(s[1..])
  }

  /** Wrapping after every step gives the same `int` as wrapping the exact sum once. */
  lemma {:induction false} StringHashIsWrappedSum(s: string)
    ensures StringHash(s) == Wrap32(HashSum(s))
  {
    if s != [] {
      var p, c := s[..|s| - 1], s[|s| - 1] as int;
      StringHashIsWrappedSum(p);
      Wrap32HashStep(StringHash(p), HashSum(p), c);
    }
  }

  /** Appending a character to the closed form multiplies it by 31 and adds the character. */
  lemma {:induction false} HashPolynomialAppend(p: string, c: char)
    ensures HashPolynomial(p + [c]) == 31 * HashPolynomial(p) + c as int
    decreases |p|
  {
    if p == [] {
      assert [c][1..] == [];
    } else {
      var s := p + [c];
      assert s[1..] == p[1..] + [c];
      HashPolynomialAppend(p[1..], c);
      assert Pow31(|s| - 1) == 31 * Pow31(|p| - 1);
      calc {
        HashPolynomial(s);
        p[0] as int * Pow31(|s| - 1) + HashPolynomial(p[1..] + [c]);
        p[0] as int * (31 * Pow31(|p| - 1)) + 31 * HashPolynomial(p[1..]) + c as int;
        31 * (p[0] as int * Pow31(|p| - 1) + HashPolynomial(p[1..])) + c as int;
      }
    }
  }

  /** `String.hashCode` is the documented closed form, reduced to 32 bits. */
  lemma {:induction false} StringHashClosedForm(s: string)
    ensures HashSum(s) == HashPolynomial(s)
    ensures StringHash(s) == Wrap32(HashPolynomial(s))
  {
    if s != [] {
      var p := s[..|s| - 1];
      StringHashClosedForm(p);
      HashPolynomialAppend(p, s[|s| - 1]);
      assert p + [s[|s| - 1]] == s;
    }
    StringHashIsWrappedSum(s);
  }

  /**
   * A rendered label. `OneDecimal(n, d, suffix)` stands for Java's
   * `String.format("%.1f", n / (double) d)` followed by `suffix`: the
   * floating-point digits are not computed by the model.
   */
  datatype Shown = Plain(text: string) | OneDecimal(numerator: int, denominator: nat, suffix: string)

  /** Appends plain text to a rendered label. */
  function Append(sh: Shown, tail: string): (r: Shown)
    ensures r.Plain? == sh.Plain?
    ensures r.OneDecimal? ==> r.numerator == sh.numerator && r.denominator == sh.denominator
  {
    match sh
    case Plain(t) => Plain(t + tail)
    case OneDecimal(n, d, sfx) => OneDecimal(n, d, sfx + tail)
  }

  /** Two appends are one append of the joined text. */
  lemma AppendTwice(sh: Shown, a: string, b: string)
    ensures Append(Append(sh, a), b) == Append(sh, a + b)
  {
    match sh
    case Plain(t) => assert t + a + b == t + (a + b);
    case OneDecimal(n, d, sfx) => assert sfx + a + b == sfx + (a + b);
  }

  /** A rendered label is empty only if it is the empty plain text (a `%.1f` rendering always has digits). */
  predicate IsBlank(sh: Shown) { sh == Plain("") }
}
