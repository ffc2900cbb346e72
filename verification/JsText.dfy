/** JavaScript's text primitives that the modelled code relies on: the `\s` and `.` character
    classes, trimming, decimal numerals and string order. A `char` is a Unicode scalar value. */
module JsText {

  /** The class `\s`, which is also what `trim` removes. */
  predicate IsSpace(c: char) {
    c == '\t' || c == '\n' || c == '\U{0B}' || c == '\U{0C}' || c == '\r' || c == ' ' ||
    c == '\U{A0}' || c == '\U{1680}' || '\U{2000}' <= c <= '\U{200A}' ||
    c == '\U{2028}' || c == '\U{2029}' || c == '\U{202F}' || c == '\U{205F}' ||
    c == '\U{3000}' || c == '\U{FEFF}'
  }

  /** What `.` refuses to match. */
  predicate IsLineTerminator(c: char) {
    c == '\n' || c == '\r' || c == '\U{2028}' || c == '\U{2029}'
  }

  /** The two classes by their code points, as ECMA-262 lists them in sections 12.2 and 12.3. */
  lemma ClassesAre(c: char)
    ensures IsSpace(c)
            <==> || 0x9 <= c as int <= 0xD || 0x2000 <= c as int <= 0x200A
                 || c as int in {0x20, 0xA0, 0x1680, 0x2028, 0x2029, 0x202F, 0x205F, 0x3000, 0xFEFF}
    ensures IsLineTerminator(c) <==> c as int in {0xA, 0xD, 0x2028, 0x2029}
  {
  }

  predicate IsDigit(c: char) { '0' <= c <= '9' }

  predicate IsLetter(c: char) { 'a' <= c <= 'z' || 'A' <= c <= 'Z' }

  predicate AllDigits(s: string) { forall c :: c in s ==> IsDigit(c) }

  predicate AllSpace(s: string) { forall c :: c in s ==> IsSpace(c) }

  predicate OneLine(s: string) { forall c :: c in s ==> !IsLineTerminator(c) }

  /** Number of leading characters in `\s`. */
  function LeadingSpaces(s: string): (n: nat)
    ensures n <= |s|
    ensures AllSpace(s[..n])
    ensures n < |s| ==> !IsSpace(s[n])
  {
    if s == [] || !IsSpace(s[0]) then 0 else
      assert forall n :: 0 <= n <= |s[1..]| ==> s[..n + 1] == [s[0]] + s[1..][..n];
      1 + LeadingSpaces(s[1..])
  }

  function TrimStart(s: string): (r: string) { s[LeadingSpaces(s)..] }

  function TrimEnd(s: string): (r: string)
    ensures |r| <= |s| && r == s[..|r|]
    ensures AllSpace(s[|r|..])
    ensures r != [] ==> !IsSpace(r[|r| - 1])
  {
    if s == [] || !IsSpace(s[|s| - 1]) then s else TrimEnd(s[..|s| - 1])
  }

  function Trim(s: string): (r: string) { TrimStart(TrimEnd(s)) }

  /** Text that neither starts nor ends with white space is left alone. */
  lemma TrimFixed(s: string)
    requires s == [] || (!IsSpace(s[0]) && !IsSpace(s[|s| - 1]))
    ensures TrimEnd(s) == s && Trim(s) == s
  {}

  function DigitChar(d: nat): (c: char)
    requires d < 10
    ensures IsDigit(c) && DigitValue(c) == d
  {
    '0' + d as char
  }

  function DigitValue(c: char): (d: nat)
    requires IsDigit(c)
    ensures d < 10
  {
    (c as int) - ('0' as int)
  }

  /** The canonical decimal numeral of a natural number. */
  function DecimalNat(n: nat): (s: string)
    ensures s != [] && AllDigits(s)
  {
    if n < 10 then [DigitChar(n)] else DecimalNat(n / 10) + [DigitChar(n % 10)]
  }

  function Decimal(n: int): (s: string) {
    if n < 0 then "-" + DecimalNat(-n) else DecimalNat(n)
  }

  /** `parseInt(s, 10)` on a run of digits. */
  function ParseNat(s: string): (n: nat)
    requires AllDigits(s)
  {
    if s == [] then 0 else 10 * ParseNat(s[..|s| - 1]) + DigitValue(s[|s| - 1])
  }

  lemma {:induction false} ParseNatDecimal(n: nat)
    ensures ParseNat(DecimalNat(n)) == n
  {
    if n >= 10 {
      ParseNatDecimal(n / 10);
      assert DecimalNat(n)[..|DecimalNat(n)| - 1] == DecimalNat(n / 10);
    }
  }

  /** String `<=`: the order of the first differing character decides. */
  predicate LexLeq(a: string, b: string) {
    if a == [] then true
    else if b == [] then false
    else if a[0] == b[0] then LexLeq(a[1..], b[1..])
    else a[0] < b[0]
  }

  lemma {:induction false} LexLeqReflexive(a: string)
    ensures LexLeq(a, a)
  {
    if a != [] { LexLeqReflexive(a[1..]); }
  }

  /** A common beginning does not matter. */
  lemma {:induction false} LexLeqAfter(p: string, a: string, b: string)
    ensures LexLeq(p + a, p + b) <==> LexLeq(a, b)
  {
    if p == [] {
      assert p + a == a && p + b == b;
    } else {
      assert (p + a)[1..] == p[1..] + a && (p + b)[1..] == p[1..] + b;
      LexLeqAfter(p[1..], a, b);
    }
  }

  /** Texts of one length are compared by their first parts, and by the rest if those are the same. */
  lemma {:induction false} LexLeqParts(a: string, b: string, c: string, d: string)
    requires |a| == |b|
    ensures LexLeq(a + c, b + d) <==> if a == b then LexLeq(c, d) else LexLeq(a, b)
  {
    if a == [] {
      assert a + c == c && b + d == d;
    } else {
      assert (a + c)[1..] == a[1..] + c && (b + d)[1..] == b[1..] + d;
      assert a == [a[0]] + a[1..] && b == [b[0]] + b[1..];
      LexLeqParts(a[1..], b[1..], c, d);
    }
  }

  /** Digits of one length are ordered like the numbers they write, which also tell them apart. */
  lemma {:induction false} LexLeqDigits(a: string, b: string)
    requires |a| == |b| && AllDigits(a) && AllDigits(b)
    ensures LexLeq(a, b) <==> ParseNat(a) <= ParseNat(b)
    ensures a == b <==> ParseNat(a) == ParseNat(b)
  {
    if a != [] {
      var n := |a| - 1;
      assert a == a[..n] + [a[n]] && b == b[..n] + [b[n]];
      LexLeqDigits(a[..n], b[..n]);
      LexLeqParts(a[..n], b[..n], [a[n]], [b[n]]);
      LexLeqOne(a[n], b[n]);
    }
  }

  lemma LexLeqOne(c: char, d: char)
    ensures LexLeq([c], [d]) <==> c <= d
  {
    assert [c][1..] == [];
  }
}
