/** UTF-8 as the browser's text codec does it: the encoder for Unicode scalar values, and the decoder
    that replaces each maximal invalid part by one U+FFFD. */
module Utf8 {
  type byte = x: int | 0 <= x < 256

  predicate IsScalar(n: int) { 0 <= n < 0xD800 || 0xE000 <= n < 0x110000 }

  function Encode(c: char): (b: seq<byte>)
    ensures 1 <= |b| <= 4
  {
    var n := c as int;
    if n < 0x80 then [n]
    else if n < 0x800 then [0xC0 + n / 64, 0x80 + n % 64]
    else if n < 0x10000 then [0xE0 + n / 4096, 0x80 + n / 64 % 64, 0x80 + n % 64]
    else [0xF0 + n / 262144, 0x80 + n / 4096 % 64, 0x80 + n / 64 % 64, 0x80 + n % 64]
  }

  function EncodeAll(s: string): (b: seq<byte>) {
    if s == "" then [] else Encode(s[0]) + EncodeAll(s[1..])
  }

  /** What a lead byte announces: how many continuation bytes, bounds for the first, and its bits. */
  datatype Lead = Invalid | Lead(need: nat, lo: int, hi: int, bits: int)

  function LeadOf(b: byte): (l: Lead) {
    if b < 0x80 then Lead(0, 0x80, 0xBF, b)
    else if 0xC2 <= b <= 0xDF then Lead(1, 0x80, 0xBF, b - 0xC0)
    else if 0xE0 <= b <= 0xEF then
      Lead(2, if b == 0xE0 then 0xA0 else 0x80, if b == 0xED then 0x9F else 0xBF, b - 0xE0)
    else if 0xF0 <= b <= 0xF4 then
      Lead(3, if b == 0xF0 then 0x90 else 0x80, if b == 0xF4 then 0x8F else 0xBF, b - 0xF0)
    else Invalid
  }

  /** Continuation bytes at the front of `b`, at most `need`, the first within `lo..hi`. */
  function Continuations(b: seq<byte>, need: nat, lo: int, hi: int): (n: nat)
    ensures n <= need && n <= |b|
    decreases need
  {
    if need == 0 || b == [] || !(lo <= b[0] <= hi) then 0
    else 1 + Continuations(b[1..], need - 1, 0x80, 0xBF)
  }

  function Bits(acc: int, b: seq<byte>): (n: int)
    decreases |b|
  {
    if b == [] then acc else Bits(acc * 64 + b[0] - 0x80, b[1..])
  }

  const REPLACEMENT: char := '\U{FFFD}'

  /** One decoded character and how many bytes it took. */
  function DecodeOne(b: seq<byte>): (r: (char, nat))
    requires b != []
    ensures 1 <= r.1 <= |b|
  {
    var l := LeadOf(b[0]);
    if l.Invalid? then (REPLACEMENT, 1)
    else
      var k := Continuations(b[1..], l.need, l.lo, l.hi);
      var n := Bits(l.bits, b[1..1 + k]);
      if k < l.need || !IsScalar(n) then (REPLACEMENT, 1 + k) else (n as char, 1 + k)
  }

  function Decode(b: seq<byte>): (s: string) {
    if b == [] then "" else
      var (c, n) := DecodeOne(b);
      [c] + Decode(b[n..])
  }

  lemma BitsStep(acc: int, x: byte, b: seq<byte>)
    ensures Bits(acc, [x] + b) == Bits(acc * 64 + x - 0x80, b)
  {
    assert ([x] + b)[1..] == b;
  }

  lemma ContinuationsStep(x: byte, b: seq<byte>, need: nat, lo: int, hi: int)
    requires need > 0 && lo <= x <= hi
    ensures Continuations([x] + b, need, lo, hi) == 1 + Continuations(b, need - 1, 0x80, 0xBF)
  {
    assert ([x] + b)[1..] == b;
  }

  lemma Base64Digits(n: nat)
    ensures n == n / 64 * 64 + n % 64
    ensures n / 64 == n / 4096 * 64 + n / 64 % 64
    ensures n / 4096 == n / 262144 * 64 + n / 4096 % 64
  {}

  /** A lead byte with its continuation bytes decodes to the bits they carry. */
  lemma DecodeParts(x: byte, tail: seq<byte>, rest: seq<byte>, n: int)
    requires LeadOf(x).Lead? && |tail| == LeadOf(x).need && IsScalar(n)
    requires Continuations(tail + rest, |tail|, LeadOf(x).lo, LeadOf(x).hi) == |tail|
    requires Bits(LeadOf(x).bits, tail) == n
    ensures DecodeOne([x] + tail + rest) == (n as char, 1 + |tail|)
  {
    var b := [x] + tail + rest;
    assert b[1..] == tail + rest && b[1..1 + |tail|] == tail;
  }

  lemma DecodeTwo(c: char, rest: seq<byte>)
    requires 0x80 <= c as int < 0x800
    ensures DecodeOne(Encode(c) + rest) == (c, |Encode(c)|)
  {
    var n, e := c as int, Encode(c);
    var l := LeadOf(e[0]);
    Base64Digits(n);
    ContinuationsStep(e[1], rest, 1, l.lo, l.hi);
    BitsStep(l.bits, e[1], []);
    assert [e[1]] + [] == [e[1]];
    DecodeParts(e[0], [e[1]], rest, n);
    assert e == [e[0]] + [e[1]];
  }

  lemma DecodeThree(c: char, rest: seq<byte>)
    requires 0x800 <= c as int < 0x10000
    ensures DecodeOne(Encode(c) + rest) == (c, |Encode(c)|)
  {
    var n, e := c as int, Encode(c);
    var l := LeadOf(e[0]);
    Base64Digits(n);
    ContinuationsStep(e[1], [e[2]] + rest, 2, l.lo, l.hi);
    ContinuationsStep(e[2], rest, 1, 0x80, 0xBF);
    assert [e[1], e[2]] + rest == [e[1]] + ([e[2]] + rest);
    BitsStep(l.bits, e[1], [e[2]]);
    BitsStep(l.bits * 64 + e[1] - 0x80, e[2], []);
    assert [e[2]] + [] == [e[2]] && [e[1]] + [e[2]] == [e[1], e[2]];
    DecodeParts(e[0], [e[1], e[2]], rest, n);
    assert e == [e[0]] + [e[1], e[2]];
  }

  lemma DecodeFour(c: char, rest: seq<byte>)
    requires 0x10000 <= c as int
    ensures DecodeOne(Encode(c) + rest) == (c, |Encode(c)|)
  {
    var n, e := c as int, Encode(c);
    var l := LeadOf(e[0]);
    Base64Digits(n);
    ContinuationsStep(e[1], [e[2], e[3]] + rest, 3, l.lo, l.hi);
    ContinuationsStep(e[2], [e[3]] + rest, 2, 0x80, 0xBF);
    ContinuationsStep(e[3], rest, 1, 0x80, 0xBF);
    assert [e[1], e[2], e[3]] + rest == [e[1]] + ([e[2], e[3]] + rest);
    assert [e[2], e[3]] + rest == [e[2]] + ([e[3]] + rest);
    BitsStep(l.bits, e[1], [e[2], e[3]]);
    BitsStep(l.bits * 64 + e[1] - 0x80, e[2], [e[3]]);
    BitsStep((l.bits * 64 + e[1] - 0x80) * 64 + e[2] - 0x80, e[3], []);
    assert [e[3]] + [] == [e[3]] && [e[2]] + [e[3]] == [e[2], e[3]];
    assert [e[1]] + [e[2], e[3]] == [e[1], e[2], e[3]];
    DecodeParts(e[0], [e[1], e[2], e[3]], rest, n);
    assert e == [e[0]] + [e[1], e[2], e[3]];
  }

  lemma DecodeEncoded(c: char, rest: seq<byte>)
    ensures DecodeOne(Encode(c) + rest) == (c, |Encode(c)|)
  {
    var n, e := c as int, Encode(c);
    if n < 0x80 {
      DecodeParts(e[0], [], rest, n);
      assert e == [e[0]] + [];
    } else if n < 0x800 {
      DecodeTwo(c, rest);
    } else if n < 0x10000 {
      DecodeThree(c, rest);
    } else {
      DecodeFour(c, rest);
    }
  }

  /** Decoding inverts encoding on every string. */
  lemma {:induction false} RoundTrip(s: string)
    ensures Decode(EncodeAll(s)) == s
  {
    if s != "" {
      var rest := EncodeAll(s[1..]);
      DecodeEncoded(s[0], rest);
      assert (Encode(s[0]) + rest)[|Encode(s[0])|..] == rest;
      RoundTrip(s[1..]);
    }
  }

  lemma {:induction false} EncodeAppend(a: string, b: string)
    ensures EncodeAll(a + b) == EncodeAll(a) + EncodeAll(b)
  {
    if a == "" {
      assert a + b == b;
    } else {
      assert (a + b)[1..] == a[1..] + b;
      EncodeAppend(a[1..], b);
    }
  }

  lemma EncodeNoZero(c: char)
    requires c != '\0'
    ensures forall i :: 0 <= i < |Encode(c)| ==> Encode(c)[i] != 0
  {}

  /** A zero byte comes from a NUL character only. */
  lemma {:induction false} NoZeroByte(s: string)
    requires forall i :: 0 <= i < |s| ==> s[i] != '\0'
    ensures forall i :: 0 <= i < |EncodeAll(s)| ==> EncodeAll(s)[i] != 0
  {
    if s != "" {
      EncodeNoZero(s[0]);
      NoZeroByte(s[1..]);
    }
  }

  /** Digits to the base 64, the highest first. */
  function Weighed(digits: seq<int>): (n: int) {
    if digits == [] then 0 else 64 * Weighed(digits[..|digits| - 1]) + digits[|digits| - 1]
  }

  lemma WeighedTwo(a: int, b: int)
    ensures Weighed([a, b]) == a * 64 + b
  {
    assert [a, b][..1] == [a] && [a][..0] == [];
    assert Weighed([a]) == a;
  }

  lemma WeighedThree(a: int, b: int, c: int)
    ensures Weighed([a, b, c]) == a * 4096 + b * 64 + c
  {
    assert [a, b, c][..2] == [a, b];
    WeighedTwo(a, b);
  }

  lemma WeighedFour(a: int, b: int, c: int, d: int)
    ensures Weighed([a, b, c, d]) == a * 262144 + b * 4096 + c * 64 + d
  {
    assert [a, b, c, d][..3] == [a, b, c];
    WeighedThree(a, b, c);
  }

  /** The table of section 3 of RFC 3629: one to four bytes by the size of the code, lead bytes and
      continuation bytes in their ranges, and the bits of the code in them from the highest to the lowest. */
  lemma EncodeTable(c: char)
    ensures var n, b := c as int, Encode(c);
            && (|b| == 1 <==> n < 0x80) && (|b| == 2 <==> 0x80 <= n < 0x800)
            && (|b| == 3 <==> 0x800 <= n < 0x10000) && (|b| == 4 <==> 0x10000 <= n)
            && (forall i :: 1 <= i < |b| ==> 0x80 <= b[i] <= 0xBF)
            && match |b|
               case 1 => b[0] == n
               case 2 => 0xC2 <= b[0] <= 0xDF && n == Weighed([b[0] - 0xC0, b[1] - 0x80])
               case 3 => 0xE0 <= b[0] <= 0xEF && n == Weighed([b[0] - 0xE0, b[1] - 0x80, b[2] - 0x80])
               case _ => 0xF0 <= b[0] <= 0xF4 && n == Weighed([b[0] - 0xF0, b[1] - 0x80, b[2] - 0x80, b[3] - 0x80])
  {
    var n, b := c as int, Encode(c);
    Base64Digits(n);
    match |b|
    case 1 =>
    case 2 => WeighedTwo(b[0] - 0xC0, b[1] - 0x80);
    case 3 => WeighedThree(b[0] - 0xE0, b[1] - 0x80, b[2] - 0x80);
    case _ => WeighedFour(b[0] - 0xF0, b[1] - 0x80, b[2] - 0x80, b[3] - 0x80);
  }

  /** A byte that can start no character is replaced on its own. */
  lemma StrayReplaced(x: byte, rest: seq<byte>)
    requires 0x80 <= x <= 0xC1 || x >= 0xF5
    ensures Decode([x] + rest) == [REPLACEMENT] + Decode(rest)
  {
    assert ([x] + rest)[1..] == rest;
  }

  /** A character cut short is replaced as a whole, up to where it stops being one. */
  lemma CutReplaced(x: byte, tail: seq<byte>, rest: seq<byte>)
    requires LeadOf(x).Lead? && |tail| < LeadOf(x).need
    requires Continuations(tail, LeadOf(x).need, LeadOf(x).lo, LeadOf(x).hi) == |tail|
    requires rest == [] || !(0x80 <= rest[0] <= 0xBF)
    ensures Decode([x] + tail + rest) == [REPLACEMENT] + Decode(rest)
  {
    var b := [x] + tail + rest;
    assert b[1..] == tail + rest;
    ContinuationsEnd(tail, rest, LeadOf(x).need, LeadOf(x).lo, LeadOf(x).hi);
    assert b[1 + |tail|..] == rest;
  }

  lemma {:induction false} ContinuationsEnd(tail: seq<byte>, rest: seq<byte>, need: nat, lo: int, hi: int)
    requires |tail| < need && Continuations(tail, need, lo, hi) == |tail| && 0x80 <= lo && hi <= 0xBF
    requires rest == [] || !(0x80 <= rest[0] <= 0xBF)
    ensures Continuations(tail + rest, need, lo, hi) == |tail|
    decreases need
  {
    if tail == [] {
      assert tail + rest == rest;
    } else {
      assert (tail + rest)[1..] == tail[1..] + rest;
      ContinuationsEnd(tail[1..], rest, need - 1, 0x80, 0xBF);
    }
  }
}
