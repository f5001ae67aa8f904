/**
 UTF-8, section 3 of RFC 3629. A Dafny char is a Unicode scalar value; a byte
 is a char below 256, so text and its bytes are both strings.
 */
module Utf8 {
  import opened Wrappers

  predicate IsBytes(b: string) {
    forall i :: 0 <= i < |b| ==> b[i] as int < 256
  }

  predicate IsScalar(n: int) {
    0 <= n < 0xD800 || 0xE000 <= n < 0x11_0000
  }

  // A byte carrying six bits of a code point after the first byte.
  function Tail(n: nat): (c: char)
    ensures c as int == 0x80 + n % 64
  {
    (0x80 + n % 64) as char
  }

  function EncodeChar(c: char): (b: string)
    ensures 1 <= |b| <= 4 && IsBytes(b)
    ensures b[0] as int < 0x80 <==> c as int < 0x80
    ensures c as int < 0x80 ==> b == [c]
  {
    var n := c as int;
    if n < 0x80 then [c]
    else if n < 0x800 then [(0xC0 + n / 64) as char, Tail(n)]
    else if n < 0x1_0000 then [(0xE0 + n / 64 / 64) as char, Tail(n / 64), Tail(n)]
    else [(0xF0 + n / 64 / 64 / 64) as char, Tail(n / 64 / 64), Tail(n / 64), Tail(n)]
  }

  function Encode(s: string): (b: string)
    ensures IsBytes(b)
  {
    if s == [] then [] else EncodeChar(s[0]) + Encode(s[1..])
  }

  predicate IsContinuation(c: char) {
    0x80 <= c as int < 0xC0
  }

  // The low six bits of a continuation byte.
  function Low(c: char): (n: nat)
    requires IsContinuation(c)
    ensures n < 64
  {
    c as int - 0x80
  }

  // Six more bits on the right.
  function Push(q: nat, c: char): (n: nat)
    requires IsContinuation(c)
    ensures n / 64 == q && Tail(n) == c
  {
    q * 64 + Low(c)
  }

  // The code point at the head of the bytes and its length: overlong forms,
  // surrogates and values above 10FFFF are refused, as RFC 3629 demands.
  function DecodeFirst(b: string): (r: Option<(char, nat)>)
    requires |b| > 0
    ensures r.Some? ==> 1 <= r.value.1 <= |b|
  {
    var h := b[0] as int;
    if h < 0x80 then Some((b[0], 1))
    else if |b| < 2 || !IsContinuation(b[1]) then None
    else if 0xC2 <= h < 0xE0 then
      Some((Push(h - 0xC0, b[1]) as char, 2))
    else if |b| < 3 || !IsContinuation(b[2]) then None
    else if 0xE0 <= h < 0xF0 then
      var n := Push(Push(h - 0xE0, b[1]), b[2]);
      if n >= 0x800 && IsScalar(n) then Some((n as char, 3)) else None
    else if |b| < 4 || !IsContinuation(b[3]) then None
    else if 0xF0 <= h < 0xF5 then
      var n := Push(Push(Push(h - 0xF0, b[1]), b[2]), b[3]);
      if n >= 0x1_0000 && IsScalar(n) then Some((n as char, 4)) else None
    else None
  }

  lemma DecodeFirstStrict(b: string)
    requires |b| > 0 && DecodeFirst(b).Some?
    ensures b[..DecodeFirst(b).value.1] == EncodeChar(DecodeFirst(b).value.0)
  {
    var (c, k) := DecodeFirst(b).value;
    assert k == |EncodeChar(c)|;
  }

  lemma EncodeStep(b: string, c: char, k: nat, rest: string)
    requires k <= |b| && b[..k] == EncodeChar(c) && Encode(rest) == b[k..]
    ensures Encode([c] + rest) == b
  {
    assert ([c] + rest)[1..] == rest;
  }

  // Decoding is strict: what it accepts is exactly the encoding of what it returns.
  function Decode(b: string): (r: Option<string>)
    ensures r.Some? ==> Encode(r.value) == b
  {
    if b == [] then Some([])
    else
      match DecodeFirst(b)
      case None => None
      case Some((c, k)) =>
        match Decode(b[k..])
        case None => None
        case Some(rest) =>
          DecodeFirstStrict(b);
          EncodeStep(b, c, k, rest);
          Some([c] + rest)
  }

  lemma DecodeFirstLong(c: char, tail: string)
    requires c as int >= 0x1_0000
    ensures DecodeFirst(EncodeChar(c) + tail) == Some((c, |EncodeChar(c)|))
  {
  }

  lemma DecodeFirstEncoded(c: char, tail: string)
    ensures DecodeFirst(EncodeChar(c) + tail) == Some((c, |EncodeChar(c)|))
  {
    if c as int >= 0x1_0000 {
      DecodeFirstLong(c, tail);
    }
  }

  lemma {:induction false} DecodeEncode(s: string)
    ensures Decode(Encode(s)) == Some(s)
  {
    if s != [] {
      var head, tail := EncodeChar(s[0]), Encode(s[1..]);
      DecodeFirstEncoded(s[0], tail);
      assert (head + tail)[|head|..] == tail;
      DecodeEncode(s[1..]);
      assert [s[0]] + s[1..] == s;
    }
  }

  lemma {:induction false} EncodeConcat(a: string, b: string)
    ensures Encode(a + b) == Encode(a) + Encode(b)
  {
    if a == [] {
      assert a + b == b;
    } else {
      assert (a + b)[1..] == a[1..] + b;
      EncodeConcat(a[1..], b);
    }
  }

  // ----- order -----

  // Lexicographic order: of code points on text, of bytes on encoded text.
  predicate LexLess(a: string, b: string) {
    b != [] && (a == [] || a[0] < b[0] || (a[0] == b[0] && LexLess(a[1..], b[1..])))
  }

  lemma {:induction false} LexCommonPrefix(p: string, a: string, b: string)
    ensures LexLess(p + a, p + b) <==> LexLess(a, b)
  {
    if p == [] {
      assert p + a == a && p + b == b;
    } else {
      assert (p + a)[1..] == p[1..] + a && (p + b)[1..] == p[1..] + b;
      LexCommonPrefix(p[1..], a, b);
    }
  }

  lemma {:induction false} LexAsymmetric(a: string, b: string)
    ensures !(LexLess(a, b) && LexLess(b, a))
  {
    if a != [] && b != [] && a[0] == b[0] {
      LexAsymmetric(a[1..], b[1..]);
    }
  }

  lemma {:induction false} LexTotal(a: string, b: string)
    ensures a == b || LexLess(a, b) || LexLess(b, a)
  {
    if a != [] && b != [] && a[0] == b[0] {
      LexTotal(a[1..], b[1..]);
      assert a == [a[0]] + a[1..] && b == [b[0]] + b[1..];
    }
  }

  // Strings that first differ after a common prefix are ordered by that character.
  lemma LexAtDifference(p: string, a: string, b: string)
    requires a != [] && b != [] && a[0] < b[0]
    ensures LexLess(p + a, p + b)
  {
    LexCommonPrefix(p, a, b);
  }

  // Numbers that agree above their last six bits are ordered by those.
  lemma TailOrder(m: nat, n: nat)
    requires m < n
    ensures m / 64 <= n / 64
    ensures m / 64 == n / 64 ==> Tail(m) < Tail(n)
  {
  }

  // The encodings of two different code points differ at some byte, in the same direction.
  lemma EncodeCharOrder(c: char, d: char) returns (k: nat)
    requires c < d
    ensures k < |EncodeChar(c)| && k < |EncodeChar(d)|
    ensures EncodeChar(c)[..k] == EncodeChar(d)[..k]
    ensures EncodeChar(c)[k] < EncodeChar(d)[k]
  {
    var m, n := c as int, d as int;
    if |EncodeChar(c)| != |EncodeChar(d)| || |EncodeChar(c)| == 1 {
      k := 0;
    } else if m / 64 == n / 64 {
      TailOrder(m, n);
      k := |EncodeChar(c)| - 1;
    } else {
      TailOrder(m, n);
      k := UpperOrder(c, d);
    }
  }

  // The same, when the difference lies above the last six bits.
  lemma UpperOrder(c: char, d: char) returns (k: nat)
    requires c as int / 64 < d as int / 64 && |EncodeChar(c)| == |EncodeChar(d)| >= 2
    ensures k < |EncodeChar(c)|
    ensures EncodeChar(c)[..k] == EncodeChar(d)[..k]
    ensures EncodeChar(c)[k] < EncodeChar(d)[k]
  {
    var m, n := c as int / 64, d as int / 64;
    if |EncodeChar(c)| == 2 {
      k := 0;
    } else {
      TailOrder(m, n);
      if |EncodeChar(c)| == 3 {
        k := if m / 64 == n / 64 then 1 else 0;
      } else if m / 64 == n / 64 {
        k := 2;
      } else {
        TailOrder(m / 64, n / 64);
        k := if m / 64 / 64 == n / 64 / 64 then 1 else 0;
      }
    }
  }

  // Byte order of UTF-8 is code-point order.
  lemma {:induction false} OrderPreserved(s: string, t: string)
    ensures LexLess(Encode(s), Encode(t)) <==> LexLess(s, t)
  {
    if s == [] || t == [] {
    } else if s[0] == t[0] {
      LexCommonPrefix(EncodeChar(s[0]), Encode(s[1..]), Encode(t[1..]));
      OrderPreserved(s[1..], t[1..]);
    } else if s[0] < t[0] {
      EncodedLess(s, t);
    } else {
      EncodedLess(t, s);
      LexAsymmetric(Encode(s), Encode(t));
    }
  }

  lemma PrefixLess(x: string, y: string, k: nat, u: string, v: string)
    requires k < |x| && k < |y| && x[..k] == y[..k] && x[k] < y[k]
    ensures LexLess(x + u, y + v)
  {
    LexAtDifference(x[..k], x[k..] + u, y[k..] + v);
    assert x + u == x[..k] + (x[k..] + u);
    assert y + v == x[..k] + (y[k..] + v);
  }

  lemma EncodedLess(s: string, t: string)
    requires s != [] && t != [] && s[0] < t[0]
    ensures LexLess(Encode(s), Encode(t))
  {
    var x, y := EncodeChar(s[0]), EncodeChar(t[0]);
    var k := EncodeCharOrder(s[0], t[0]);
    PrefixLess(x, y, k, Encode(s[1..]), Encode(t[1..]));
  }
}
