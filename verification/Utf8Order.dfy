/** UTF-8 (section 3 of RFC 3629) and the order it keeps: comparing names code point
    by code point is comparing their encodings byte by byte. */
module Utf8Order {
  import opened Bytes
  import opened Wrappers

  function EncodeChar(c: char): (bytes: seq<Byte>)
    ensures 1 <= |bytes| <= 4
  {
    var n := c as int;
    if n < 0x80 then [n]
    else if n < 0x800 then [0xC0 + n / 64, 0x80 + n % 64]
    else if n < 0x10000 then [0xE0 + n / 4096, 0x80 + n / 64 % 64, 0x80 + n % 64]
    else [0xF0 + n / 262144, 0x80 + n / 4096 % 64, 0x80 + n / 64 % 64, 0x80 + n % 64]
  }

  function Encode(s: string): seq<Byte> {
    if s == [] then [] else EncodeChar(s[0]) + Encode(s[1..])
  }

  // ---- Decoding ----------------------------------------------------------

  predicate Continues(b: Byte) {
    0x80 <= b < 0xC0
  }

  /** The code point at the front, with the number of its bytes: one byte of seven bits,
      or a lead byte with five, four or three bits and continuation bytes of six. */
  function FirstCodePoint(bytes: seq<Byte>): (r: Option<(nat, nat)>) {
    if bytes == [] then None
    else if bytes[0] < 0x80 then Some((bytes[0], 1))
    else if 0xC0 <= bytes[0] < 0xE0 && |bytes| >= 2 && Continues(bytes[1]) then
      Some(((bytes[0] as int - 0xC0) * 64 + (bytes[1] as int - 0x80), 2))
    else if 0xE0 <= bytes[0] < 0xF0 && |bytes| >= 3 && Continues(bytes[1]) && Continues(bytes[2]) then
      Some(((bytes[0] as int - 0xE0) * 4096 + (bytes[1] as int - 0x80) * 64 + (bytes[2] as int - 0x80), 3))
    else if 0xF0 <= bytes[0] < 0xF8 && |bytes| >= 4 && Continues(bytes[1]) && Continues(bytes[2]) && Continues(bytes[3])
    then
      Some(((bytes[0] as int - 0xF0) * 262144 + (bytes[1] as int - 0x80) * 4096 + (bytes[2] as int - 0x80) * 64
        + (bytes[3] as int - 0x80), 4))
    else None
  }

  /** The code points of a whole byte string. */
  function CodePoints(bytes: seq<Byte>): Option<seq<nat>>
    decreases |bytes|
  {
    if bytes == [] then Some([])
    else
      var first := FirstCodePoint(bytes);
      if first.None? || first.value.1 == 0 || first.value.1 > |bytes| then None
      else
        var rest := CodePoints(bytes[first.value.1..]);
        if rest.None? then None else Some([first.value.0] + rest.value)
  }

  lemma {:induction false} CharReadsBack(c: char, rest: seq<Byte>)
    ensures FirstCodePoint(EncodeChar(c) + rest) == Some((c as int, |EncodeChar(c)|))
  {
    Divisions(c as int);
  }

  function Points(s: string): seq<nat> {
    seq(|s|, i requires 0 <= i < |s| => s[i] as int)
  }

  /** An encoded name is read back code point by code point. */
  lemma {:induction false} NameReadsBack(s: string)
    ensures CodePoints(Encode(s)) == Some(Points(s))
  {
    if s != [] {
      var bytes, first := Encode(s), EncodeChar(s[0]);
      CharReadsBack(s[0], Encode(s[1..]));
      NameReadsBack(s[1..]);
      assert bytes == first + Encode(s[1..]) && bytes[|first|..] == Encode(s[1..]);
      assert Points(s) == [s[0] as int] + Points(s[1..]);
    } else {
      assert Points(s) == [];
    }
  }

  // ---- Order -------------------------------------------------------------

  /** Lexicographic order of byte strings. */
  predicate BytesLess(a: seq<Byte>, b: seq<Byte>) {
    b != [] && (a == [] || a[0] < b[0] || (a[0] == b[0] && BytesLess(a[1..], b[1..])))
  }

  /** Lexicographic order of names by code point. */
  predicate NameLess(a: string, b: string) {
    b != [] && (a == [] || a[0] < b[0] || (a[0] == b[0] && NameLess(a[1..], b[1..])))
  }

  lemma {:induction false} NamesAreComparable(a: string, b: string)
    ensures a == b || NameLess(a, b) || NameLess(b, a)
  {
    if a != [] && b != [] && a[0] == b[0] {
      NamesAreComparable(a[1..], b[1..]);
      assert a == [a[0]] + a[1..] && b == [b[0]] + b[1..];
    }
  }

  lemma {:induction false} NameOrderIsStrict(a: string, b: string)
    requires NameLess(a, b)
    ensures !NameLess(b, a) && a != b
  {
    if a != [] && a[0] == b[0] {
      NameOrderIsStrict(a[1..], b[1..]);
    }
  }

  lemma {:induction false} NameIsNotLess(a: string)
    ensures !NameLess(a, a)
  {
    if a != [] {
      NameIsNotLess(a[1..]);
    }
  }

  lemma {:induction false} NameOrderIsTransitive(a: string, b: string, c: string)
    requires NameLess(a, b) && NameLess(b, c)
    ensures NameLess(a, c)
  {
    if a != [] && a[0] == b[0] == c[0] {
      NameOrderIsTransitive(a[1..], b[1..], c[1..]);
    }
  }

  lemma {:induction false} ByteOrderIsStrict(a: seq<Byte>, b: seq<Byte>)
    requires BytesLess(a, b)
    ensures !BytesLess(b, a) && a != b
  {
    if a != [] && a[0] == b[0] {
      ByteOrderIsStrict(a[1..], b[1..]);
    }
  }

  /** The place where two encodings part, the smaller byte in the first. */
  predicate PartsAt(a: seq<Byte>, b: seq<Byte>, k: nat) {
    k < |a| && k < |b| && a[..k] == b[..k] && a[k] < b[k]
  }

  lemma {:induction false} PartedIsLess(a: seq<Byte>, b: seq<Byte>, k: nat, x: seq<Byte>, y: seq<Byte>)
    requires PartsAt(a, b, k)
    ensures BytesLess(a + x, b + y)
  {
    if k > 0 {
      assert a[0] == a[..k][0] == b[..k][0] == b[0];
      assert a[1..][..k - 1] == a[..k][1..] == b[..k][1..] == b[1..][..k - 1];
      PartedIsLess(a[1..], b[1..], k - 1, x, y);
      assert (a + x)[1..] == a[1..] + x && (b + y)[1..] == b[1..] + y;
    }
  }

  lemma {:induction false} Divisions(n: nat)
    ensures n / 64 / 64 == n / 4096 && n / 4096 / 64 == n / 262144
  {
  }

  lemma {:induction false} LastDigit(m: nat, n: nat)
    requires m < n && m / 64 == n / 64
    ensures m % 64 < n % 64
  {
  }

  lemma {:induction false} LongerIsGreater(c: char, d: char)
    requires c < d && |EncodeChar(c)| != |EncodeChar(d)|
    ensures PartsAt(EncodeChar(c), EncodeChar(d), 0)
  {
  }

  lemma {:induction false} TwoBytesPart(m: nat, n: nat, k: nat)
    requires 0x80 <= m < n < 0x800 && k == if m / 64 < n / 64 then 0 else 1
    ensures PartsAt([0xC0 + m / 64, 0x80 + m % 64], [0xC0 + n / 64, 0x80 + n % 64], k)
  {
    if k == 1 {
      LastDigit(m, n);
    }
  }

  lemma {:induction false} ThreeBytesPart(m: nat, n: nat, k: nat)
    requires 0x800 <= m < n < 0x10000
    requires k == if m / 4096 < n / 4096 then 0 else if m / 64 < n / 64 then 1 else 2
    ensures PartsAt([0xE0 + m / 4096, 0x80 + m / 64 % 64, 0x80 + m % 64],
                    [0xE0 + n / 4096, 0x80 + n / 64 % 64, 0x80 + n % 64], k)
  {
    Divisions(m);
    Divisions(n);
    if k == 1 {
      LastDigit(m / 64, n / 64);
    } else if k == 2 {
      LastDigit(m, n);
    }
  }

  lemma {:induction false} FourBytesPart(m: nat, n: nat, k: nat)
    requires 0x10000 <= m < n < 0x110000
    requires k == if m / 262144 < n / 262144 then 0 else if m / 4096 < n / 4096 then 1 else if m / 64 < n / 64 then 2
               else 3
    ensures PartsAt([0xF0 + m / 262144, 0x80 + m / 4096 % 64, 0x80 + m / 64 % 64, 0x80 + m % 64],
                    [0xF0 + n / 262144, 0x80 + n / 4096 % 64, 0x80 + n / 64 % 64, 0x80 + n % 64], k)
  {
    Divisions(m);
    Divisions(n);
    if k == 1 {
      LastDigit(m / 4096, n / 4096);
    } else if k == 2 {
      LastDigit(m / 64, n / 64);
    } else if k == 3 {
      LastDigit(m, n);
    }
  }

  /** Smaller code points have smaller encodings, and no encoding begins another. */
  lemma {:induction false} CharsPart(c: char, d: char) returns (k: nat)
    requires c < d
    ensures PartsAt(EncodeChar(c), EncodeChar(d), k)
  {
    var m, n := c as int, d as int;
    if |EncodeChar(c)| != |EncodeChar(d)| {
      k := 0;
      LongerIsGreater(c, d);
    } else if n < 0x80 {
      k := 0;
    } else if n < 0x800 {
      k := if m / 64 < n / 64 then 0 else 1;
      TwoBytesPart(m, n, k);
    } else if n < 0x10000 {
      k := if m / 4096 < n / 4096 then 0 else if m / 64 < n / 64 then 1 else 2;
      ThreeBytesPart(m, n, k);
    } else {
      k := if m / 262144 < n / 262144 then 0 else if m / 4096 < n / 4096 then 1 else if m / 64 < n / 64 then 2 else 3;
      FourBytesPart(m, n, k);
    }
  }

  lemma {:induction false} CommonPrefix(p: seq<Byte>, x: seq<Byte>, y: seq<Byte>)
    requires BytesLess(x, y)
    ensures BytesLess(p + x, p + y)
  {
    if p == [] {
      assert p + x == x && p + y == y;
    } else {
      CommonPrefix(p[1..], x, y);
      assert (p + x)[1..] == p[1..] + x && (p + y)[1..] == p[1..] + y;
    }
  }

  lemma {:induction false} EncodingKeepsOrder(a: string, b: string)
    requires NameLess(a, b)
    ensures BytesLess(Encode(a), Encode(b))
  {
    if a != [] {
      if a[0] == b[0] {
        EncodingKeepsOrder(a[1..], b[1..]);
        CommonPrefix(EncodeChar(a[0]), Encode(a[1..]), Encode(b[1..]));
      } else {
        var k := CharsPart(a[0], b[0]);
        PartedIsLess(EncodeChar(a[0]), EncodeChar(b[0]), k, Encode(a[1..]), Encode(b[1..]));
      }
    }
  }

  /** The two orders are one, and no two names share an encoding. */
  lemma {:induction false} ByteOrderIsNameOrder(a: string, b: string)
    ensures NameLess(a, b) <==> BytesLess(Encode(a), Encode(b))
    ensures a == b <==> Encode(a) == Encode(b)
  {
    NamesAreComparable(a, b);
    if NameLess(a, b) {
      EncodingKeepsOrder(a, b);
      NameOrderIsStrict(a, b);
      ByteOrderIsStrict(Encode(a), Encode(b));
    } else if NameLess(b, a) {
      EncodingKeepsOrder(b, a);
      ByteOrderIsStrict(Encode(b), Encode(a));
    } else {
      NothingIsLessThanItself(Encode(a));
    }
  }

  lemma {:induction false} NothingIsLessThanItself(a: seq<Byte>)
    ensures !BytesLess(a, a)
  {
    if a != [] {
      NothingIsLessThanItself(a[1..]);
    }
  }
}
