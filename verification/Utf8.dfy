/** UTF-8 as the strict decoder reads it and the encoder writes it. A character is a Unicode scalar
 *  value; surrogates cannot occur. */
module Utf8 {
  import opened Basics

  type Byte = b: int | 0 <= b < 256

  function EncodeChar(c: char): (bytes: seq<Byte>)
    ensures 1 <= |bytes| <= 4
  {
    var n := c as int;
    if n < 0x80 then [n]
    else if n < 0x800 then [0xC0 + n / 0x40, 0x80 + n % 0x40]
    else if n < 0x1_0000 then [0xE0 + n / 0x1000, 0x80 + n / 0x40 % 0x40, 0x80 + n % 0x40]
    else [0xF0 + n / 0x4_0000, 0x80 + n / 0x1000 % 0x40, 0x80 + n / 0x40 % 0x40, 0x80 + n % 0x40]
  }

  function Encode(s: string): seq<Byte> {
    if s == [] then [] else EncodeChar(s[0]) + Encode(s[1..])
  }

  predicate Follows(b: Byte) {
    0x80 <= b < 0xC0
  }

  predicate Scalar(n: int) {
    0 <= n < 0xD800 || 0xE000 <= n <= 0x10_FFFF
  }

  /** How many bytes the first one announces; zero if it cannot be first. */
  function Announced(b: Byte): nat {
    if b < 0x80 then 1
    else if b < 0xC0 then 0
    else if b < 0xE0 then 2
    else if b < 0xF0 then 3
    else if b < 0xF8 then 4
    else 0
  }

  function Above(b: Byte, base: int): int {
    var n: int := b;
    n - base
  }

  /** The number spelled by the bytes of one character. */
  function Spelled(b: seq<Byte>): int
    requires 1 <= |b| <= 4
  {
    if |b| == 1 then b[0]
    else if |b| == 2 then Above(b[0], 0xC0) * 0x40 + Above(b[1], 0x80)
    else if |b| == 3 then Above(b[0], 0xE0) * 0x1000 + Above(b[1], 0x80) * 0x40 + Above(b[2], 0x80)
    else Above(b[0], 0xF0) * 0x4_0000 + Above(b[1], 0x80) * 0x1000 + Above(b[2], 0x80) * 0x40 + Above(b[3], 0x80)
  }

  /** The least number that needs so many bytes; anything shorter is an overlong form. */
  function Least(length: nat): int {
    if length == 2 then 0x80 else if length == 3 then 0x800 else if length == 4 then 0x1_0000 else 0
  }

  predicate WellFormed(b: seq<Byte>) {
    && 1 <= |b| <= 4 && Announced(b[0]) == |b|
    && (forall i :: 1 <= i < |b| ==> Follows(b[i]))
    && Least(|b|) <= Spelled(b) && Scalar(Spelled(b))
  }

  /** Strict decoding: None where the decoder raises. */
  function Decode(b: seq<Byte>): Option<string>
    decreases |b|
  {
    if b == [] then Some("")
    else
      var k := Announced(b[0]);
      if k == 0 || k > |b| || !WellFormed(b[..k]) then None
      else
        var rest := Decode(b[k..]);
        if rest.None? then None else Some([Spelled(b[..k]) as char] + rest.value)
  }

  lemma Sextets(x: int, y: int)
    requires 0 <= y < 0x40
    ensures (x * 0x40 + y) / 0x40 == x && (x * 0x40 + y) % 0x40 == y
  {
  }

  lemma TwoSextets(x: int, y: int, z: int)
    requires 0 <= y < 0x40 && 0 <= z < 0x40
    ensures var n := x * 0x1000 + y * 0x40 + z; n / 0x1000 == x && n / 0x40 % 0x40 == y && n % 0x40 == z
  {
    Sextets(x * 0x40 + y, z);
    Sextets(x, y);
  }

  lemma ThreeSextets(x: int, y: int, z: int, w: int)
    requires 0 <= y < 0x40 && 0 <= z < 0x40 && 0 <= w < 0x40
    ensures var n := x * 0x4_0000 + y * 0x1000 + z * 0x40 + w;
      n / 0x4_0000 == x && n / 0x1000 % 0x40 == y && n / 0x40 % 0x40 == z && n % 0x40 == w
  {
    TwoSextets(x * 0x40 + y, z, w);
    Sextets(x, y);
  }

  lemma EncodedIsWellFormed(c: char)
    ensures WellFormed(EncodeChar(c)) && Spelled(EncodeChar(c)) == c as int
  {
    var n := c as int;
    assert Scalar(n);
    if 0x80 <= n < 0x800 {
      assert n == n / 0x40 * 0x40 + n % 0x40;
      assert EncodeChar(c) == [0xC0 + n / 0x40, 0x80 + n % 0x40];
    } else if 0x800 <= n < 0x1_0000 {
      LongEncoded(c);
    } else if 0x1_0000 <= n {
      LongestEncoded(c);
    }
  }

  lemma LongEncoded(c: char)
    requires 0x800 <= c as int < 0x1_0000
    ensures WellFormed(EncodeChar(c)) && Spelled(EncodeChar(c)) == c as int
  {
    var n := c as int;
    var x, y, z := n / 0x1000, n / 0x40 % 0x40, n % 0x40;
    assert n == x * 0x1000 + y * 0x40 + z && x < 0x10;
    assert EncodeChar(c) == [0xE0 + x, 0x80 + y, 0x80 + z];
    assert Scalar(n);
  }

  lemma FourDigits(n: int)
    requires 0 <= n <= 0x10_FFFF
    ensures n == n / 0x4_0000 * 0x4_0000 + n / 0x1000 % 0x40 * 0x1000 + n / 0x40 % 0x40 * 0x40 + n % 0x40
    ensures 0 <= n / 0x4_0000 < 5
  {
  }

  lemma LongestEncoded(c: char)
    requires 0x1_0000 <= c as int
    ensures WellFormed(EncodeChar(c)) && Spelled(EncodeChar(c)) == c as int
  {
    var n := c as int;
    var x, y, z, w := n / 0x4_0000, n / 0x1000 % 0x40, n / 0x40 % 0x40, n % 0x40;
    FourDigits(n);
    assert EncodeChar(c) == [0xF0 + x, 0x80 + y, 0x80 + z, 0x80 + w];
    assert Scalar(n);
  }

  /** Well-formed bytes are the encoding of what they spell. */
  lemma WellFormedIsEncoded(b: seq<Byte>)
    requires WellFormed(b)
    ensures EncodeChar(Spelled(b) as char) == b
  {
    if |b| == 2 {
      Sextets(Above(b[0], 0xC0), Above(b[1], 0x80));
    } else if |b| == 3 {
      TwoSextets(Above(b[0], 0xE0), Above(b[1], 0x80), Above(b[2], 0x80));
    } else if |b| == 4 {
      ThreeSextets(Above(b[0], 0xF0), Above(b[1], 0x80), Above(b[2], 0x80), Above(b[3], 0x80));
    }
  }

  /** Decoding undoes encoding. */
  lemma {:induction false} DecodeEncode(s: string)
    ensures Decode(Encode(s)) == Some(s)
  {
    if s != [] {
      var first, rest := EncodeChar(s[0]), Encode(s[1..]);
      EncodedIsWellFormed(s[0]);
      SuffixOf(first, rest);
      DecodeEncode(s[1..]);
      assert (first + rest)[0] == first[0];
      assert [s[0]] + s[1..] == s;
    }
  }

  /** What decodes at all is the encoding of its decoding. */
  lemma {:induction false} EncodeDecode(b: seq<Byte>)
    requires Decode(b).Some?
    ensures Encode(Decode(b).value) == b
    decreases |b|
  {
    if b != [] {
      var k := Announced(b[0]);
      WellFormedIsEncoded(b[..k]);
      EncodeDecode(b[k..]);
      var s := Decode(b).value;
      assert s[1..] == Decode(b[k..]).value;
      assert b == b[..k] + b[k..];
    }
  }

  lemma {:induction false} EncodeConcat(s: string, t: string)
    ensures Encode(s + t) == Encode(s) + Encode(t)
  {
    if s == [] {
      assert s + t == t;
    } else {
      EncodeConcat(s[1..], t);
      assert (s + t)[1..] == s[1..] + t;
    }
  }
}
