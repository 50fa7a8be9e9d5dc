/** One path segment: percent escapes, what they stand for, and the normal form. */
module PathSegments {
  import opened Basics
  import opened Strings
  import opened Utf8

  // ---------------------------------------------------------------- characters

  predicate IsLetter(c: char) {
    'a' <= c <= 'z' || 'A' <= c <= 'Z'
  }

  /** Unreserved in the sense of RFC 3986, section 2.3. */
  predicate Unreserved(c: char) {
    IsLetter(c) || IsDigit(c) || c in "-._~"
  }

  predicate IsHex(c: char) {
    IsDigit(c) || 'a' <= c <= 'f' || 'A' <= c <= 'F'
  }

  predicate UpperHex(c: char) {
    IsDigit(c) || 'A' <= c <= 'F'
  }

  function HexValue(c: char): (v: nat)
    requires IsHex(c)
    ensures v < 16
  {
    if IsDigit(c) then c as int - '0' as int
    else if 'a' <= c <= 'f' then c as int - 'a' as int + 10
    else c as int - 'A' as int + 10
  }

  function HexDigit(v: nat): (c: char)
    requires v < 16
    ensures UpperHex(c) && HexValue(c) == v
  {
    if v < 10 then ('0' as int + v) as char else ('A' as int + v - 10) as char
  }

  // ---------------------------------------------------------------- tokens

  datatype Token = Literal(lit: char) | Escape(byte: Byte)

  predicate EscapeAt(s: string, i: nat) {
    i + 2 < |s| && s[i] == '%' && IsHex(s[i + 1]) && IsHex(s[i + 2])
  }

  /** No percent sign without two hexadecimal digits after it. */
  predicate WellEscaped(s: string) {
    forall i :: 0 <= i < |s| && s[i] == '%' ==> EscapeAt(s, i)
  }

  lemma WellEscapedSuffix(s: string, k: nat)
    requires WellEscaped(s) && k <= |s|
    ensures WellEscaped(s[k..])
  {
    var t := s[k..];
    forall i | 0 <= i < |t| && t[i] == '%' ensures EscapeAt(t, i) {
      assert EscapeAt(s, k + i);
    }
  }

  function ByteAt(s: string, i: nat): Byte
    requires EscapeAt(s, i)
  {
    HexValue(s[i + 1]) * 16 + HexValue(s[i + 2])
  }

  function Tokens(s: string): seq<Token>
    requires WellEscaped(s)
    decreases |s|
  {
    if s == [] then []
    else if s[0] == '%' then
      assert EscapeAt(s, 0);
      WellEscapedSuffix(s, 3);
      [Escape(ByteAt(s, 0))] + Tokens(s[3..])
    else
      WellEscapedSuffix(s, 1);
      [Literal(s[0])] + Tokens(s[1..])
  }

  function EscapeText(b: Byte): (s: string)
    ensures |s| == 3 && s[0] == '%' && UpperHex(s[1]) && UpperHex(s[2])
  {
    ['%', HexDigit(b / 16), HexDigit(b % 16)]
  }

  function Show(t: Token): string {
    match t
    case Literal(c) => [c]
    case Escape(b) => EscapeText(b)
  }

  function Text(ts: seq<Token>): string {
    if ts == [] then [] else Show(ts[0]) + Text(ts[1..])
  }

  /** The bytes that a text stands for. */
  function Octets(ts: seq<Token>): seq<Byte> {
    if ts == [] then []
    else (match ts[0] case Literal(c) => EncodeChar(c) case Escape(b) => [b]) + Octets(ts[1..])
  }

  // ---------------------------------------------------------------- decoding

  /** Runs of escapes are decoded together; `pending` is the run so far. None where the run is not
   *  valid UTF-8. */
  function Chars(ts: seq<Token>, pending: seq<Byte>): Option<string>
    decreases |ts|
  {
    if ts == [] then Decode(pending)
    else match ts[0]
      case Escape(b) => Chars(ts[1..], pending + [b])
      case Literal(c) =>
        var before, rest := Decode(pending), Chars(ts[1..], []);
        if before.None? || rest.None? then None else Some(before.value + [c] + rest.value)
  }

  function EscapesOf(bytes: seq<Byte>): seq<Token> {
    seq(|bytes|, i requires 0 <= i < |bytes| => Escape(bytes[i]))
  }

  function TokensOf(c: char): seq<Token> {
    if Unreserved(c) then [Literal(c)] else EscapesOf(EncodeChar(c))
  }

  function Rendered(cs: string): seq<Token> {
    if cs == [] then [] else TokensOf(cs[0]) + Rendered(cs[1..])
  }

  /** `_canonical_segment`; None where it raises. */
  function CanonicalSegment(s: string): Option<string>
    requires WellEscaped(s)
  {
    var cs := Chars(Tokens(s), []);
    if cs.None? then None else Some(Text(Rendered(cs.value)))
  }

  // ---------------------------------------------------------------- text and tokens

  predicate NoPercent(ts: seq<Token>) {
    forall i :: 0 <= i < |ts| && ts[i].Literal? ==> ts[i].lit != '%'
  }

  lemma ConcatEscapes(s: string, t: string)
    requires WellEscaped(s) && WellEscaped(t)
    ensures WellEscaped(s + t)
  {
    forall i | 0 <= i < |s + t| && (s + t)[i] == '%' ensures EscapeAt(s + t, i) {
      if i < |s| {
        assert EscapeAt(s, i);
      } else {
        assert EscapeAt(t, i - |s|);
      }
    }
  }

  lemma {:induction false} TextTokens(ts: seq<Token>)
    requires NoPercent(ts)
    ensures WellEscaped(Text(ts)) && Tokens(Text(ts)) == ts
  {
    if ts != [] {
      var first, rest := Show(ts[0]), Text(ts[1..]);
      assert forall i :: 0 <= i < |ts| - 1 ==> ts[1..][i] == ts[i + 1];
      TextTokens(ts[1..]);
      assert WellEscaped(first);
      ConcatEscapes(first, rest);
      SuffixOf(first, rest);
      assert (first + rest)[0] == first[0];
      if ts[0].Escape? {
        assert EscapeAt(first + rest, 0) && (first + rest)[1] == first[1] && (first + rest)[2] == first[2];
        assert ByteAt(first + rest, 0) == ts[0].byte;
      }
      assert ts == [ts[0]] + ts[1..];
    }
  }

  lemma {:induction false} RenderedClean(cs: string)
    ensures NoPercent(Rendered(cs))
  {
    if cs != [] {
      RenderedClean(cs[1..]);
    }
  }

  // ---------------------------------------------------------------- rendering, then decoding

  lemma {:induction false} CharsPending(bytes: seq<Byte>, ts: seq<Token>, pending: seq<Byte>)
    ensures Chars(EscapesOf(bytes) + ts, pending) == Chars(ts, pending + bytes)
    decreases |bytes|
  {
    if bytes == [] {
      assert EscapesOf(bytes) + ts == ts && pending + bytes == pending;
    } else {
      var all := EscapesOf(bytes) + ts;
      assert all[0] == Escape(bytes[0]) && all[1..] == EscapesOf(bytes[1..]) + ts;
      CharsPending(bytes[1..], ts, pending + [bytes[0]]);
      assert pending + [bytes[0]] + bytes[1..] == pending + bytes;
    }
  }

  lemma CharsLiteral(c: char, ts: seq<Token>, pending: seq<Byte>)
    requires Decode(pending).Some? && Chars(ts, []).Some?
    ensures Chars([Literal(c)] + ts, pending) == Some(Decode(pending).value + [c] + Chars(ts, []).value)
  {
    assert ([Literal(c)] + ts)[1..] == ts;
  }

  lemma {:induction false} CharsRendered(cs: string, before: string)
    ensures Chars(Rendered(cs), Encode(before)) == Some(before + cs)
    decreases |cs|
  {
    DecodeEncode(before);
    if cs == [] {
      assert before + cs == before;
    } else if Unreserved(cs[0]) {
      CharsRendered(cs[1..], []);
      CharsLiteral(cs[0], Rendered(cs[1..]), Encode(before));
      assert before + [cs[0]] + ([] + cs[1..]) == before + cs;
    } else {
      CharsPending(EncodeChar(cs[0]), Rendered(cs[1..]), Encode(before));
      EncodeOneMore(before, cs[0]);
      CharsRendered(cs[1..], before + [cs[0]]);
      assert before + [cs[0]] + cs[1..] == before + cs;
    }
  }

  lemma EncodeOneMore(before: string, c: char)
    ensures Encode(before + [c]) == Encode(before) + EncodeChar(c)
  {
    EncodeConcat(before, [c]);
    assert Encode([c]) == EncodeChar(c) + Encode([]);
  }

  /** The normal form of a segment is its own normal form. */
  lemma CanonicalSegmentIdempotent(s: string)
    requires WellEscaped(s) && CanonicalSegment(s).Some?
    ensures WellEscaped(CanonicalSegment(s).value)
    ensures CanonicalSegment(CanonicalSegment(s).value) == CanonicalSegment(s)
  {
    var cs := Chars(Tokens(s), []).value;
    RenderedClean(cs);
    TextTokens(Rendered(cs));
    CharsRendered(cs, []);
    assert [] + cs == cs;
  }

  // ---------------------------------------------------------------- what is preserved

  lemma {:induction false} CharsKeepOctets(ts: seq<Token>, pending: seq<Byte>)
    requires Chars(ts, pending).Some?
    ensures Encode(Chars(ts, pending).value) == pending + Octets(ts)
    decreases |ts|
  {
    if ts == [] {
      EncodeDecode(pending);
      assert pending + [] == pending;
    } else {
      match ts[0]
      case Escape(b) =>
        CharsKeepOctets(ts[1..], pending + [b]);
        assert pending + [b] + Octets(ts[1..]) == pending + Octets(ts);
      case Literal(c) =>
        var before, rest := Decode(pending).value, Chars(ts[1..], []).value;
        EncodeDecode(pending);
        CharsKeepOctets(ts[1..], []);
        EncodeOneMore(before, c);
        EncodeConcat(before + [c], rest);
        assert [] + Octets(ts[1..]) == Octets(ts[1..]);
        ConcatAssociative(pending, EncodeChar(c), Octets(ts[1..]));
    }
  }

  /** A segment and its normal form stand for the same bytes. */
  lemma CanonicalSegmentSameOctets(s: string)
    requires WellEscaped(s) && CanonicalSegment(s).Some?
    ensures WellEscaped(CanonicalSegment(s).value)
    ensures Octets(Tokens(CanonicalSegment(s).value)) == Octets(Tokens(s))
  {
    var cs := Chars(Tokens(s), []).value;
    RenderedClean(cs);
    TextTokens(Rendered(cs));
    CharsRendered(cs, []);
    CharsKeepOctets(Tokens(s), []);
    CharsKeepOctets(Rendered(cs), []);
    assert [] + cs == cs;
    assert [] + Octets(Tokens(s)) == Octets(Tokens(s)) && [] + Octets(Rendered(cs)) == Octets(Rendered(cs));
  }

  /** Two segments have the same normal form exactly when they stand for the same bytes. */
  lemma SameNormalForm(s: string, t: string)
    requires WellEscaped(s) && WellEscaped(t) && CanonicalSegment(s).Some? && CanonicalSegment(t).Some?
    ensures CanonicalSegment(s) == CanonicalSegment(t) <==> Octets(Tokens(s)) == Octets(Tokens(t))
  {
    CanonicalSegmentSameOctets(s);
    CanonicalSegmentSameOctets(t);
    if Octets(Tokens(s)) == Octets(Tokens(t)) {
      var cs, ds := Chars(Tokens(s), []).value, Chars(Tokens(t), []).value;
      CharsKeepOctets(Tokens(s), []);
      CharsKeepOctets(Tokens(t), []);
      assert Encode(cs) == Encode(ds);
      DecodeEncode(cs);
      DecodeEncode(ds);
    }
  }

  // ---------------------------------------------------------------- cutting keeps escapes

  lemma {:induction false} CutKeepsEscapes(s: string, c: char)
    requires WellEscaped(s) && !IsHex(c)
    ensures WellEscaped(Before(s, c)) && WellEscaped(After(s, c)) && Before(s, c) <= s && Lacks(Before(s, c), c)
    ensures Before(s, c) == s || (|Before(s, c)| < |s| && s[|Before(s, c)|] == c)
  {
    if s != [] && s[0] != c {
      WellEscapedSuffix(s, 1);
      CutKeepsEscapes(s[1..], c);
      var b := Before(s, c);
      assert b == [s[0]] + Before(s[1..], c) && s == [s[0]] + s[1..];
      PrefixKeepsEscapes(s, b, c);
    } else if s != [] {
      WellEscapedSuffix(s, 1);
    }
  }

  lemma PrefixKeepsEscapes(s: string, b: string, c: char)
    requires WellEscaped(s) && b <= s && !IsHex(c) && (b == s || (|b| < |s| && s[|b|] == c)) && Lacks(b, c)
    ensures WellEscaped(b)
  {
    forall i | 0 <= i < |b| && b[i] == '%' ensures EscapeAt(b, i) {
      assert EscapeAt(s, i);
    }
  }

  lemma {:induction false} SplitKeepsEscapes(s: string, c: char)
    requires WellEscaped(s) && !IsHex(c)
    ensures forall i :: 0 <= i < |Split(s, c)| ==> WellEscaped(Split(s, c)[i])
    ensures Split(s, c)[0] <= s && Lacks(Split(s, c)[0], c)
    ensures Split(s, c)[0] == s || (|Split(s, c)[0]| < |s| && s[|Split(s, c)[0]|] == c)
  {
    if s != [] {
      WellEscapedSuffix(s, 1);
      SplitKeepsEscapes(s[1..], c);
      var rest := Split(s[1..], c);
      assert s == [s[0]] + s[1..];
      if s[0] != c {
        PrefixKeepsEscapes(s, [s[0]] + rest[0], c);
        assert forall i :: 1 <= i < |rest| ==> Split(s, c)[i] == rest[i];
      } else {
        assert forall i :: 1 <= i < |Split(s, c)| ==> Split(s, c)[i] == rest[i - 1];
      }
    }
  }
}
