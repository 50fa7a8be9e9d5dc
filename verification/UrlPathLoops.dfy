/** `canonical_path` and `_canonical_segment` as the loops they are. */
module UrlPathLoops {
  import opened Basics
  import opened Strings
  import opened Utf8
  import opened PathSegments
  import opened UrlPaths

  // ---------------------------------------------------------------- one segment

  /** What is left to render when some characters have been rendered already. */
  function Continued(output: string, rest: Option<string>): Option<string> {
    if rest.None? then None else Some(output + Text(Rendered(rest.value)))
  }

  lemma {:induction false} RenderedAppend(a: string, b: string)
    ensures Rendered(a + b) == Rendered(a) + Rendered(b)
  {
    if a == [] {
      assert a + b == b;
    } else {
      RenderedAppend(a[1..], b);
      assert (a + b)[0] == a[0] && (a + b)[1..] == a[1..] + b;
      ConcatAssociative(TokensOf(a[0]), Rendered(a[1..]), Rendered(b));
    }
  }

  lemma RenderedConcat(a: string, b: string)
    ensures Text(Rendered(a + b)) == Text(Rendered(a)) + Text(Rendered(b))
  {
    RenderedAppend(a, b);
    TextConcat(Rendered(a), Rendered(b));
  }

  function Quote(c: char): string {
    Text(TokensOf(c))
  }

  lemma RenderedOne(c: char)
    ensures Text(Rendered([c])) == Quote(c)
  {
    assert Rendered([c]) == TokensOf(c) + [];
    assert TokensOf(c) + [] == TokensOf(c);
  }

  /** A run of escapes followed by something that is not an escape is decoded on its own. */
  lemma RunDecodes(bytes: seq<Byte>, ts: seq<Token>)
    requires ts == [] || ts[0].Literal?
    ensures Chars(EscapesOf(bytes) + ts, [])
         == if Decode(bytes).None? || Chars(ts, []).None? then None else Some(Decode(bytes).value + Chars(ts, []).value)
  {
    CharsPending(bytes, ts, []);
    assert [] + bytes == bytes;
    if ts == [] {
      assert Chars(ts, []) == Some("");
      assert Decode(bytes).Some? ==> Decode(bytes).value + "" == Decode(bytes).value;
    } else {
      var rest := Chars(ts[1..], []);
      if Decode(bytes).Some? && rest.Some? {
        assert Decode(bytes).value + ([] + [ts[0].lit] + rest.value) == Decode(bytes).value + [ts[0].lit] + rest.value;
      }
    }
  }

  /** The bytes of an encoded character, as the inner join writes them. */
  method QuoteBytes(c: char) returns (s: string)
    ensures s == Text(EscapesOf(EncodeChar(c)))
  {
    var bytes := EncodeChar(c);
    s := "";
    var i := |bytes|;
    assert EscapesOf(bytes[i..]) == [];
    while i > 0
      invariant 0 <= i <= |bytes| && s == Text(EscapesOf(bytes[i..]))
    {
      i := i - 1;
      assert EscapesOf(bytes[i..])[1..] == EscapesOf(bytes[i + 1..]);
      s := EscapeText(bytes[i]) + s;
    }
    assert bytes[0..] == bytes;
  }

  method QuoteChar(c: char) returns (s: string)
    ensures s == Quote(c)
  {
    if Unreserved(c) {
      s := [c];
      assert [Literal(c)][1..] == [] && Text([]) == [];
      assert Quote(c) == [c] + [];
    } else {
      s := QuoteBytes(c);
    }
  }

  /** The loop over the characters of one decoded run. */
  method RenderRun(decoded: string) returns (s: string)
    ensures s == Text(Rendered(decoded))
  {
    s := "";
    for i := 0 to |decoded|
      invariant s == Text(Rendered(decoded[..i]))
    {
      RenderedConcat(decoded[..i], [decoded[i]]);
      RenderedOne(decoded[i]);
      assert decoded[..i] + [decoded[i]] == decoded[..i + 1];
      var quoted := QuoteChar(decoded[i]);
      s := s + quoted;
    }
    assert decoded[..|decoded|] == decoded;
  }

  /** Collects a run of escapes, three characters at a time. */
  method TakeRun(s: string, start: nat) returns (index: nat, raw: seq<Byte>)
    requires WellEscaped(s) && start < |s| && s[start] == '%'
    ensures start < index <= |s| && (index < |s| ==> s[index] != '%')
    ensures WellEscaped(s[start..]) && WellEscaped(s[index..])
    ensures Tokens(s[start..]) == EscapesOf(raw) + Tokens(s[index..])
  {
    index, raw := start, [];
    WellEscapedSuffix(s, start);
    assert EscapesOf([]) + Tokens(s[start..]) == Tokens(s[start..]);
    while index < |s| && s[index] == '%'
      invariant start <= index <= |s| && (index == start ==> s[index] == '%')
      invariant WellEscaped(s[start..]) && WellEscaped(s[index..])
      invariant Tokens(s[start..]) == EscapesOf(raw) + Tokens(s[index..])
      decreases |s| - index
    {
      assert EscapeAt(s, index);
      var byte := ByteAt(s, index);
      OneEscape(s, index, raw, byte);
      raw, index := raw + [byte], index + 3;
    }
  }

  lemma OneEscape(s: string, index: nat, raw: seq<Byte>, byte: Byte)
    requires WellEscaped(s) && EscapeAt(s, index) && byte == ByteAt(s, index)
    ensures WellEscaped(s[index..]) && WellEscaped(s[index + 3..])
    ensures EscapesOf(raw) + Tokens(s[index..]) == EscapesOf(raw + [byte]) + Tokens(s[index + 3..])
  {
    WellEscapedSuffix(s, index);
    WellEscapedSuffix(s, index + 3);
    var t := s[index..];
    assert EscapeAt(t, 0) && t[3..] == s[index + 3..];
    assert ByteAt(t, 0) == byte;
    assert EscapesOf(raw + [byte]) == EscapesOf(raw) + [Escape(byte)];
    ConcatAssociative(EscapesOf(raw), [Escape(byte)], Tokens(s[index + 3..]));
  }

  lemma OneLiteral(s: string, index: nat, output: string)
    requires WellEscaped(s) && index < |s| && s[index] != '%'
    ensures WellEscaped(s[index..]) && WellEscaped(s[index + 1..])
    ensures Continued(output, Chars(Tokens(s[index..]), []))
         == Continued(output + Quote(s[index]), Chars(Tokens(s[index + 1..]), []))
  {
    WellEscapedSuffix(s, index);
    WellEscapedSuffix(s, index + 1);
    var t := s[index..];
    assert t[1..] == s[index + 1..];
    var rest := Chars(Tokens(t[1..]), []);
    if rest.Some? {
      CharsLiteral(t[0], Tokens(t[1..]), []);
      assert [] + [t[0]] + rest.value == [t[0]] + rest.value;
      RenderedConcat([t[0]], rest.value);
      RenderedOne(t[0]);
      ConcatAssociative(output, Quote(t[0]), Text(Rendered(rest.value)));
    }
  }

  lemma OneRun(s: string, start: nat, index: nat, raw: seq<Byte>, output: string)
    requires start < index <= |s| && (index < |s| ==> s[index] != '%') && WellEscaped(s[start..]) && WellEscaped(s[index..])
    requires Tokens(s[start..]) == EscapesOf(raw) + Tokens(s[index..])
    ensures Decode(raw).None? ==> Continued(output, Chars(Tokens(s[start..]), [])).None?
    ensures Decode(raw).Some? ==>
      Continued(output, Chars(Tokens(s[start..]), []))
      == Continued(output + Text(Rendered(Decode(raw).value)), Chars(Tokens(s[index..]), []))
  {
    var ts := Tokens(s[index..]);
    RunDecodes(raw, ts);
    var rest := Chars(ts, []);
    if Decode(raw).Some? && rest.Some? {
      RenderedConcat(Decode(raw).value, rest.value);
      ConcatAssociative(output, Text(Rendered(Decode(raw).value)), Text(Rendered(rest.value)));
    }
  }

  /** `_canonical_segment`. */
  method CanonicalSegmentOf(segment: string) returns (result: Option<string>)
    requires WellEscaped(segment)
    ensures result == CanonicalSegment(segment)
  {
    var output, index := "", 0;
    ghost var all := CanonicalSegment(segment);
    StartRendering(segment);
    while index < |segment|
      invariant 0 <= index <= |segment| && WellEscaped(segment[index..])
      invariant Continued(output, Chars(Tokens(segment[index..]), [])) == all
    {
      if segment[index] != '%' {
        OneLiteral(segment, index, output);
        var quoted := QuoteChar(segment[index]);
        output, index := output + quoted, index + 1;
      } else {
        var next, raw := TakeRun(segment, index);
        OneRun(segment, index, next, raw, output);
        var decoded := Decode(raw);
        if decoded.None? {
          return None;
        }
        var rendered := RenderRun(decoded.value);
        output, index := output + rendered, next;
      }
    }
    EndRendering(segment, index, output);
    result := Some(output);
  }

  lemma StartRendering(segment: string)
    requires WellEscaped(segment)
    ensures WellEscaped(segment[0..]) && Continued("", Chars(Tokens(segment[0..]), [])) == CanonicalSegment(segment)
  {
    assert segment[0..] == segment;
    var cs := Chars(Tokens(segment), []);
    if cs.Some? {
      assert "" + Text(Rendered(cs.value)) == Text(Rendered(cs.value));
    }
  }

  lemma EndRendering(segment: string, index: nat, output: string)
    requires index == |segment|
    ensures Continued(output, Chars(Tokens(segment[index..]), [])) == Some(output)
  {
    assert segment[index..] == [] && Decode([]) == Some("");
    assert output + Text(Rendered("")) == output;
  }

  // ---------------------------------------------------------------- the path

  method IsWellEscaped(s: string) returns (ok: bool)
    ensures ok <==> WellEscaped(s)
  {
    for i := 0 to |s|
      invariant forall j :: 0 <= j < i && s[j] == '%' ==> EscapeAt(s, j)
    {
      if s[i] == '%' && !(i + 2 < |s| && IsHex(s[i + 1]) && IsHex(s[i + 2])) {
        return false;
      }
    }
    ok := true;
  }

  /** The loop over the parts: normal segments are pushed, `..` pops. */
  method ResolveParts(parts: seq<string>) returns (result: Option<seq<string>>)
    requires Clean(parts)
    ensures result == Resolve(parts)
  {
    var normalized: seq<string> := [];
    for k := 0 to |parts|
      invariant Resolve(parts[..k]) == Some(normalized)
    {
      var part := parts[k];
      FoldMore(Push, [], parts[..k], part);
      assert parts[..k] + [part] == parts[..k + 1];
      if part == "" || part == "." {
        continue;
      }
      if part == ".." {
        if normalized != [] {
          normalized := normalized[..|normalized| - 1];
        }
        continue;
      }
      var canonical := CanonicalSegmentOf(part);
      if canonical.None? {
        FailsForGood(parts, k + 1);
        return None;
      }
      normalized := normalized + [Protected(part, canonical.value)];
    }
    assert parts[..|parts|] == parts;
    result := Some(normalized);
  }

  /** `canonical_path` on what `urlsplit` has left of a URL, or on a bare path. */
  method CanonicalOf(value: string) returns (result: Option<string>)
    ensures result == Canonical(value)
  {
    var ok := IsWellEscaped(value);
    if !ok {
      return None;
    }
    var normalized := ResolveParts(PartsOf(value));
    if normalized.None? {
      return None;
    }
    ResolvedIsSettled(PartsOf(value));
    var path := "/" + Join(normalized.value, '/');
    OnlySlash(normalized.value);
    if EndsInSlash(value) && path != "/" {
      path := path + "/";
    }
    result := Some(path);
  }

  lemma OnlySlash(segments: seq<string>)
    requires AllSettled(segments)
    ensures "/" + Join(segments, '/') == "/" <==> segments == []
    ensures forall trailing :: Assemble(segments, trailing) == "/" + Join(segments, '/') + (if trailing && segments != [] then "/" else "")
    ensures "/" + Join(segments, '/') + "" == "/" + Join(segments, '/')
  {
    if segments != [] {
      JoinEnds(segments);
    }
  }

  lemma {:induction false} FailsForGood(parts: seq<string>, k: nat)
    requires k <= |parts| && Resolve(parts[..k]).None?
    ensures Resolve(parts).None?
    decreases |parts|
  {
    if k < |parts| {
      assert parts[..|parts| - 1][..k] == parts[..k];
      FailsForGood(parts[..|parts| - 1], k);
    } else {
      assert parts[..k] == parts;
    }
  }

  method CanonicalPathOf(input: string, pathOf: string -> Option<string>) returns (result: Option<string>)
    ensures result == CanonicalPath(input, pathOf)
  {
    var value := if HasScheme(input) then pathOf(input) else Some(input);
    if value.None? {
      return None;
    }
    result := CanonicalOf(value.value);
  }
}
