/** The query of a chapter address: its normal form is stable, and stands for the same bytes. */
module QueryLaws {
  import opened Basics
  import opened Strings
  import opened Utf8
  import opened PathSegments
  import opened UrlPaths
  import opened UrlPathLoops
  import opened ChapterUrl

  // ---------------------------------------------------------------- tokens in normal form

  predicate NormalToken(t: Token) {
    match t
    case Literal(c) => c == '+' || Unreserved(c)
    case Escape(b) => !(b < 128 && Unreserved(b as char))
  }

  function Normalized(t: Token): seq<Token> {
    match t
    case Escape(b) => if b < 128 && Unreserved(b as char) then [Literal(b as char)] else [t]
    case Literal(c) => if c == '+' then [t] else TokensOf(c)
  }

  function AllNormalized(ts: seq<Token>): seq<Token> {
    if ts == [] then [] else Normalized(ts[0]) + AllNormalized(ts[1..])
  }

  predicate AllNormal(ts: seq<Token>) {
    forall i :: 0 <= i < |ts| ==> NormalToken(ts[i])
  }

  lemma HighBytes(c: char)
    requires !Unreserved(c)
    ensures AllNormal(EscapesOf(EncodeChar(c)))
  {
    var n := c as int;
    if n < 0x80 {
      assert EncodeChar(c) == [n];
    } else {
      EncodedIsWellFormed(c);
      var bytes := EncodeChar(c);
      forall i | 0 <= i < |bytes| ensures bytes[i] >= 0x80 {
        assert i == 0 || Follows(bytes[i]);
      }
    }
  }

  lemma NormalizedToken(t: Token)
    ensures AllNormal(Normalized(t)) && Text(Normalized(t)) == CanonicalToken(t)
  {
    match t
    case Escape(b) => TextOne(if b < 128 && Unreserved(b as char) then Literal(b as char) else t);
    case Literal(c) =>
      TextOne(t);
      if c != '+' && !Unreserved(c) {
        HighBytes(c);
      }
  }

  lemma TextOne(t: Token)
    ensures Text([t]) == Show(t)
  {
    assert [t][1..] == [] && Text([]) == [];
    assert Show(t) + [] == Show(t);
  }

  lemma {:induction false} NormalizedTokens(ts: seq<Token>)
    ensures AllNormal(AllNormalized(ts)) && Text(AllNormalized(ts)) == CanonicalTokens(ts)
  {
    if ts != [] {
      NormalizedTokens(ts[1..]);
      NormalizedToken(ts[0]);
      TextConcat(Normalized(ts[0]), AllNormalized(ts[1..]));
    }
  }

  lemma {:induction false} NormalStays(ts: seq<Token>)
    requires AllNormal(ts)
    ensures AllNormalized(ts) == ts
  {
    if ts != [] {
      assert forall i :: 0 <= i < |ts| - 1 ==> ts[1..][i] == ts[i + 1];
      NormalStays(ts[1..]);
      assert NormalToken(ts[0]);
      assert [ts[0]] + ts[1..] == ts;
    }
  }

  lemma NormalHasNoPercent(ts: seq<Token>)
    requires AllNormal(ts)
    ensures NoPercent(ts)
  {
    forall i | 0 <= i < |ts| && ts[i].Literal? ensures ts[i].lit != '%' {
      assert NormalToken(ts[i]);
    }
  }

  // ---------------------------------------------------------------- components

  /** What may stand in a component: no separator of fields, no fragment, nothing invisible. */
  predicate ComponentChar(c: char) {
    c as int > 32 && c != '=' && c != '&' && c != '#'
  }

  predicate ComponentText(s: string) {
    forall i :: 0 <= i < |s| ==> ComponentChar(s[i])
  }

  lemma {:induction false} NormalText(ts: seq<Token>)
    requires AllNormal(ts)
    ensures ComponentText(Text(ts)) && (Text(ts) == "" ==> ts == [])
  {
    if ts != [] {
      assert forall i :: 0 <= i < |ts| - 1 ==> ts[1..][i] == ts[i + 1];
      NormalText(ts[1..]);
      assert NormalToken(ts[0]);
    }
  }

  /** The normal form of a component is its own normal form, stays within one component, and is
   *  empty only for the empty component. */
  lemma ComponentIdempotent(s: string)
    requires WellEscaped(s)
    ensures var o := CanonicalComponent(s);
      WellEscaped(o) && ComponentText(o) && CanonicalComponent(o) == o && (o == "" ==> s == "")
  {
    var ts := Tokens(s);
    var ns := AllNormalized(ts);
    NormalizedTokens(ts);
    NormalHasNoPercent(ns);
    TextTokens(ns);
    NormalStays(ns);
    NormalizedTokens(ns);
    NormalText(ns);
  }

  lemma {:induction false} NormalizedOctets(ts: seq<Token>)
    ensures Octets(AllNormalized(ts)) == Octets(ts)
  {
    if ts != [] {
      NormalizedOctets(ts[1..]);
      OctetsConcat(Normalized(ts[0]), AllNormalized(ts[1..]));
      OneTokenOctets(ts[0]);
      OctetsConcat([ts[0]], ts[1..]);
      assert [ts[0]] + ts[1..] == ts;
    }
  }

  lemma {:induction false} OctetsConcat(a: seq<Token>, b: seq<Token>)
    ensures Octets(a + b) == Octets(a) + Octets(b)
  {
    if a == [] {
      assert a + b == b;
    } else {
      OctetsConcat(a[1..], b);
      assert (a + b)[0] == a[0] && (a + b)[1..] == a[1..] + b;
      var head := match a[0] case Literal(c) => EncodeChar(c) case Escape(x) => [x];
      ConcatAssociative(head, Octets(a[1..]), Octets(b));
    }
  }

  lemma {:induction false} EscapesOctets(bytes: seq<Byte>)
    ensures Octets(EscapesOf(bytes)) == bytes
  {
    if bytes != [] {
      assert EscapesOf(bytes)[1..] == EscapesOf(bytes[1..]);
      EscapesOctets(bytes[1..]);
      assert [bytes[0]] + bytes[1..] == bytes;
    }
  }

  lemma OneTokenOctets(t: Token)
    ensures Octets(Normalized(t)) == Octets([t])
  {
    assert [t][1..] == [] && Octets([]) == [];
    match t
    case Escape(b) =>
      if b < 128 && Unreserved(b as char) {
        var l := [Literal(b as char)];
        assert l[1..] == [] && EncodeChar(b as char) == [b];
      }
    case Literal(c) =>
      if c != '+' && !Unreserved(c) {
        EscapesOctets(EncodeChar(c));
        assert EncodeChar(c) + [] == EncodeChar(c);
      } else {
        assert Normalized(t) == [t];
      }
  }

  /** Keys and values of the query stand for the same bytes as before. */
  lemma ComponentSameOctets(s: string)
    requires WellEscaped(s)
    ensures WellEscaped(CanonicalComponent(s)) && Octets(Tokens(CanonicalComponent(s))) == Octets(Tokens(s))
  {
    var ns := AllNormalized(Tokens(s));
    NormalizedTokens(Tokens(s));
    NormalHasNoPercent(ns);
    TextTokens(ns);
    NormalizedOctets(Tokens(s));
  }

  // ---------------------------------------------------------------- fields and the whole query

  predicate FieldText(s: string) {
    forall i :: 0 <= i < |s| ==> s[i] as int > 32 && s[i] != '&' && s[i] != '#'
  }

  /** Its own normal form, within one component. */
  predicate StableComponent(s: string) {
    WellEscaped(s) && ComponentText(s) && CanonicalComponent(s) == s
  }

  lemma StablePair(key: string, value: string)
    requires StableComponent(key) && StableComponent(value)
    ensures var o := key + "=" + value; WellEscaped(o) && FieldText(o) && Holds(o, '=') && CanonicalField(o) == o
  {
    var o := key + "=" + value;
    CutAt(key, '=', value);
    ConcatEscapes(key, "=");
    ConcatEscapes(key + "=", value);
    assert o[|key|] == '=';
    ConcatAssociative(key, "=", value);
  }

  lemma StableKey(key: string)
    requires StableComponent(key)
    ensures FieldText(key) && !Holds(key, '=') && CanonicalField(key) == key
  {
    NothingToCut(key, '=');
    assert key + "" == key;
  }

  /** A field keeps whether it has a value, and its normal form is stable. */
  lemma FieldIdempotent(f: string)
    requires WellEscaped(f)
    ensures var o := CanonicalField(f);
      WellEscaped(o) && FieldText(o) && CanonicalField(o) == o && (o == "" ==> f == "") && (Holds(o, '=') <==> Holds(f, '='))
  {
    CutKeepsEscapes(f, '=');
    var key := CanonicalComponent(Before(f, '='));
    ComponentIdempotent(Before(f, '='));
    if Holds(f, '=') {
      var value := CanonicalComponent(After(f, '='));
      ComponentIdempotent(After(f, '='));
      StablePair(key, value);
      ConcatAssociative(key, "=", value);
    } else {
      StableKey(key);
      assert key + "" == key;
      NotHeld(f, '=');
      NothingToCut(f, '=');
    }
  }

  lemma NotHeld(s: string, c: char)
    requires !Holds(s, c)
    ensures Lacks(s, c)
  {
  }

  predicate QueryText(s: string) {
    forall i :: 0 <= i < |s| ==> s[i] as int > 32 && s[i] != '#'
  }

  lemma {:induction false} JoinedFields(fields: seq<string>)
    requires forall i :: 0 <= i < |fields| ==> WellEscaped(fields[i]) && FieldText(fields[i])
    ensures WellEscaped(Join(fields, '&')) && QueryText(Join(fields, '&'))
  {
    if |fields| > 1 {
      JoinedFields(fields[1..]);
      ConcatEscapes(fields[0], "&");
      ConcatEscapes(fields[0] + "&", Join(fields[1..], '&'));
    }
  }

  lemma {:induction false} EmptyJoin(fields: seq<string>)
    requires fields != [] && Join(fields, '&') == ""
    ensures fields == [""]
  {
  }

  /** The normal form of a query is its own normal form, and is empty only for the empty query. */
  lemma QueryIdempotent(q: string)
    requires WellEscaped(q)
    ensures var o := CanonicalQuery(q);
      WellEscaped(o) && QueryText(o) && CanonicalQuery(o) == o && (o == "" <==> q == "")
  {
    if q != "" {
      SplitKeepsEscapes(q, '&');
      var fields := Split(q, '&');
      var outs := CanonicalFields(fields);
      forall i | 0 <= i < |outs| ensures WellEscaped(outs[i]) && FieldText(outs[i]) && CanonicalField(outs[i]) == outs[i] {
        FieldIdempotent(fields[i]);
      }
      JoinedFields(outs);
      SplitJoin(outs, '&');
      assert CanonicalFields(outs) == outs;
      if Join(outs, '&') == "" {
        EmptyJoin(outs);
        FieldIdempotent(fields[0]);
        JoinSplit(q, '&');
      }
    }
  }

  // ---------------------------------------------------------------- the loop

  lemma EscapeStep(value: string, index: nat, output: string)
    requires WellEscaped(value) && EscapeAt(value, index)
    ensures WellEscaped(value[index..]) && WellEscaped(value[index + 3..])
    ensures output + CanonicalTokens(Tokens(value[index..]))
         == output + CanonicalOctet(ByteAt(value, index)) + CanonicalTokens(Tokens(value[index + 3..]))
  {
    WellEscapedSuffix(value, index);
    WellEscapedSuffix(value, index + 3);
    var t := value[index..];
    assert EscapeAt(t, 0) && t[3..] == value[index + 3..] && ByteAt(t, 0) == ByteAt(value, index);
    assert Tokens(t)[1..] == Tokens(t[3..]);
    ConcatAssociative(output, CanonicalOctet(ByteAt(value, index)), CanonicalTokens(Tokens(t[3..])));
  }

  lemma LiteralStep(value: string, index: nat, output: string)
    requires WellEscaped(value) && index < |value| && value[index] != '%'
    ensures WellEscaped(value[index..]) && WellEscaped(value[index + 1..])
    ensures output + CanonicalTokens(Tokens(value[index..]))
         == output + CanonicalToken(Literal(value[index])) + CanonicalTokens(Tokens(value[index + 1..]))
  {
    WellEscapedSuffix(value, index);
    WellEscapedSuffix(value, index + 1);
    var t := value[index..];
    assert t[1..] == value[index + 1..];
    assert Tokens(t)[1..] == Tokens(t[1..]);
    ConcatAssociative(output, CanonicalToken(Literal(t[0])), CanonicalTokens(Tokens(t[1..])));
  }

  /** `_canonical_query_component`. */
  method CanonicalComponentOf(value: string) returns (output: string)
    requires WellEscaped(value)
    ensures output == CanonicalComponent(value)
  {
    output := "";
    var index := 0;
    assert value[0..] == value;
    assert output + CanonicalComponent(value) == CanonicalComponent(value);
    while index < |value|
      invariant 0 <= index <= |value| && WellEscaped(value[index..])
      invariant output + CanonicalTokens(Tokens(value[index..])) == CanonicalComponent(value)
    {
      var character := value[index];
      if character == '%' {
        assert EscapeAt(value, index);
        EscapeStep(value, index, output);
        output, index := output + CanonicalOctet(ByteAt(value, index)), index + 3;
      } else if character == '+' {
        LiteralStep(value, index, output);
        output, index := output + "+", index + 1;
      } else {
        LiteralStep(value, index, output);
        var quoted := QuoteChar(character);
        output, index := output + quoted, index + 1;
      }
    }
    assert value[index..] == [];
    assert output + [] == output;
  }
}
