/** What an address and its normal form share, and when two addresses of a book are taken for the same
 *  chapter: scheme, host, effective port, the segments of the path, and the fields of the query. */
module AddressLaws {
  import opened Basics
  import opened Strings
  import opened Utf8
  import opened PathSegments
  import opened UrlPaths
  import opened ChapterUrl
  import opened QueryLaws
  import opened ChapterUrlLaws

  // ---------------------------------------------------------------- what a component says

  /** A plus sign that stands for itself, which servers may read as a space, or a byte. */
  datatype Sign = Plus | Octet(byte: Byte)

  function Spelled(bytes: seq<Byte>): seq<Sign> {
    seq(|bytes|, i requires 0 <= i < |bytes| => Octet(bytes[i]))
  }

  function SignsOf(t: Token): seq<Sign> {
    match t
    case Escape(b) => [Octet(b)]
    case Literal(c) => if c == '+' then [Plus] else Spelled(EncodeChar(c))
  }

  function AllSigns(ts: seq<Token>): seq<Sign> {
    if ts == [] then [] else SignsOf(ts[0]) + AllSigns(ts[1..])
  }

  /** What a component of the query says. `%2B` is a byte like any other, `+` is not. */
  function Says(s: string): seq<Sign>
    requires WellEscaped(s)
  {
    AllSigns(Tokens(s))
  }

  function TokenOf(x: Sign): Token {
    match x
    case Plus => Literal('+')
    case Octet(b) => if b < 128 && Unreserved(b as char) then Literal(b as char) else Escape(b)
  }

  function TokensFor(signs: seq<Sign>): seq<Token> {
    seq(|signs|, i requires 0 <= i < |signs| => TokenOf(signs[i]))
  }

  lemma TokenIsItsSigns(t: Token)
    ensures Normalized(t) == TokensFor(SignsOf(t)) && AllSigns(Normalized(t)) == SignsOf(t)
  {
    match t
    case Escape(b) => OneSign(TokenOf(Octet(b)));
    case Literal(c) =>
      if c == '+' || Unreserved(c) {
        OneSign(t);
      } else {
        HighBytes(c);
        EscapesSigns(EncodeChar(c));
        forall i | 0 <= i < |EncodeChar(c)| ensures TokenOf(Octet(EncodeChar(c)[i])) == Escape(EncodeChar(c)[i]) {
          assert NormalToken(EscapesOf(EncodeChar(c))[i]);
        }
      }
  }

  lemma OneSign(t: Token)
    requires t.Literal? ==> t.lit == '+' || Unreserved(t.lit)
    ensures AllSigns([t]) == SignsOf(t) && |SignsOf(t)| == 1 && TokenOf(SignsOf(t)[0]) == if t.Literal? then t else TokenOf(Octet(t.byte))
  {
    assert [t][1..] == [] && SignsOf(t) + [] == SignsOf(t);
  }

  lemma {:induction false} EscapesSigns(bytes: seq<Byte>)
    ensures AllSigns(EscapesOf(bytes)) == Spelled(bytes)
  {
    if bytes != [] {
      assert EscapesOf(bytes)[1..] == EscapesOf(bytes[1..]);
      EscapesSigns(bytes[1..]);
      assert [Octet(bytes[0])] + Spelled(bytes[1..]) == Spelled(bytes);
    }
  }

  lemma {:induction false} SignsConcat(a: seq<Token>, b: seq<Token>)
    ensures AllSigns(a + b) == AllSigns(a) + AllSigns(b)
  {
    if a == [] {
      assert a + b == b;
    } else {
      SignsConcat(a[1..], b);
      assert (a + b)[0] == a[0] && (a + b)[1..] == a[1..] + b;
      ConcatAssociative(SignsOf(a[0]), AllSigns(a[1..]), AllSigns(b));
    }
  }

  /** The normal tokens of a component are those of what it says, and say the same. */
  lemma {:induction false} NormalTokensSay(ts: seq<Token>)
    ensures AllNormalized(ts) == TokensFor(AllSigns(ts)) && AllSigns(AllNormalized(ts)) == AllSigns(ts)
  {
    if ts != [] {
      NormalTokensSay(ts[1..]);
      TokenIsItsSigns(ts[0]);
      SignsConcat(Normalized(ts[0]), AllNormalized(ts[1..]));
      TokensForConcat(SignsOf(ts[0]), AllSigns(ts[1..]));
    }
  }

  lemma TokensForConcat(a: seq<Sign>, b: seq<Sign>)
    ensures TokensFor(a + b) == TokensFor(a) + TokensFor(b)
  {
  }

  /** A component and its normal form say the same, and two components have one normal form exactly
   *  when they say the same. */
  lemma SameComponent(s: string, t: string)
    requires WellEscaped(s) && WellEscaped(t)
    ensures WellEscaped(CanonicalComponent(s)) && Says(CanonicalComponent(s)) == Says(s)
    ensures CanonicalComponent(s) == CanonicalComponent(t) <==> Says(s) == Says(t)
  {
    ComponentSays(s);
    ComponentSays(t);
    NormalTokensSay(Tokens(s));
    NormalTokensSay(Tokens(t));
    NormalizedTokens(Tokens(s));
    NormalizedTokens(Tokens(t));
  }

  lemma ComponentSays(s: string)
    requires WellEscaped(s)
    ensures WellEscaped(CanonicalComponent(s)) && Says(CanonicalComponent(s)) == Says(s)
  {
    var ns := AllNormalized(Tokens(s));
    NormalizedTokens(Tokens(s));
    NormalHasNoPercent(ns);
    TextTokens(ns);
    NormalTokensSay(Tokens(s));
  }

  // ---------------------------------------------------------------- fields and the query

  /** What a field says: its key, and its value if it has an equals sign. */
  datatype FieldSays = FieldSays(key: seq<Sign>, value: Option<seq<Sign>>)

  function FieldMeaning(f: string): FieldSays
    requires WellEscaped(f)
  {
    CutKeepsEscapes(f, '=');
    FieldSays(Says(Before(f, '=')), if Holds(f, '=') then Some(Says(After(f, '='))) else None)
  }

  /** The parts of a field in normal form can be read back from it. */
  lemma NormalFieldParts(f: string)
    requires WellEscaped(f)
    ensures WellEscaped(Before(f, '=')) && WellEscaped(After(f, '='))
    ensures var o := CanonicalField(f);
      && Before(o, '=') == CanonicalComponent(Before(f, '=')) && (Holds(o, '=') <==> Holds(f, '='))
      && (Holds(f, '=') ==> After(o, '=') == CanonicalComponent(After(f, '=')))
  {
    CutKeepsEscapes(f, '=');
    FieldIdempotent(f);
    var key := CanonicalComponent(Before(f, '='));
    ComponentIdempotent(Before(f, '='));
    if Holds(f, '=') {
      var value := CanonicalComponent(After(f, '='));
      ConcatAssociative(key, "=", value);
      CutAt(key, '=', value);
    } else {
      assert key + "" == key;
      NothingToCut(key, '=');
    }
  }

  lemma SameField(f: string, g: string)
    requires WellEscaped(f) && WellEscaped(g)
    ensures WellEscaped(CanonicalField(f)) && FieldMeaning(CanonicalField(f)) == FieldMeaning(f)
    ensures CanonicalField(f) == CanonicalField(g) <==> FieldMeaning(f) == FieldMeaning(g)
  {
    FieldIdempotent(f);
    NormalFieldParts(f);
    NormalFieldParts(g);
    SameComponent(Before(f, '='), Before(g, '='));
    SameComponent(After(f, '='), After(g, '='));
  }

  /** What a query says, field by field. */
  function QuerySays(q: string): seq<FieldSays>
    requires WellEscaped(q)
  {
    SplitKeepsEscapes(q, '&');
    var fields := Split(q, '&');
    seq(|fields|, i requires 0 <= i < |fields| => FieldMeaning(fields[i]))
  }

  /** The fields of a normal query are the normal fields. */
  lemma NormalQueryFields(q: string)
    requires WellEscaped(q)
    ensures forall i :: 0 <= i < |Split(q, '&')| ==> WellEscaped(Split(q, '&')[i])
    ensures Split(CanonicalQuery(q), '&') == CanonicalFields(Split(q, '&'))
  {
    SplitKeepsEscapes(q, '&');
    var fields := Split(q, '&');
    var outs := CanonicalFields(fields);
    if q == "" {
      assert fields == [""] && CanonicalField("") == "";
      assert outs == [""];
    } else {
      forall i | 0 <= i < |outs| ensures Lacks(outs[i], '&') {
        FieldIdempotent(fields[i]);
      }
      SplitJoin(outs, '&');
    }
  }

  lemma QuerySame(q: string)
    requires WellEscaped(q)
    ensures WellEscaped(CanonicalQuery(q)) && QuerySays(CanonicalQuery(q)) == QuerySays(q)
  {
    QueryIdempotent(q);
    NormalQueryFields(q);
    var fields, outs := Split(q, '&'), Split(CanonicalQuery(q), '&');
    var said, kept := QuerySays(q), QuerySays(CanonicalQuery(q));
    assert |said| == |fields| == |outs| == |kept|;
    forall i | 0 <= i < |fields| ensures kept[i] == said[i] {
      SameField(fields[i], fields[i]);
    }
  }

  /** A query and its normal form have as many fields, and field by field the same key, the same equals
   *  sign and the same value. Two queries have one normal form exactly when they agree in this. */
  lemma SameQuery(q: string, r: string)
    requires WellEscaped(q) && WellEscaped(r)
    ensures WellEscaped(CanonicalQuery(q)) && QuerySays(CanonicalQuery(q)) == QuerySays(q)
    ensures CanonicalQuery(q) == CanonicalQuery(r) <==> QuerySays(q) == QuerySays(r)
  {
    QuerySame(q);
    QuerySame(r);
    if QuerySays(q) == QuerySays(r) {
      NormalQueryFields(q);
      NormalQueryFields(r);
      var fields, others := Split(q, '&'), Split(r, '&');
      assert |fields| == |QuerySays(q)| && |others| == |QuerySays(r)|;
      forall i | 0 <= i < |fields| ensures CanonicalField(fields[i]) == CanonicalField(others[i]) {
        assert QuerySays(q)[i] == FieldMeaning(fields[i]) && QuerySays(r)[i] == FieldMeaning(others[i]);
        SameField(fields[i], others[i]);
      }
      assert CanonicalFields(fields) == CanonicalFields(others);
      QueryIdempotent(q);
      QueryIdempotent(r);
      JoinSplit(CanonicalQuery(q), '&');
      JoinSplit(CanonicalQuery(r), '&');
    }
  }

  // ---------------------------------------------------------------- the whole address

  /** The port that is talked to. */
  function EffectivePort(port: Option<nat>, scheme: string): nat {
    if port.Some? then port.value else if scheme == "https" then 443 else 80
  }

  /** The path that is brought to its normal form: a path that looks like a URL is split once more. */
  function PathIn(path: string, w: World): Option<string> {
    var input := if path == "" then "/" else path;
    if HasScheme(input) then PathOf(input, w) else Some(input)
  }

  /** An accepted address, taken apart. */
  datatype Address = Address(scheme: string, host: string, port: nat, path: string, query: string)

  /** What an accepted address is made of. */
  ghost predicate Reads(url: string, w: World, a: Address) {
    CanonicalChapterUrl(url, w).Some?
    && var p := UrlSplit(url, w).value;
       && a.scheme == p.scheme
       && w.domain(HostPort(p.netloc).0) == Some(a.host)
       && PortOf(HostPort(p.netloc).1).Some? && a.port == EffectivePort(PortOf(HostPort(p.netloc).1).value, p.scheme)
       && PathIn(p.path, w) == Some(a.path)
       && a.query == p.query
  }

  predicate Proper(a: Address) {
    && (a.scheme == "http" || a.scheme == "https") && HostText(a.host) && 1 <= a.port <= 65535
    && WellEscaped(a.path) && Canonical(a.path).Some? && WellEscaped(a.query)
  }

  lemma ReadsOne(url: string, w: World) returns (a: Address)
    requires Honest(w) && CanonicalChapterUrl(url, w).Some?
    ensures Reads(url, w, a) && Proper(a) && CanonicalChapterUrl(url, w).value == Composed(a)
    ensures forall b :: Reads(url, w, b) ==> b == a
  {
    var p := UrlSplit(url, w).value;
    var host, port := w.domain(HostPort(p.netloc).0).value, PortOf(HostPort(p.netloc).1).value;
    a := Address(p.scheme, host, EffectivePort(port, p.scheme), PathIn(p.path, w).value, p.query);
    PortIsNumber(HostPort(p.netloc).1);
    AuthorityByPort(host, port, p.scheme);
  }

  lemma PortIsNumber(text: string)
    requires PortOf(text).Some?
    ensures PortOf(text).value.Some? ==> 1 <= PortOf(text).value.value <= 65535
  {
  }

  /** The authority of a normal form: the host, and the port unless the scheme implies it. */
  function AuthorityFor(scheme: string, host: string, port: nat): string {
    if port == (if scheme == "https" then 443 else 80) then host else host + ":" + Decimal(port)
  }

  lemma AuthorityByPort(host: string, port: Option<nat>, scheme: string)
    ensures Authority(host, port, scheme) == AuthorityFor(scheme, host, EffectivePort(port, scheme))
  {
  }

  /** The normal form, put together again. */
  function Composed(a: Address): string
    requires Proper(a)
  {
    Unsplit(a.scheme, AuthorityFor(a.scheme, a.host, a.port), Canonical(a.path).value, CanonicalQuery(a.query))
  }

  lemma PlainPathIsText(value: string)
    requires Canonical(value).Some?
    ensures PathText(Canonical(value).value) && WellEscaped(Canonical(value).value)
  {
    CanonicalIsAssembled(value);
    var segments :| AllSettled(segments) && Canonical(value).value == Assemble(segments, EndsInSlash(value));
    SplitAssembled(segments, EndsInSlash(value));
    forall i | 0 <= i < |segments| ensures forall j :: 0 <= j < |segments[i]| ==> PathChar(segments[i][j]) {
      SettledNormal(segments[i]);
      NormalIsPath(segments[i]);
    }
    JoinIsPath(segments);
  }

  lemma PortRead(host: string, port: nat, scheme: string)
    requires HostText(host) && 1 <= port <= 65535
    ensures var a := AuthorityFor(scheme, host, port);
      && AuthorityText(a) && HostPort(a).0 == host
      && PortOf(HostPort(a).1).Some? && EffectivePort(PortOf(HostPort(a).1).value, scheme) == port
  {
    AuthorityParts(host, Some(port), scheme);
    var a := AuthorityFor(scheme, host, port);
    PlainAuthority(a);
    if a == host {
      NothingToCut(host, ':');
    } else {
      DecimalIsNumber(port);
      CutAt(host, ':', Decimal(port));
    }
  }

  /** The parts of a normal form can be read back from it. */
  lemma ComposedParts(a: Address, w: World)
    requires Honest(w) && Proper(a)
    ensures UrlSplit(Composed(a), w)
      == Some(Parts(a.scheme, AuthorityFor(a.scheme, a.host, a.port), Canonical(a.path).value, CanonicalQuery(a.query)))
  {
    PortRead(a.host, a.port, a.scheme);
    PlainPathIsText(a.path);
    QueryIdempotent(a.query);
    SplitUnsplit(a.scheme, AuthorityFor(a.scheme, a.host, a.port), Canonical(a.path).value, CanonicalQuery(a.query), w);
  }

  /** Two paths that lead to the same place. */
  predicate SamePath(p: string, q: string)
    requires WellEscaped(p) && WellEscaped(q)
  {
    Meaning(PartsOf(p)) == Meaning(PartsOf(q)) && (Meaning(PartsOf(p)) == Some([]) || EndsInSlash(p) == EndsInSlash(q))
  }

  predicate SameAddress(a: Address, b: Address)
    requires Proper(a) && Proper(b)
  {
    a.scheme == b.scheme && a.host == b.host && a.port == b.port && SamePath(a.path, b.path) && QuerySays(a.query) == QuerySays(b.query)
  }

  lemma SameComposed(a: Address, b: Address, w: World)
    requires Honest(w) && Proper(a) && Proper(b)
    ensures Composed(a) == Composed(b) <==> SameAddress(a, b)
  {
    SameCanonicalPath(a.path, b.path);
    SameQuery(a.query, b.query);
    if Composed(a) == Composed(b) {
      ComposedParts(a, w);
      ComposedParts(b, w);
      PortRead(a.host, a.port, a.scheme);
      PortRead(b.host, b.port, b.scheme);
    }
  }

  /** Exactly when two addresses of a book are taken for the same chapter: they agree in scheme, host and
   *  the port that is talked to, their paths lead to the same segments and agree on the trailing slash,
   *  and their queries have the same fields, `+` told apart from `%2B`. */
  lemma SameChapterIff(u: string, v: string, w: World)
    requires Honest(w) && CanonicalChapterUrl(u, w).Some? && CanonicalChapterUrl(v, w).Some?
    ensures CanonicalChapterUrl(u, w) == CanonicalChapterUrl(v, w) <==>
      exists a, b :: Reads(u, w, a) && Reads(v, w, b) && Proper(a) && Proper(b) && SameAddress(a, b)
  {
    var a := ReadsOne(u, w);
    var b := ReadsOne(v, w);
    SameComposed(a, b, w);
  }

  /** An address and its normal form are the same address. */
  lemma NormalFormSays(u: string, w: World)
    requires Honest(w) && CanonicalChapterUrl(u, w).Some?
    ensures var n := CanonicalChapterUrl(u, w).value;
      exists a, b :: Reads(u, w, a) && Reads(n, w, b) && Proper(a) && Proper(b) && SameAddress(a, b)
  {
    CanonicalChapterUrlIdempotent(u, w);
    SameChapterIff(u, CanonicalChapterUrl(u, w).value, w);
  }

  // ---------------------------------------------------------------- dot segments

  /** One part more. */
  lemma ResolveMore(parts: seq<string>, part: string)
    ensures Resolve(parts + [part]) == if Resolve(parts).None? then None else Push(Resolve(parts).value, part)
  {
    FoldMore(Push, [], parts, part);
  }

  /** What follows depends only on what has been resolved so far. */
  lemma {:induction false} SameSoFar(a: seq<string>, b: seq<string>, rest: seq<string>)
    requires Resolve(a) == Resolve(b)
    ensures Resolve(a + rest) == Resolve(b + rest)
    decreases |rest|
  {
    if rest == [] {
      assert a + rest == a && b + rest == b;
    } else {
      var n := |rest| - 1;
      SameSoFar(a, b, rest[..n]);
      ResolveMore(a + rest[..n], rest[n]);
      ResolveMore(b + rest[..n], rest[n]);
      assert a + rest[..n] + [rest[n]] == a + rest && b + rest[..n] + [rest[n]] == b + rest;
    }
  }

  /** Empty segments and single dots do not count. */
  lemma NothingParts(before: seq<string>, part: string, rest: seq<string>)
    requires part == "" || part == "."
    ensures Resolve(before + [part] + rest) == Resolve(before + rest)
  {
    ResolveMore(before, part);
    SameSoFar(before + [part], before, rest);
  }

  /** A segment in normal form stays. */
  lemma SettledStays(before: seq<string>, part: string)
    requires Settled(part) && Resolve(before).Some?
    ensures Resolve(before + [part]) == Some(Resolve(before).value + [part])
  {
    ResolveMore(before, part);
  }

  /** Two dots take back the segment before them. */
  lemma UpTakesBack(before: seq<string>, part: string, rest: seq<string>)
    requires part != "" && !IsDots(part) && Resolve(before + [part]).Some?
    ensures Resolve(before + [part] + [".."] + rest) == Resolve(before + rest)
  {
    ResolveMore(before, part);
    ResolveMore(before + [part], "..");
    var stack := Resolve(before).value;
    assert Resolve(before + [part]).value[..|stack|] == stack;
    SameSoFar(before + [part] + [".."], before, rest);
  }

  /** At the root they take back nothing. */
  lemma UpAtTheRoot(rest: seq<string>)
    ensures Resolve([".."] + rest) == Resolve(rest)
  {
    ResolveMore([], "..");
    assert [] + [".."] == [".."] && [] + rest == rest;
    SameSoFar([".."], [], rest);
  }

  // ---------------------------------------------------------------- which addresses are accepted

  /** A text as it is written: scheme, user, host, port, path, query and fragment. */
  datatype Written = Written(
    scheme: string, user: Option<string>, host: string, port: Option<string>, path: string, query: Option<string>, fragment: Option<string>)

  function NetlocText(t: Written): string {
    (if t.user.Some? then t.user.value + "@" else "") + t.host + (if t.port.Some? then ":" + t.port.value else "")
  }

  function TailText(t: Written): string {
    t.path + (if t.query.Some? then "?" + t.query.value else "") + (if t.fragment.Some? then "#" + t.fragment.value else "")
  }

  function Shown(t: Written): string {
    t.scheme + ":" + ("//" + NetlocText(t) + TailText(t))
  }

  predicate Without(s: string, cs: string) {
    forall i :: 0 <= i < |s| ==> s[i] !in cs
  }

  /** Nothing in it is a delimiter of what comes after it. */
  predicate Delimited(t: Written) {
    && IsScheme(t.scheme)
    && (t.user.Some? ==> Without(t.user.value, "/?#@"))
    && Without(t.host, "/?#@:[") && (t.port.Some? ==> Without(t.port.value, "/?#@:["))
    && Without(t.path, "?#") && (t.path != "" ==> t.path[0] == '/')
    && (t.query.Some? ==> Without(t.query.value, "#"))
  }

  lemma {:induction false} NetlocEnds(n: string, rest: string)
    requires Without(n, "/?#") && (rest != "" ==> EndsNetloc(rest[0]))
    ensures Netloc(n + rest) == n && AfterNetloc(n + rest) == rest
  {
    if n == "" {
      assert n + rest == rest;
    } else {
      assert (n + rest)[1..] == n[1..] + rest && (n + rest)[0] == n[0];
      NetlocEnds(n[1..], rest);
      assert [n[0]] + n[1..] == n;
    }
  }

  lemma WithoutLacks(s: string, cs: string, c: char)
    requires Without(s, cs) && c in cs
    ensures Lacks(s, c)
  {
  }

  /** Path and query as they were written. */
  function Front(t: Written): string {
    t.path + (if t.query.Some? then "?" + t.query.value else "")
  }

  lemma FragmentIsCut(t: Written)
    requires Delimited(t)
    ensures Before(TailText(t), '#') == Front(t)
  {
    WithoutLacks(t.path, "?#", '#');
    if t.query.Some? {
      WithoutLacks(t.query.value, "#", '#');
    }
    assert Lacks(Front(t), '#');
    if t.fragment.Some? {
      ConcatAssociative(Front(t), "#", t.fragment.value);
      CutAt(Front(t), '#', t.fragment.value);
    } else {
      assert TailText(t) == Front(t);
      NothingToCut(Front(t), '#');
    }
  }

  lemma TailReads(t: Written)
    requires Delimited(t)
    ensures var tail := Before(TailText(t), '#');
      Before(tail, '?') == t.path && After(tail, '?') == if t.query.Some? then t.query.value else ""
  {
    FragmentIsCut(t);
    WithoutLacks(t.path, "?#", '?');
    if t.query.Some? {
      assert Front(t) == t.path + "?" + t.query.value;
      CutAt(t.path, '?', t.query.value);
    } else {
      assert Front(t) == t.path;
      NothingToCut(t.path, '?');
    }
  }

  lemma SchemeReads(scheme: string, rest: string)
    requires IsScheme(scheme)
    ensures var u := scheme + ":" + rest;
      StripLeft(u) == u && Holds(u, ':') && Before(u, ':') == scheme && After(u, ':') == rest
  {
    var u := scheme + ":" + rest;
    forall i | 0 <= i < |scheme| ensures scheme[i] != ':' {
      assert SchemeChar(scheme[i]);
    }
    CutAt(scheme, ':', rest);
    assert u[|scheme|] == ':' && u[0] == scheme[0];
  }

  lemma RestReads(t: Written, scheme: string, w: World)
    requires Delimited(t)
    ensures SplitRest(scheme, "//" + NetlocText(t) + TailText(t), w) ==
      if w.netlocOk(NetlocText(t)) then Some(Parts(scheme, NetlocText(t), t.path, if t.query.Some? then t.query.value else "")) else None
  {
    var rest := "//" + NetlocText(t) + TailText(t);
    assert rest[2..] == NetlocText(t) + TailText(t) && "//" <= rest;
    TailReads(t);
    NetlocIsDelimited(t);
    if TailText(t) != "" {
      TailBegins(t);
    }
    NetlocEnds(NetlocText(t), TailText(t));
  }

  /** `urlsplit` finds the parts that were written; the fragment is lost. */
  lemma SplitReads(t: Written, w: World)
    requires Delimited(t)
    ensures UrlSplit(Shown(t), w) ==
      if w.netlocOk(NetlocText(t)) then Some(Parts(Lower(t.scheme), NetlocText(t), t.path, if t.query.Some? then t.query.value else "")) else None
  {
    SchemeReads(t.scheme, "//" + NetlocText(t) + TailText(t));
    RestReads(t, Lower(t.scheme), w);
  }

  lemma TailBegins(t: Written)
    requires Delimited(t) && TailText(t) != ""
    ensures EndsNetloc(TailText(t)[0])
  {
    if t.path != "" {
      assert TailText(t)[0] == t.path[0];
    } else if t.query.Some? {
      assert TailText(t)[0] == '?';
    }
  }

  lemma NetlocIsDelimited(t: Written)
    requires Delimited(t)
    ensures Without(NetlocText(t), "/?#")
  {
  }

  /** Host and port as they were written. */
  function HostAndPort(t: Written): string {
    t.host + (if t.port.Some? then ":" + t.port.value else "")
  }

  lemma HostReads(t: Written)
    requires Delimited(t)
    ensures Lacks(HostAndPort(t), '@') && !Holds(HostAndPort(t), '[')
    ensures Before(HostAndPort(t), ':') == t.host && After(HostAndPort(t), ':') == if t.port.Some? then t.port.value else ""
  {
    var info := HostAndPort(t);
    WithoutLacks(t.host, "/?#@:[", ':');
    assert Without(info, "@[");
    WithoutLacks(info, "@[", '@');
    WithoutLacks(info, "@[", '[');
    if t.port.Some? {
      assert info == t.host + ":" + t.port.value;
      CutAt(t.host, ':', t.port.value);
    } else {
      assert info == t.host;
      NothingToCut(t.host, ':');
    }
  }

  lemma UserReads(t: Written)
    requires Lacks(HostAndPort(t), '@')
    ensures AfterLast(NetlocText(t), '@') == HostAndPort(t)
    ensures BeforeLast(NetlocText(t), '@') == if t.user.Some? then t.user.value else ""
  {
    if t.user.Some? {
      ConcatAssociative(t.user.value + "@", t.host, if t.port.Some? then ":" + t.port.value else "");
      LastCut(t.user.value, '@', HostAndPort(t));
    } else {
      assert NetlocText(t) == HostAndPort(t);
      NothingToCut(HostAndPort(t), '@');
    }
  }

  /** Host, port and user are those that were written. */
  lemma NetlocReads(t: Written)
    requires Delimited(t)
    ensures HostPort(NetlocText(t)) == (t.host, if t.port.Some? then t.port.value else "")
    ensures HasUser(NetlocText(t)) <==> t.user.Some? && t.user.value != "" && t.user.value != ":"
  {
    HostReads(t);
    UserReads(t);
    CutIsEmptyIff(BeforeLast(NetlocText(t), '@'), ':');
  }

  lemma {:induction false} LastCut(a: string, c: char, rest: string)
    requires Lacks(rest, c)
    ensures AfterLast(a + [c] + rest, c) == rest && BeforeLast(a + [c] + rest, c) == a
    decreases |rest|
  {
    var s := a + [c] + rest;
    if rest == "" {
      assert s[|s| - 1] == c && s[..|s| - 1] == a;
    } else {
      var n := |rest| - 1;
      assert s[|s| - 1] == rest[n] && s[..|s| - 1] == a + [c] + rest[..n];
      LastCut(a, c, rest[..n]);
      assert rest[..n] + [rest[n]] == rest;
    }
  }

  lemma CutIsEmptyIff(s: string, c: char)
    ensures Before(s, c) == "" && After(s, c) == "" <==> s == "" || s == [c]
  {
    if s != "" && s[0] == c {
      assert s == [c] + s[1..];
    }
  }

  /** A port is absent, empty, or a number from 1 to 65535. */
  predicate PortOk(port: Option<string>) {
    port.Some? && port.value != "" ==> AllDigits(port.value) && 1 <= Numeral(port.value) <= 65535
  }

  lemma AcceptedParts(url: string, w: World, p: Parts)
    requires UrlSplit(url, w) == Some(p)
    ensures CanonicalChapterUrl(url, w).Some? <==>
      && !HasControl(url) && WellEscaped(url) && (p.scheme == "http" || p.scheme == "https")
      && HostPort(p.netloc).0 != "" && w.domain(HostPort(p.netloc).0).Some? && !HasUser(p.netloc)
      && PortOf(HostPort(p.netloc).1).Some? && WellEscaped(p.query)
      && PathIn(p.path, w).Some? && Canonical(PathIn(p.path, w).value).Some?
  {
  }

  lemma PortOkIff(port: Option<string>)
    ensures PortOk(port) <==> PortOf(if port.Some? then port.value else "").Some?
  {
  }

  /** Which addresses are accepted: no control characters and no broken escapes, HTTP or HTTPS in any case
   *  of letters, a host that is a domain and to which `urlsplit` does not object, neither user nor
   *  password, a proper port, and a path that can be decoded. */
  lemma AcceptedIff(t: Written, w: World)
    requires Delimited(t) && (t.query.Some? ==> WellEscaped(t.query.value))
    ensures CanonicalChapterUrl(Shown(t), w).Some? <==>
      && (forall i :: 0 <= i < |Shown(t)| ==> Shown(t)[i] as int >= 32) && WellEscaped(Shown(t))
      && (Lower(t.scheme) == "http" || Lower(t.scheme) == "https")
      && t.host != "" && w.domain(t.host).Some? && w.netlocOk(NetlocText(t))
      && (t.user.Some? ==> t.user.value == "" || t.user.value == ":")
      && PortOk(t.port)
      && PathIn(t.path, w).Some? && Canonical(PathIn(t.path, w).value).Some?
  {
    SplitReads(t, w);
    NetlocReads(t);
    PortOkIff(t.port);
    if w.netlocOk(NetlocText(t)) {
      AcceptedParts(Shown(t), w, UrlSplit(Shown(t), w).value);
    }
  }

  /** The address that was written. */
  function Meant(t: Written, w: World): Address
    requires w.domain(t.host).Some? && PathIn(t.path, w).Some? && PortOk(t.port)
  {
    var port := if t.port.Some? && t.port.value != "" then Numeral(t.port.value) else if Lower(t.scheme) == "https" then 443 else 80;
    Address(Lower(t.scheme), w.domain(t.host).value, port, PathIn(t.path, w).value, if t.query.Some? then t.query.value else "")
  }

  /** An accepted address reads as it was written. */
  lemma WrittenReads(t: Written, w: World)
    requires Delimited(t) && CanonicalChapterUrl(Shown(t), w).Some?
    ensures w.domain(t.host).Some? && PathIn(t.path, w).Some? && PortOk(t.port) && Reads(Shown(t), w, Meant(t, w))
  {
    SplitReads(t, w);
    NetlocReads(t);
    PortOkIff(t.port);
    AcceptedParts(Shown(t), w, UrlSplit(Shown(t), w).value);
    PortMeant(if t.port.Some? then t.port.value else "", Lower(t.scheme));
  }

  lemma PortMeant(text: string, scheme: string)
    requires PortOf(text).Some?
    ensures EffectivePort(PortOf(text).value, scheme) == if text != "" then Numeral(text) else if scheme == "https" then 443 else 80
  {
  }

  /** Both schemes in any case of letters. */
  lemma SchemesInAnyCase(s: string)
    ensures Lower(s) == "http" <==>
      |s| == 4 && (s[0] == 'h' || s[0] == 'H') && (s[1] == 't' || s[1] == 'T') && (s[2] == 't' || s[2] == 'T') && (s[3] == 'p' || s[3] == 'P')
    ensures Lower(s) == "https" <==>
      |s| == 5 && Lower(s[..4]) == "http" && (s[4] == 's' || s[4] == 'S')
  {
    assert |Lower(s)| == |s| && forall i :: 0 <= i < |s| ==> Lower(s)[i] == LowerChar(s[i]);
    if |s| == 5 {
      assert Lower(s) == Lower(s[..4]) + [LowerChar(s[4])];
    }
  }

  /** The characters that a normal form shows as they are. */
  lemma UnreservedIff(c: char)
    ensures Unreserved(c) <==>
      'a' <= c <= 'z' || 'A' <= c <= 'Z' || '0' <= c <= '9' || c == '-' || c == '.' || c == '_' || c == '~'
  {
  }
}
