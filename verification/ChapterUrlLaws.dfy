/** The normal form of a chapter address is its own normal form. */
module ChapterUrlLaws {
  import opened Basics
  import opened Strings
  import opened PathSegments
  import opened UrlPaths
  import opened ChapterUrl
  import opened QueryLaws

  // ---------------------------------------------------------------- what is asked of the outside

  predicate HostChar(c: char) {
    'a' <= c <= 'z' || IsDigit(c) || c == '-' || c == '.'
  }

  predicate HostText(s: string) {
    s != "" && forall i :: 0 <= i < |s| ==> HostChar(s[i])
  }

  predicate AuthorityText(s: string) {
    forall i :: 0 <= i < |s| ==> HostChar(s[i]) || s[i] == ':'
  }

  /** `canonical_domain` returns lower case letters, digits, hyphens and dots, and returns such a
   *  result for itself; and `urlsplit` has nothing against an authority made of these. */
  ghost predicate Honest(w: World) {
    && (forall d :: w.domain(d).Some? ==> HostText(w.domain(d).value) && w.domain(w.domain(d).value) == w.domain(d))
    && (forall n :: AuthorityText(n) ==> w.netlocOk(n))
  }

  // ---------------------------------------------------------------- the path

  predicate PathChar(c: char) {
    c == '/' || c == '%' || Unreserved(c)
  }

  predicate PathText(s: string) {
    s != "" && s[0] == '/' && forall i :: 0 <= i < |s| ==> PathChar(s[i])
  }

  lemma NormalIsPath(n: string)
    requires NormalChars(n)
    ensures forall i :: 0 <= i < |n| ==> PathChar(n[i])
  {
    forall i | 0 <= i < |n| ensures PathChar(n[i]) {
      assert NormalAt(n, i);
    }
  }

  lemma {:induction false} JoinIsPath(parts: seq<string>)
    requires forall i, j :: 0 <= i < |parts| && 0 <= j < |parts[i]| ==> PathChar(parts[i][j])
    ensures forall j :: 0 <= j < |Join(parts, '/')| ==> PathChar(Join(parts, '/')[j])
  {
    if |parts| > 1 {
      JoinIsPath(parts[1..]);
    }
  }

  lemma PathIsText(input: string, pathOf: string -> Option<string>)
    requires CanonicalPath(input, pathOf).Some?
    ensures PathText(CanonicalPath(input, pathOf).value) && WellEscaped(CanonicalPath(input, pathOf).value)
  {
    var value := if HasScheme(input) then pathOf(input).value else input;
    CanonicalIsAssembled(value);
    var segments :| AllSettled(segments) && Canonical(value).value == Assemble(segments, EndsInSlash(value));
    SplitAssembled(segments, EndsInSlash(value));
    forall i | 0 <= i < |segments| ensures forall j :: 0 <= j < |segments[i]| ==> PathChar(segments[i][j]) {
      SettledNormal(segments[i]);
      NormalIsPath(segments[i]);
    }
    JoinIsPath(segments);
  }

  // ---------------------------------------------------------------- taking the result apart

  lemma {:induction false} NetlocOf(authority: string, rest: string)
    requires AuthorityText(authority) && rest != "" && rest[0] == '/'
    ensures Netloc(authority + rest) == authority && AfterNetloc(authority + rest) == rest
  {
    if authority == "" {
      assert authority + rest == rest;
    } else {
      assert (authority + rest)[1..] == authority[1..] + rest && (authority + rest)[0] == authority[0];
      NetlocOf(authority[1..], rest);
      assert [authority[0]] + authority[1..] == authority;
    }
  }

  lemma DecimalIsNumber(n: nat)
    ensures AllDigits(Decimal(n)) && Numeral(Decimal(n)) == n && Decimal(n) != ""
  {
    NumeralOfDecimal(n);
  }

  /** An authority gives its host and its port back. */
  lemma AuthorityParts(host: string, port: Option<nat>, scheme: string)
    requires HostText(host) && (port.Some? ==> 1 <= port.value <= 65535)
    ensures var a := Authority(host, port, scheme);
      && AuthorityText(a) && !HasUser(a) && HostPort(a).0 == host
      && PortOf(HostPort(a).1).Some? && Authority(host, PortOf(HostPort(a).1).value, scheme) == a
  {
    var a := Authority(host, port, scheme);
    if a == host {
      PlainAuthority(host);
      NothingToCut(host, ':');
    } else {
      var digits := Decimal(port.value);
      DecimalIsNumber(port.value);
      assert a == host + ":" + digits;
      PlainAuthority(a);
      CutAt(host, ':', digits);
    }
  }

  lemma NoUser(a: string)
    requires Lacks(a, '@')
    ensures !HasUser(a) && AfterLast(a, '@') == a
  {
    NothingToCut(a, '@');
    NothingToCut("", ':');
  }

  lemma PlainAuthority(a: string)
    requires AuthorityText(a)
    ensures !HasUser(a) && HostPort(a) == (Before(a, ':'), After(a, ':'))
  {
    NoUser(a);
    assert !Holds(a, '[');
  }

  lemma TailParts(path: string, query: string)
    requires PathText(path) && QueryText(query)
    ensures var tail := path + (if query == "" then "" else "?" + query);
      Before(tail, '#') == tail && Before(tail, '?') == path && After(tail, '?') == query
  {
    var tail := path + (if query == "" then "" else "?" + query);
    NothingToCut(tail, '#');
    if query == "" {
      assert tail == path;
      NothingToCut(path, '?');
    } else {
      assert tail == path + "?" + query;
      CutAt(path, '?', query);
    }
  }

  lemma SchemeParts(scheme: string, rest: string)
    requires scheme in {"http", "https"}
    ensures var u := scheme + ":" + rest;
      StripLeft(u) == u && Holds(u, ':') && Before(u, ':') == scheme && After(u, ':') == rest
      && IsScheme(scheme) && Lower(scheme) == scheme
  {
    var u := scheme + ":" + rest;
    CutAt(scheme, ':', rest);
    assert u[|scheme|] == ':' && u[0] == 'h';
    assert Lower(scheme) == scheme;
  }

  /** `urlsplit` undoes `urlunsplit` on normal parts. */
  lemma SplitUnsplit(scheme: string, authority: string, path: string, query: string, w: World)
    requires scheme in {"http", "https"} && AuthorityText(authority) && PathText(path) && QueryText(query) && w.netlocOk(authority)
    ensures UrlSplit(Unsplit(scheme, authority, path, query), w) == Some(Parts(scheme, authority, path, query))
  {
    var tail := path + (if query == "" then "" else "?" + query);
    var rest := "//" + authority + tail;
    assert "//" + authority + path + (if query == "" then "" else "?" + query) == rest;
    assert Unsplit(scheme, authority, path, query) == scheme + ":" + rest;
    SchemeParts(scheme, rest);
    assert rest[2..] == authority + tail && rest[0] == '/' && rest[1] == '/';
    assert tail[0] == path[0];
    NetlocOf(authority, tail);
    TailParts(path, query);
  }

  lemma UnsplitIsClean(scheme: string, authority: string, path: string, query: string)
    requires scheme in {"http", "https"} && AuthorityText(authority) && PathText(path) && QueryText(query)
    requires WellEscaped(path) && WellEscaped(query)
    ensures var u := Unsplit(scheme, authority, path, query); !HasControl(u) && WellEscaped(u)
  {
    var last := if query == "" then "" else "?" + query;
    ConcatEscapes("?", query);
    ConcatEscapes("//" + authority, path);
    ConcatEscapes("//" + authority + path, last);
    ConcatEscapes(scheme + ":", "//" + authority + path + last);
  }

  /** The normal form of a chapter address is its own normal form, given a `canonical_domain` that
   *  is its own normal form. */
  lemma CanonicalChapterUrlIdempotent(url: string, w: World)
    requires Honest(w) && CanonicalChapterUrl(url, w).Some?
    ensures CanonicalChapterUrl(CanonicalChapterUrl(url, w).value, w) == CanonicalChapterUrl(url, w)
  {
    var p := UrlSplit(url, w).value;
    var host, port := w.domain(HostPort(p.netloc).0).value, PortOf(HostPort(p.netloc).1).value;
    var pathOf := (u: string) => PathOf(u, w);
    var path := CanonicalPath(if p.path == "" then "/" else p.path, pathOf).value;
    var authority, query := Authority(host, port, p.scheme), CanonicalQuery(p.query);
    AuthorityParts(host, port, p.scheme);
    PathIsText(if p.path == "" then "/" else p.path, pathOf);
    CanonicalPathIdempotent(if p.path == "" then "/" else p.path, pathOf);
    QueryIdempotent(p.query);
    SplitUnsplit(p.scheme, authority, path, query, w);
    UnsplitIsClean(p.scheme, authority, path, query);
  }
}
