/** The identity of a chapter: its address with scheme, host, default port, path and query brought
 *  to a normal form, and without the fragment. */
module ChapterUrl {
  import opened Basics
  import opened Strings
  import opened Utf8
  import opened PathSegments
  import opened UrlPaths

  // ---------------------------------------------------------------- urlsplit

  datatype Parts = Parts(scheme: string, netloc: string, path: string, query: string)

  /** What the model does not look into: `domain` is `canonical_domain` on the host in lower case,
   *  `netlocOk` the bracket and compatibility checks of `urlsplit`. */
  datatype World = World(domain: string -> Option<string>, netlocOk: string -> bool)

  predicate SchemeChar(c: char) {
    IsLetter(c) || IsDigit(c) || c in "+-."
  }

  predicate IsScheme(s: string) {
    s != [] && IsLetter(s[0]) && forall i :: 0 <= i < |s| ==> SchemeChar(s[i])
  }

  function LowerChar(c: char): char {
    if 'A' <= c <= 'Z' then (c as int + 32) as char else c
  }

  function Lower(s: string): string {
    seq(|s|, i requires 0 <= i < |s| => LowerChar(s[i]))
  }

  function StripLeft(s: string): string {
    if s != [] && s[0] as int <= 32 then StripLeft(s[1..]) else s
  }

  predicate EndsNetloc(c: char) {
    c == '/' || c == '?' || c == '#'
  }

  function Netloc(s: string): string {
    if s == [] || EndsNetloc(s[0]) then [] else [s[0]] + Netloc(s[1..])
  }

  function AfterNetloc(s: string): string {
    if s == [] || EndsNetloc(s[0]) then s else AfterNetloc(s[1..])
  }

  function SplitRest(scheme: string, rest: string, world: World): Option<Parts> {
    var hasNetloc := "//" <= rest;
    var netloc := if hasNetloc then Netloc(rest[2..]) else "";
    var tail := Before(if hasNetloc then AfterNetloc(rest[2..]) else rest, '#');
    if world.netlocOk(netloc) then Some(Parts(scheme, netloc, Before(tail, '?'), After(tail, '?'))) else None
  }

  function UrlSplit(url: string, world: World): Option<Parts> {
    var u := StripLeft(url);
    if Holds(u, ':') && IsScheme(Before(u, ':')) then SplitRest(Lower(Before(u, ':')), After(u, ':'), world)
    else SplitRest("", u, world)
  }

  function PathOf(url: string, world: World): Option<string> {
    var parts := UrlSplit(url, world);
    if parts.None? then None else Some(parts.value.path)
  }

  /** Host and port of a netloc; the port is a text, empty if there is none. */
  function HostPort(netloc: string): (string, string) {
    var info := AfterLast(netloc, '@');
    if Holds(info, '[') then (Before(After(info, '['), ']'), After(After(After(info, '['), ']'), ':'))
    else (Before(info, ':'), After(info, ':'))
  }

  /** A user name or a password that is not empty. */
  predicate HasUser(netloc: string) {
    Before(BeforeLast(netloc, '@'), ':') != "" || After(BeforeLast(netloc, '@'), ':') != ""
  }

  predicate AllDigits(s: string) {
    forall i :: 0 <= i < |s| ==> IsDigit(s[i])
  }

  // ---------------------------------------------------------------- the query

  /** An escape of an unreserved character is replaced by it, other escapes are put in upper case. */
  function CanonicalOctet(b: Byte): string {
    if b < 128 && Unreserved(b as char) then [b as char] else EscapeText(b)
  }

  function CanonicalToken(t: Token): string {
    match t
    case Escape(b) => CanonicalOctet(b)
    case Literal(c) => if c == '+' then "+" else Text(TokensOf(c))
  }

  function CanonicalTokens(ts: seq<Token>): string {
    if ts == [] then [] else CanonicalToken(ts[0]) + CanonicalTokens(ts[1..])
  }

  /** `_canonical_query_component`. */
  function CanonicalComponent(s: string): string
    requires WellEscaped(s)
  {
    CanonicalTokens(Tokens(s))
  }

  /** `_canonical_query_field`: only the first equals sign separates. */
  function CanonicalField(field: string): string
    requires WellEscaped(field)
  {
    CutKeepsEscapes(field, '=');
    CanonicalComponent(Before(field, '='))
    + (if Holds(field, '=') then "=" + CanonicalComponent(After(field, '=')) else "")
  }

  function CanonicalFields(fields: seq<string>): seq<string>
    requires forall i :: 0 <= i < |fields| ==> WellEscaped(fields[i])
  {
    seq(|fields|, i requires 0 <= i < |fields| => CanonicalField(fields[i]))
  }

  function CanonicalQuery(query: string): string
    requires WellEscaped(query)
  {
    SplitKeepsEscapes(query, '&');
    if query == "" then "" else Join(CanonicalFields(Split(query, '&')), '&')
  }

  // ---------------------------------------------------------------- canonical_chapter_url

  predicate HasControl(url: string) {
    exists i :: 0 <= i < |url| && url[i] as int < 32
  }

  function DefaultPort(scheme: string): nat {
    if scheme == "https" then 443 else 80
  }

  /** The port as a number; None where reading it raises. An empty text is no port at all. */
  function PortOf(text: string): Option<Option<nat>> {
    if text == "" then Some(None)
    else if AllDigits(text) && 1 <= Numeral(text) <= 65535 then Some(Some(Numeral(text)))
    else None
  }

  function Authority(host: string, port: Option<nat>, scheme: string): string {
    if port.None? || port.value == DefaultPort(scheme) then host else host + ":" + Decimal(port.value)
  }

  function Unsplit(scheme: string, authority: string, path: string, query: string): string {
    scheme + ":" + ("//" + authority + path + (if query == "" then "" else "?" + query))
  }

  /** None where `canonical_chapter_url` raises. */
  function CanonicalChapterUrl(url: string, world: World): Option<string> {
    if HasControl(url) || !WellEscaped(url) then None
    else
      var split := UrlSplit(url, world);
      if split.None? then None
      else
        var p := split.value;
        var (hostname, portText) := HostPort(p.netloc);
        if p.scheme !in {"http", "https"} || hostname == "" || HasUser(p.netloc) then None
        else
          var host, port := world.domain(hostname), PortOf(portText);
          var path := CanonicalPath(if p.path == "" then "/" else p.path, u => PathOf(u, world));
          if host.None? || port.None? || path.None? || !WellEscaped(p.query) then None
          else Some(Unsplit(p.scheme, Authority(host.value, port.value, p.scheme), path.value, CanonicalQuery(p.query)))
  }
}
