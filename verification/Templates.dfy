/** URL templates: inferring them from paths, and the patterns they are compiled to. */
module Templates {
  import opened Basics
  import opened Strings
  import opened PathSegments

  // ---------------------------------------------------------------- path_template

  predicate IsNumber(s: string) {
    s != "" && forall i :: 0 <= i < |s| ==> IsDigit(s[i])
  }

  predicate AllUnreserved(s: string) {
    forall i :: 0 <= i < |s| ==> Unreserved(s[i])
  }

  /** `[A-Za-z][A-Za-z0-9._~-]*-[A-Za-z0-9._~-]+` */
  predicate IsSlug(s: string) {
    && s != "" && IsLetter(s[0]) && AllUnreserved(s)
    && exists i :: 1 <= i < |s| - 1 && s[i] == '-'
  }

  function Decoded(part: string): string {
    if WellEscaped(part) && Chars(Tokens(part), []).Some? then Chars(Tokens(part), []).value else part
  }

  function TemplatePart(part: string, first: bool): string {
    if IsNumber(Decoded(part)) then "{int}"
    else if !first && IsSlug(Decoded(part)) then "{slug}"
    else part
  }

  function TemplateParts(parts: seq<string>): seq<string> {
    seq(|parts|, i requires 0 <= i < |parts| => TemplatePart(parts[i], i == 0))
  }

  /** The parts behind the first slash. */
  function Parts(canonical: string): seq<string> {
    Split(canonical, '/')[1..]
  }

  /** `path_template` on what `canonical_path` returns. */
  function PathTemplate(canonical: string): string {
    "/" + Join(TemplateParts(Parts(canonical)), '/')
  }

  // ---------------------------------------------------------------- sibling_template

  function DigitRun(s: string): nat {
    if s == [] || !IsDigit(s[0]) then 0 else 1 + DigitRun(s[1..])
  }

  function OtherRun(s: string): nat {
    if s == [] || IsDigit(s[0]) || s[0] == '%' then 0 else 1 + OtherRun(s[1..])
  }

  lemma {:induction false} RunsFit(s: string)
    ensures DigitRun(s) <= |s| && OtherRun(s) <= |s|
    ensures forall i :: 0 <= i < DigitRun(s) ==> IsDigit(s[i])
  {
    if s != [] {
      RunsFit(s[1..]);
    }
  }

  predicate UpperEscapeAt(s: string) {
    |s| >= 3 && s[0] == '%' && UpperHex(s[1]) && UpperHex(s[2])
  }

  /** Escapes, runs of digits, and runs of anything else, as `findall` returns them. */
  function Runs(s: string): seq<string>
    decreases |s|
  {
    RunsFit(s);
    if s == [] then []
    else if UpperEscapeAt(s) then [s[..3]] + Runs(s[3..])
    else if s[0] == '%' then Runs(s[1..])
    else if IsDigit(s[0]) then [s[..DigitRun(s)]] + Runs(s[DigitRun(s)..])
    else [s[..OtherRun(s)]] + Runs(s[OtherRun(s)..])
  }

  function Concat(runs: seq<string>): string {
    if runs == [] then "" else runs[0] + Concat(runs[1..])
  }

  /** The only position at which two lists of equal length differ. */
  predicate OnlyAt(a: seq<string>, b: seq<string>, k: nat) {
    |a| == |b| && k < |a| && a[k] != b[k] && forall i :: 0 <= i < |a| && i != k ==> a[i] == b[i]
  }

  /** The two parts are the same but for one run of digits. */
  ghost predicate Siblings(left: string, right: string, k: nat) {
    OnlyAt(Runs(left), Runs(right), k) && IsNumber(Runs(left)[k]) && IsNumber(Runs(right)[k])
  }

  function MergedPart(left: string, k: nat): string
    requires k < |Runs(left)|
  {
    Concat(Runs(left)[k := "{int}"])
  }

  /** `sibling_template` on two results of `canonical_path`. */
  ghost function SiblingTemplate(first: string, second: string): Option<string> {
    var a, b := Parts(first), Parts(second);
    if i: nat, k: nat :| OnlyAt(a, b, i) && Siblings(a[i], b[i], k)
    then Some("/" + Join(a[i := MergedPart(a[i], k)], '/'))
    else None
  }

  // ---------------------------------------------------------------- SafeUrlPattern

  datatype Segment = Anything | One | Int | Slug | Around(before: string, after: string) | Exactly(text: string)

  const MaxTemplate := 512

  predicate PathLiteral(s: string) {
    WellEscaped(s) && forall i :: 0 <= i < |s| ==> Unreserved(s[i]) || s[i] == '%'
  }

  predicate HoleAt(s: string, i: int) {
    0 <= i <= |s| - 5 && s[i..i + 5] == "{int}"
  }

  function FirstHole(s: string, i: nat): Option<nat>
    decreases |s| - i
  {
    if HoleAt(s, i) then Some(i) else if i >= |s| then None else FirstHole(s, i + 1)
  }

  /** One part of a template; None where `parse` raises. A second hole, or any other brace, makes
   *  one of the literals around the first hole unsafe. */
  function CompilePart(part: string, last: bool): Option<Segment> {
    if part == "**" then if last then Some(Anything) else None
    else if part == "*" then Some(One)
    else if part == "{int}" then Some(Int)
    else if part == "{slug}" then Some(Slug)
    else match FirstHole(part, 0)
      case Some(i) =>
        if i + 5 <= |part| && PathLiteral(part[..i]) && PathLiteral(part[i + 5..])
        then Some(Around(part[..i], part[i + 5..])) else None
      case None => if PathLiteral(part) then Some(Exactly(part)) else None
  }

  function Compile(parts: seq<string>): Option<seq<Segment>> {
    if parts == [] then Some([])
    else
      var first, rest := CompilePart(parts[0], |parts| == 1), Compile(parts[1..]);
      if first.None? || rest.None? then None else Some([first.value] + rest.value)
  }

  /** A template that `urlsplit` takes for a bare path and leaves as it is. */
  predicate Relative(value: string) {
    && value != "" && value[0] == '/' && !("//" <= value)
    && forall i :: 0 <= i < |value| ==> value[i] as int > 32 && value[i] != '?' && value[i] != '#'
  }

  /** `parse` for relative templates; `secret` is its search for words like token or password. */
  function Parse(value: string, secret: string -> bool): Option<seq<Segment>> {
    if !Relative(value) || |value| > MaxTemplate || secret(value) then None
    else Compile(Split(value, '/')[1..])
  }

  /** The regular expression that a segment is compiled to. */
  predicate MatchSegment(p: Segment, s: string) {
    match p
    case Anything => Lacks(s, '\n')
    case One => s != "" && Lacks(s, '/')
    case Int => IsNumber(s)
    case Slug => s != "" && (IsLetter(s[0]) || IsDigit(s[0])) && AllUnreserved(s)
    case Around(before, after) =>
      |before| + |after| <= |s| && s[..|before|] == before && s[|s| - |after|..] == after && IsNumber(s[|before|..|s| - |after|])
    case Exactly(text) => s == text
  }

  /** The segments' expressions with slashes between them. */
  predicate MatchAll(ps: seq<Segment>, s: string) {
    if ps == [] then s == ""
    else if |ps| == 1 then MatchSegment(ps[0], s)
    else exists i :: 0 <= i < |s| && s[i] == '/' && MatchSegment(ps[0], s[..i]) && MatchAll(ps[1..], s[i + 1..])
  }

  predicate Matches(ps: seq<Segment>, url: string) {
    url != "" && url[0] == '/' && MatchAll(ps, url[1..])
  }
}
