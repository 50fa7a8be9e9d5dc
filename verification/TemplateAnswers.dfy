/** Which template is inferred, and which addresses a template admits: part by part, in both directions. */
module TemplateAnswers {
  import opened Basics
  import opened Strings
  import opened PathSegments
  import opened UrlPaths
  import opened Templates
  import opened TemplateLaws

  // ---------------------------------------------------------------- what is inferred from one path

  predicate Digits(s: string) {
    s != "" && forall i :: 0 <= i < |s| ==> '0' <= s[i] <= '9'
  }

  predicate WordChar(c: char) {
    'a' <= c <= 'z' || 'A' <= c <= 'Z' || '0' <= c <= '9' || c == '-' || c == '.' || c == '_' || c == '~'
  }

  /** A letter, then words with a hyphen somewhere inside. */
  predicate HyphenatedName(s: string) {
    && s != "" && ('a' <= s[0] <= 'z' || 'A' <= s[0] <= 'Z') && (forall i :: 0 <= i < |s| ==> WordChar(s[i]))
    && exists i :: 1 <= i < |s| - 1 && s[i] == '-'
  }

  lemma PlainDecodes(s: string)
    requires AllUnreserved(s)
    ensures Decoded(s) == s
  {
    PlainRenders(s);
    RenderedClean(s);
    TextTokens(Rendered(s));
    CharsRendered(s, []);
    assert [] + s == s;
  }

  lemma NumberIff(part: string)
    requires CanonicalPart(part)
    ensures IsNumber(Decoded(part)) <==> Digits(part)
  {
    if IsNumber(Decoded(part)) {
      assert !IsDots(Decoded(part)) by { assert Decoded(part)[0] != '.'; }
      PlainPart(part);
    }
    if Digits(part) {
      PlainDecodes(part);
    }
  }

  lemma SlugIff(part: string)
    requires CanonicalPart(part)
    ensures IsSlug(Decoded(part)) <==> HyphenatedName(part)
  {
    if IsSlug(Decoded(part)) {
      assert !IsDots(Decoded(part)) by { assert Decoded(part)[0] != '.'; }
      PlainPart(part);
    }
    if HyphenatedName(part) {
      PlainDecodes(part);
    }
  }

  /** What stands for a part in a template. */
  function Generalised(part: string, first: bool): string {
    if Digits(part) then "{int}" else if !first && HyphenatedName(part) then "{slug}" else part
  }

  lemma TemplatePartIs(part: string, first: bool)
    requires CanonicalPart(part)
    ensures TemplatePart(part, first) == Generalised(part, first)
  {
    NumberIff(part);
    SlugIff(part);
  }

  /** Numbers become `{int}`, hyphenated names but the first part become `{slug}`, and all else stays. */
  lemma PathTemplateIs(value: string)
    requires Canonical(value).Some?
    ensures var path := Canonical(value).value;
      var parts, ts := Split(path, '/')[1..], Split(PathTemplate(path), '/')[1..];
      |ts| == |parts| && PathTemplate(path) == "/" + Join(ts, '/')
      && forall i :: 0 <= i < |ts| ==> ts[i] == Generalised(parts[i], i == 0)
  {
    PartsOfCanonical(value);
    var parts := Parts(Canonical(value).value);
    forall i | 0 <= i < |parts| ensures TemplateText(TemplatePart(parts[i], i == 0))
      ensures TemplatePart(parts[i], i == 0) == Generalised(parts[i], i == 0)
    {
      TemplatePartText(parts[i], i == 0);
      TemplatePartIs(parts[i], i == 0);
    }
    TemplateSplits(TemplateParts(parts));
  }

  // ---------------------------------------------------------------- which addresses match

  /** A segment whose expression cannot run over a slash. */
  predicate WithinPart(p: Segment) {
    match p
    case Anything => false
    case Around(before, after) => Lacks(before, '/') && Lacks(after, '/')
    case Exactly(text) => Lacks(text, '/')
    case _ => true
  }

  lemma MatchLacksSlash(p: Segment, s: string)
    requires WithinPart(p) && MatchSegment(p, s)
    ensures Lacks(s, '/')
  {
    match p
    case Around(before, after) =>
      forall i | 0 <= i < |s| ensures s[i] != '/' {
        if i < |before| {
          assert s[i] == s[..|before|][i];
        } else if i >= |s| - |after| {
          assert s[i] == s[|s| - |after|..][i - (|s| - |after|)];
        } else {
          assert s[i] == s[|before|..|s| - |after|][i - |before|];
        }
      }
    case Slug =>
      forall i | 0 <= i < |s| ensures s[i] != '/' {
        assert Unreserved(s[i]);
      }
    case _ =>
  }

  lemma SplitAtSlash(s: string, i: nat)
    requires i < |s| && s[i] == '/' && Lacks(s[..i], '/')
    ensures Split(s, '/') == [s[..i]] + Split(s[i + 1..], '/')
  {
    SplitFirst(s[..i], '/', s[i + 1..]);
    assert s[..i] + ['/'] + s[i + 1..] == s;
  }

  ghost predicate PartsMatch(ps: seq<Segment>, parts: seq<string>) {
    |ps| == |parts| && forall i :: 0 <= i < |ps| ==> MatchSegment(ps[i], parts[i])
  }

  /** Segments that stay within their parts match exactly the texts with as many parts, each of which
   *  matches its segment. */
  lemma {:induction false} MatchIsByParts(ps: seq<Segment>, s: string)
    requires ps != [] && forall i :: 0 <= i < |ps| ==> WithinPart(ps[i])
    ensures MatchAll(ps, s) <==> PartsMatch(ps, Split(s, '/'))
    decreases |ps|
  {
    JoinSplit(s, '/');
    var parts := Split(s, '/');
    if |ps| == 1 {
      if MatchAll(ps, s) {
        MatchLacksSlash(ps[0], s);
        SplitOne(s, '/');
      }
      if |parts| == 1 {
        assert Join(parts, '/') == parts[0];
      }
    } else {
      var rest := ps[1..];
      assert forall i :: 0 <= i < |rest| ==> rest[i] == ps[i + 1];
      if MatchAll(ps, s) {
        var i :| 0 <= i < |s| && s[i] == '/' && MatchSegment(ps[0], s[..i]) && MatchAll(rest, s[i + 1..]);
        MatchLacksSlash(ps[0], s[..i]);
        SplitAtSlash(s, i);
        MatchIsByParts(rest, s[i + 1..]);
        MoreParts(ps, s[..i], Split(s[i + 1..], '/'));
      }
      if PartsMatch(ps, parts) {
        FirstPart(s);
        var i := |parts[0]|;
        MatchIsByParts(rest, s[i + 1..]);
        assert PartsMatch(rest, parts[1..]);
      }
    }
  }

  lemma MoreParts(ps: seq<Segment>, first: string, others: seq<string>)
    requires |ps| > 1 && MatchSegment(ps[0], first) && PartsMatch(ps[1..], others)
    ensures PartsMatch(ps, [first] + others)
  {
    forall i | 0 <= i < |ps| ensures MatchSegment(ps[i], ([first] + others)[i]) {
      if i > 0 {
        assert ps[1..][i - 1] == ps[i] && ([first] + others)[i] == others[i - 1];
      }
    }
  }

  lemma FirstPart(s: string)
    requires |Split(s, '/')| > 1
    ensures var parts := Split(s, '/');
      |parts[0]| < |s| && s[|parts[0]|] == '/' && s[..|parts[0]|] == parts[0] && Split(s[|parts[0]| + 1..], '/') == parts[1..]
  {
    var parts := Split(s, '/');
    JoinSplit(s, '/');
    var i := |parts[0]|;
    assert s == parts[0] + ['/'] + Join(parts[1..], '/');
    assert s[..i] == parts[0] && s[i] == '/';
    SplitAtSlash(s, i);
    assert ([s[..i]] + Split(s[i + 1..], '/'))[1..] == Split(s[i + 1..], '/');
  }

  /** What a segment admits. */
  predicate Admits(template: string, part: string) {
    if template == "{int}" then Digits(part)
    else if template == "{slug}" then part != "" && WordChar(part[0]) && part[0] !in "-._~" && forall i :: 0 <= i < |part| ==> WordChar(part[i])
    else part == template
  }

  lemma UnreservedIsWordChar(c: char)
    ensures Unreserved(c) <==> WordChar(c)
    ensures IsLetter(c) || IsDigit(c) <==> WordChar(c) && c !in "-._~"
  {
  }

  lemma CompiledAdmits(part: string, first: bool, last: bool, text: string)
    requires CanonicalPart(part)
    ensures var c := CompilePart(Generalised(part, first), last);
      c.Some? && WithinPart(c.value) && (MatchSegment(c.value, text) <==> Admits(Generalised(part, first), text))
  {
    TemplatePartIs(part, first);
    TemplatePartMatches(part, first, last);
    if Generalised(part, first) == "{slug}" {
      forall i | 0 <= i < |text| ensures Unreserved(text[i]) <==> WordChar(text[i]) {
        UnreservedIsWordChar(text[i]);
      }
      if text != "" {
        UnreservedIsWordChar(text[0]);
      }
    } else if Generalised(part, first) != "{int}" {
      CanonicalPartIsLiteral(part);
      LiteralCompiles(part, last);
    }
  }

  lemma {:induction false} CompileAt(ts: seq<string>, i: nat)
    requires Compile(ts).Some? && i < |ts|
    ensures |Compile(ts).value| == |ts| && CompilePart(ts[i], i == |ts| - 1) == Some(Compile(ts).value[i])
  {
    if i > 0 {
      CompileAt(ts[1..], i - 1);
    } else if |ts| > 1 {
      CompileAt(ts[1..], 0);
    }
  }

  lemma CompiledLength(ts: seq<string>)
    requires Compile(ts).Some?
    ensures |Compile(ts).value| == |ts|
  {
    if ts != [] {
      CompileAt(ts, 0);
    }
  }

  ghost predicate AdmitsAll(ts: seq<string>, parts: seq<string>) {
    |ts| == |parts| && forall i :: 0 <= i < |ts| ==> Admits(ts[i], parts[i])
  }

  predicate AllWithin(ps: seq<Segment>) {
    forall i :: 0 <= i < |ps| ==> WithinPart(ps[i])
  }

  /** Compiled parts that admit what their texts admit make a pattern that does. */
  lemma PatternAdmits(ts: seq<string>, ps: seq<Segment>, url: string)
    requires ts != [] && |ps| == |ts| && AllWithin(ps)
    requires forall i, text :: 0 <= i < |ts| ==> (MatchSegment(ps[i], text) <==> Admits(ts[i], text))
    ensures Matches(ps, url) <==> url != "" && url[0] == '/' && AdmitsAll(ts, Split(url, '/')[1..])
  {
    if url != "" && url[0] == '/' {
      MatchIsByParts(ps, url[1..]);
      assert "/" + url[1..] == url;
      SplitBehindSlash(url[1..]);
      assert Split(url, '/')[1..] == Split(url[1..], '/');
    }
  }

  function GeneralisedParts(parts: seq<string>): seq<string> {
    seq(|parts|, i requires 0 <= i < |parts| => Generalised(parts[i], i == 0))
  }

  lemma PatternOf(ts: seq<string>, parts: seq<string>, url: string)
    requires parts != [] && ts == GeneralisedParts(parts) && Compile(ts).Some?
    requires forall i :: 0 <= i < |parts| ==> CanonicalPart(parts[i])
    ensures Matches(Compile(ts).value, url) <==> url != "" && url[0] == '/' && AdmitsAll(ts, Split(url, '/')[1..])
  {
    var ps := Compile(ts).value;
    CompiledLength(ts);
    forall i | 0 <= i < |ts| ensures WithinPart(ps[i]) {
      SegmentOf(ts, parts, i, "");
    }
    forall i, text | 0 <= i < |ts| ensures MatchSegment(ps[i], text) <==> Admits(ts[i], text) {
      SegmentOf(ts, parts, i, text);
    }
    PatternAdmits(ts, ps, url);
  }

  lemma SegmentOf(ts: seq<string>, parts: seq<string>, i: nat, text: string)
    requires ts == GeneralisedParts(parts) && Compile(ts).Some? && i < |parts| && CanonicalPart(parts[i])
    ensures |Compile(ts).value| == |ts|
    ensures WithinPart(Compile(ts).value[i]) && (MatchSegment(Compile(ts).value[i], text) <==> Admits(ts[i], text))
  {
    CompileAt(ts, i);
    CompiledAdmits(parts[i], i == 0, i == |ts| - 1, text);
  }

  /** What the template of a path admits: exactly the addresses with as many parts, a number where the path
   *  has one, a name where it has a hyphenated one behind the first part, and the same text elsewhere. */
  lemma PathTemplateAdmits(value: string, secret: string -> bool, url: string)
    requires Canonical(value).Some? && Parse(PathTemplate(Canonical(value).value), secret).Some?
    ensures var path := Canonical(value).value;
      var admitted := url != "" && url[0] == '/' && AdmitsAll(GeneralisedParts(Split(path, '/')[1..]), Split(url, '/')[1..]);
      Matches(Parse(PathTemplate(path), secret).value, url) <==> admitted
  {
    var path := Canonical(value).value;
    PartsOfCanonical(value);
    PathTemplateIs(value);
    assert Split(PathTemplate(path), '/')[1..] == GeneralisedParts(Parts(path));
    PatternOf(GeneralisedParts(Parts(path)), Parts(path), url);
  }

  // ---------------------------------------------------------------- what a template may hold

  /** A number between two literals. */
  ghost predicate OneHole(part: string) {
    exists before, after :: PathLiteral(before) && PathLiteral(after) && part == before + "{int}" + after
  }

  lemma {:induction false} HoleIsFound(s: string, i: nat)
    requires i <= |s|
    ensures FirstHole(s, i).Some? ==> HoleAt(s, FirstHole(s, i).value)
    decreases |s| - i
  {
    if !HoleAt(s, i) && i < |s| {
      HoleIsFound(s, i + 1);
    }
  }

  lemma LiteralLacksBrace(s: string)
    requires PathLiteral(s)
    ensures Lacks(s, '{') && Lacks(s, '*')
  {
    forall i | 0 <= i < |s| ensures s[i] != '{' && s[i] != '*' {
      assert Unreserved(s[i]) || s[i] == '%';
    }
  }

  /** Which parts a template may have: a star, two stars at the end, `{int}`, `{slug}`, a literal, or a
   *  literal with one `{int}` in it. */
  lemma PartAcceptedIff(part: string, last: bool)
    ensures CompilePart(part, last).Some? <==>
      part == "*" || part == "{int}" || part == "{slug}" || (part == "**" && last) || PathLiteral(part) || OneHole(part)
  {
    if PathLiteral(part) {
      LiteralCompiles(part, last);
    }
    if OneHole(part) {
      HoleAccepted(part, last);
    }
    if FirstHole(part, 0).Some? {
      HoleIsFound(part, 0);
      HoleCut(part, FirstHole(part, 0).value);
    }
  }

  lemma HoleAccepted(part: string, last: bool)
    requires OneHole(part)
    ensures CompilePart(part, last).Some?
  {
    var before, after :| PathLiteral(before) && PathLiteral(after) && part == before + "{int}" + after;
    HoleMatches(before, after, "0", last);
  }

  lemma HoleCut(part: string, i: nat)
    requires HoleAt(part, i)
    ensures part == part[..i] + "{int}" + part[i + 5..]
    ensures PathLiteral(part[..i]) && PathLiteral(part[i + 5..]) ==> OneHole(part)
  {
  }

  /** Two stars at the end match whatever follows, within the line. */
  lemma StarsMatchTheRest(s: string)
    ensures CompilePart("**", true) == Some(Anything) && CompilePart("**", false) == None && CompilePart("*", false) == Some(One)
    ensures MatchSegment(Anything, s) <==> forall i :: 0 <= i < |s| ==> s[i] != '\n'
    ensures MatchSegment(One, s) <==> s != "" && forall i :: 0 <= i < |s| ==> s[i] != '/'
  {
    assert "**" != "*";
  }

  // ---------------------------------------------------------------- what is inferred from two paths

  /** The last character is a digit that belongs to no escape. */
  predicate EndsInDigit(s: string) {
    s != "" && IsDigit(s[|s| - 1]) && !(|s| >= 3 && s[|s| - 3] == '%') && !(|s| >= 2 && s[|s| - 2] == '%')
  }

  predicate StartsInDigit(s: string) {
    s != "" && IsDigit(s[0])
  }

  /** A whole number between two texts, neither of which adds a digit to it. */
  ghost predicate NumberIn(part: string, before: string, number: string, after: string) {
    part == before + number + after && Digits(number) && NormalChars(before) && NormalChars(after)
    && !EndsInDigit(before) && !StartsInDigit(after)
  }

  lemma {:induction false} DigitRunStops(a: string, b: string)
    requires (forall i :: 0 <= i < |a| ==> IsDigit(a[i])) && !StartsInDigit(b)
    ensures DigitRun(a + b) == |a|
  {
    if a == "" {
      assert a + b == b;
    } else {
      assert (a + b)[1..] == a[1..] + b && (a + b)[0] == a[0];
      DigitRunStops(a[1..], b);
    }
  }

  lemma RunsOfNumber(number: string, after: string)
    requires Digits(number) && !StartsInDigit(after)
    ensures Runs(number + after) == [number] + Runs(after)
  {
    var s := number + after;
    DigitRunStops(number, after);
    NumberRun(s);
    assert s[..|number|] == number && s[|number|..] == after;
  }

  lemma {:induction false} OtherRunWithin(u: string, w: string)
    requires StartsInDigit(w)
    ensures OtherRun(u + w) == OtherRun(u)
  {
    if u == "" {
      assert u + w == w;
    } else {
      assert (u + w)[1..] == u[1..] + w && (u + w)[0] == u[0];
      OtherRunWithin(u[1..], w);
    }
  }

  lemma {:induction false} DigitRunWithin(u: string, w: string)
    requires exists i :: 0 <= i < |u| && !IsDigit(u[i])
    ensures DigitRun(u + w) == DigitRun(u) < |u|
  {
    var i :| 0 <= i < |u| && !IsDigit(u[i]);
    assert (u + w)[0] == u[0] && (u + w)[1..] == u[1..] + w;
    if IsDigit(u[0]) {
      assert u[1..][i - 1] == u[i];
      DigitRunWithin(u[1..], w);
    }
  }

  lemma AllDigitsEndInDigit(u: string)
    requires u != "" && forall i :: 0 <= i < |u| ==> IsDigit(u[i])
    ensures EndsInDigit(u)
  {
  }

  /** The first run is the same with a number behind. */
  lemma FirstRunWithin(u: string, w: string)
    requires NormalChars(u) && u != "" && !EndsInDigit(u) && StartsInDigit(w) && NormalChars(u + w)
    ensures FirstRun(u + w) == FirstRun(u) <= |u|
  {
    FirstRunIsLiteral(u);
    assert (u + w)[0] == u[0];
    if IsDigit(u[0]) {
      if forall i :: 0 <= i < |u| ==> IsDigit(u[i]) {
        AllDigitsEndInDigit(u);
      }
      DigitRunWithin(u, w);
    } else if u[0] != '%' {
      OtherRunWithin(u, w);
    }
  }

  lemma {:induction false} DigitRunHasNoPercent(s: string)
    ensures DigitRun(s) <= |s| && forall i :: 0 <= i < DigitRun(s) ==> s[i] != '%'
  {
    if s != "" && IsDigit(s[0]) {
      DigitRunHasNoPercent(s[1..]);
    }
  }

  lemma {:induction false} OtherRunHasNoPercent(s: string)
    ensures OtherRun(s) <= |s| && forall i :: 0 <= i < OtherRun(s) ==> s[i] != '%'
  {
    if s != "" && !IsDigit(s[0]) && s[0] != '%' {
      OtherRunHasNoPercent(s[1..]);
    }
  }

  /** What is left behind the first run ends as the whole does. */
  lemma RestEnds(u: string)
    requires NormalChars(u) && u != "" && !EndsInDigit(u)
    ensures 0 < FirstRun(u) <= |u| && NormalChars(u[FirstRun(u)..]) && !EndsInDigit(u[FirstRun(u)..])
  {
    FirstRunIsLiteral(u);
    NormalSuffix(u, FirstRun(u));
    var rest := u[FirstRun(u)..];
    if rest != "" && IsDigit(rest[|rest| - 1]) {
      EscapeBehindRun(u);
    }
  }

  /** An escape at the end of a text is not cut by its first run. */
  lemma EscapeBehindRun(u: string)
    requires NormalChars(u) && u != "" && 0 < FirstRun(u) < |u|
    requires (|u| >= 3 && u[|u| - 3] == '%') || (|u| >= 2 && u[|u| - 2] == '%')
    ensures var rest := u[FirstRun(u)..]; (|rest| >= 3 && rest[|rest| - 3] == '%') || (|rest| >= 2 && rest[|rest| - 2] == '%')
  {
    DigitRunHasNoPercent(u);
    OtherRunHasNoPercent(u);
    assert |u| >= 2 ==> NormalAt(u, |u| - 2);
    var j := |u| - 3;
    assert |u| >= 3 && u[j] == '%';
    if u[0] == '%' {
      assert NormalAt(u, 0) && NormalAt(u, j) && EscapeAt(u, 0);
    }
  }

  /** The first run is taken off on both sides. */
  lemma FirstRunOff(u: string, w: string)
    requires NormalChars(u) && u != "" && !EndsInDigit(u) && StartsInDigit(w) && NormalChars(u + w)
    ensures 0 < FirstRun(u) <= |u| && Runs(u) == [u[..FirstRun(u)]] + Runs(u[FirstRun(u)..])
    ensures Runs(u + w) == [u[..FirstRun(u)]] + Runs(u[FirstRun(u)..] + w)
  {
    var n := FirstRun(u);
    FirstRunWithin(u, w);
    RestEnds(u);
    CutBehind(u, w, n);
    RunsByFirst(u, u[..n], u[n..]);
    RunsByFirst(u + w, u[..n], u[n..] + w);
  }

  lemma CutBehind(u: string, w: string, n: nat)
    requires n <= |u|
    ensures (u + w)[..n] == u[..n] && (u + w)[n..] == u[n..] + w
  {
  }

  lemma RunsByFirst(s: string, first: string, rest: string)
    requires NormalChars(s) && s != "" && FirstRun(s) <= |s| && first == s[..FirstRun(s)] && rest == s[FirstRun(s)..]
    ensures Runs(s) == [first] + Runs(rest)
  {
    FirstRunIsLiteral(s);
  }

  lemma {:induction false} RunsBefore(u: string, w: string)
    requires NormalChars(u) && !EndsInDigit(u) && StartsInDigit(w) && NormalChars(w)
    ensures Runs(u + w) == Runs(u) + Runs(w)
    decreases |u|
  {
    if u == "" {
      assert u + w == w && Runs(u) + Runs(w) == Runs(w);
    } else {
      NormalConcat(u, w);
      FirstRunOff(u, w);
      RestEnds(u);
      var first, rest := u[..FirstRun(u)], u[FirstRun(u)..];
      RunsBefore(rest, w);
      ConcatAssociative([first], Runs(rest), Runs(w));
    }
  }

  lemma RunsAround(u: string, number: string, after: string)
    requires NormalChars(u) && NormalChars(after) && Digits(number) && !EndsInDigit(u) && !StartsInDigit(after)
    ensures Runs(u + number + after) == Runs(u) + [number] + Runs(after)
  {
    NumberIsNormal(number);
    NormalConcat(number, after);
    RunsBefore(u, number + after);
    RunsOfNumber(number, after);
    ConcatAssociative(u, number, after);
    ConcatAssociative(Runs(u), [number], Runs(after));
  }

  lemma NumberIsNormal(number: string)
    requires Digits(number)
    ensures NormalChars(number)
  {
    forall i | 0 <= i < |number| ensures NormalAt(number, i) {
      assert IsDigit(number[i]);
    }
  }

  /** The two parts are the same but for one whole number. */
  ghost predicate DifferInNumber(left: string, right: string, before: string, m: string, n: string, after: string) {
    NumberIn(left, before, m, after) && NumberIn(right, before, n, after) && m != n
  }

  lemma OnlyInTheMiddle(x: seq<string>, m: string, n: string, y: seq<string>)
    requires m != n
    ensures OnlyAt(x + [m] + y, x + [n] + y, |x|) && (x + [m] + y)[|x|] == m && (x + [n] + y)[|x|] == n
    ensures (x + [m] + y)[..|x|] == x && (x + [m] + y)[|x| + 1..] == y
  {
  }

  lemma NumbersAreSiblings(left: string, right: string, before: string, m: string, n: string, after: string)
    requires DifferInNumber(left, right, before, m, n, after)
    ensures Siblings(left, right, |Runs(before)|) && MergedPart(left, |Runs(before)|) == before + "{int}" + after
  {
    var k := |Runs(before)|;
    RunsAround(before, m, after);
    RunsAround(before, n, after);
    OnlyInTheMiddle(Runs(before), m, n, Runs(after));
    RunsCover(before);
    RunsCover(after);
    AroundRun(Runs(left), k, "{int}");
  }

  /** Two paths whose parts are the same but for one whole number have a template, with `{int}` in place
   *  of that number. */
  lemma SiblingsHaveTemplate(
    first: string, second: string, i: nat, before: string, m: string, n: string, after: string)
    requires i < |Parts(first)| && i < |Parts(second)| && Parts(second) == Parts(first)[i := Parts(second)[i]]
    requires DifferInNumber(Parts(first)[i], Parts(second)[i], before, m, n, after)
    ensures SiblingTemplate(first, second) == Some("/" + Join(Parts(first)[i := before + "{int}" + after], '/'))
  {
    var a, b, k := Parts(first), Parts(second), |Runs(before)|;
    NumbersAreSiblings(a[i], b[i], before, m, n, after);
    assert OnlyAt(a, b, i) && Siblings(a[i], b[i], k);
    forall j: nat, l: nat | OnlyAt(a, b, j) && Siblings(a[j], b[j], l) ensures j == i && l == k {
      OnlyOnePlace(a, b, i, j);
      OnlyOnePlace(Runs(a[i]), Runs(b[i]), k, l);
    }
  }

  lemma OnlyOnePlace(a: seq<string>, b: seq<string>, i: nat, j: nat)
    requires OnlyAt(a, b, i) && OnlyAt(a, b, j)
    ensures i == j
  {
  }

  lemma {:induction false} DigitRunEnds(s: string)
    ensures DigitRun(s) <= |s| && !StartsInDigit(s[DigitRun(s)..])
  {
    if s != "" && IsDigit(s[0]) {
      DigitRunEnds(s[1..]);
      assert s[DigitRun(s)..] == s[1..][DigitRun(s[1..])..];
    }
  }

  lemma {:induction false} OtherRunHasNoDigit(s: string)
    ensures OtherRun(s) <= |s| && forall i :: 0 <= i < OtherRun(s) ==> !IsDigit(s[i])
  {
    if s != "" && !IsDigit(s[0]) && s[0] != '%' {
      OtherRunHasNoDigit(s[1..]);
    }
  }

  /** The rest behind the first run of a text. */
  lemma RestOfRuns(s: string, k: nat)
    requires NormalChars(s) && k < |Runs(s)|
    ensures s != "" && 0 < FirstRun(s) <= |s| && NormalChars(s[FirstRun(s)..])
    ensures Runs(s) == [s[..FirstRun(s)]] + Runs(s[FirstRun(s)..])
    ensures k > 0 ==> Runs(s)[k] == Runs(s[FirstRun(s)..])[k - 1]
  {
    FirstRunIsLiteral(s);
    NormalSuffix(s, FirstRun(s));
  }

  /** What follows a run of digits does not add one to it. */
  lemma {:induction false} NoDigitBehind(s: string, k: nat)
    requires NormalChars(s) && k < |Runs(s)| && IsNumber(Runs(s)[k])
    ensures !StartsInDigit(Concat(Runs(s)[k + 1..]))
    decreases k
  {
    RestOfRuns(s, k);
    var n := FirstRun(s);
    var rest := s[n..];
    if k == 0 {
      RunsCover(rest);
      assert Runs(s)[1..] == Runs(rest);
      assert IsDigit(s[..n][0]);
      DigitRunEnds(s);
    } else {
      NoDigitBehind(rest, k - 1);
      assert Runs(s)[k + 1..] == Runs(rest)[k..];
    }
  }

  lemma FirstRunEnds(s: string)
    requires NormalChars(s) && s != "" && !IsDigit(s[0])
    ensures 0 < FirstRun(s) <= |s| && !EndsInDigit(s[..FirstRun(s)])
  {
    FirstRunIsLiteral(s);
    OtherRunHasNoDigit(s);
  }

  lemma EndOfBoth(a: string, b: string)
    requires b != "" && !EndsInDigit(b)
    ensures !EndsInDigit(a + b)
  {
    var s := a + b;
    assert s[|s| - 1] == b[|b| - 1];
    assert |b| >= 2 ==> s[|s| - 2] == b[|b| - 2];
    assert |b| >= 3 ==> s[|s| - 3] == b[|b| - 3];
  }

  /** Nor does what comes before it. */
  lemma {:induction false} NoDigitBefore(s: string, k: nat)
    requires NormalChars(s) && k < |Runs(s)| && IsNumber(Runs(s)[k])
    ensures !EndsInDigit(Concat(Runs(s)[..k])) && (k > 0 ==> Concat(Runs(s)[..k]) != "")
    decreases k
  {
    if k > 0 {
      RestOfRuns(s, k);
      var first, rest := s[..FirstRun(s)], s[FirstRun(s)..];
      NoDigitBefore(rest, k - 1);
      assert Runs(s)[..k] == [first] + Runs(rest)[..k - 1];
      ConcatFirst(first, Runs(rest)[..k - 1]);
      if k == 1 {
        assert Concat(Runs(rest)[..0]) == "" && first + "" == first;
        NumberIsNext(s);
        FirstRunEnds(s);
      } else {
        EndOfBoth(first, Concat(Runs(rest)[..k - 1]));
      }
    }
  }

  /** Two runs of digits never follow each other. */
  lemma NumberIsNext(s: string)
    requires NormalChars(s) && 1 < |Runs(s)| && IsNumber(Runs(s)[1])
    ensures s != "" && !IsDigit(s[0])
  {
    RestOfRuns(s, 1);
    var rest := s[FirstRun(s)..];
    RestOfRuns(rest, 0);
    assert rest[..FirstRun(rest)] == Runs(s)[1];
    assert IsDigit(rest[..FirstRun(rest)][0]);
    if IsDigit(s[0]) {
      DigitRunEnds(s);
    }
  }

  lemma SiblingsDifferInNumber(left: string, right: string, k: nat)
    requires NormalChars(left) && NormalChars(right) && Siblings(left, right, k)
    ensures var before, after := Concat(Runs(left)[..k]), Concat(Runs(left)[k + 1..]);
      DifferInNumber(left, right, before, Runs(left)[k], Runs(right)[k], after) && MergedPart(left, k) == before + "{int}" + after
  {
    SiblingRuns(left, right, k);
    NoDigitBefore(left, k);
    NoDigitBehind(left, k);
    RunsNormal(left);
    ConcatNormal(Runs(left)[..k]);
    ConcatNormal(Runs(left)[k + 1..]);
  }

  lemma {:induction false} RunsNormal(s: string)
    requires NormalChars(s)
    ensures forall i :: 0 <= i < |Runs(s)| ==> NormalChars(Runs(s)[i])
    decreases |s|
  {
    if s != "" {
      FirstRunIsLiteral(s);
      NormalSuffix(s, FirstRun(s));
      RunsNormal(s[FirstRun(s)..]);
      FirstIsNormal(s);
    }
  }

  lemma FirstIsNormal(s: string)
    requires NormalChars(s) && s != "" && 0 < FirstRun(s) <= |s|
    ensures NormalChars(s[..FirstRun(s)])
  {
    DigitRunHasNoPercent(s);
    OtherRunHasNoPercent(s);
    var first := s[..FirstRun(s)];
    forall i | 0 <= i < |first| ensures NormalAt(first, i) {
      assert NormalAt(s, i) && NormalAt(s, 0);
    }
  }

  lemma {:induction false} ConcatNormal(runs: seq<string>)
    requires forall i :: 0 <= i < |runs| ==> NormalChars(runs[i])
    ensures NormalChars(Concat(runs))
  {
    if runs != [] {
      assert forall i :: 0 <= i < |runs| - 1 ==> runs[1..][i] == runs[i + 1];
      ConcatNormal(runs[1..]);
      NormalConcat(runs[0], Concat(runs[1..]));
    }
  }

  /** The parts at one place differ in a number, and all others are the same. */
  ghost predicate DifferAt(a: seq<string>, b: seq<string>, i: nat, before: string, m: string, n: string, after: string) {
    i < |a| == |b| && b == a[i := b[i]] && DifferInNumber(a[i], b[i], before, m, n, after)
  }

  ghost predicate DifferSomewhere(a: seq<string>, b: seq<string>) {
    exists i: nat, before, m, n, after :: DifferAt(a, b, i, before, m, n, after)
  }

  predicate AllNormal(parts: seq<string>) {
    forall i :: 0 <= i < |parts| ==> NormalChars(parts[i])
  }

  lemma CanonicalPartsNormal(value: string)
    requires Canonical(value).Some?
    ensures AllNormal(Parts(Canonical(value).value))
  {
    PartsOfCanonical(value);
    var parts := Parts(Canonical(value).value);
    forall i | 0 <= i < |parts| ensures NormalChars(parts[i]) {
      CanonicalPartIsNormal(parts[i]);
    }
  }

  lemma TemplateMeansDiffer(p: string, q: string)
    requires AllNormal(Parts(p)) && AllNormal(Parts(q)) && SiblingTemplate(p, q).Some?
    ensures DifferSomewhere(Parts(p), Parts(q))
  {
    var a, b := Parts(p), Parts(q);
    var i: nat, k: nat :| OnlyAt(a, b, i) && Siblings(a[i], b[i], k);
    PlaceDiffers(a, b, i, k);
  }

  lemma PlaceDiffers(a: seq<string>, b: seq<string>, i: nat, k: nat)
    requires AllNormal(a) && AllNormal(b) && OnlyAt(a, b, i) && Siblings(a[i], b[i], k)
    ensures DifferSomewhere(a, b)
  {
    SiblingsDifferInNumber(a[i], b[i], k);
    assert b == a[i := b[i]];
    assert DifferAt(a, b, i, Concat(Runs(a[i])[..k]), Runs(a[i])[k], Runs(b[i])[k], Concat(Runs(a[i])[k + 1..]));
  }

  /** Exactly when two canonical paths have a common template: their parts are the same but for one whole
   *  number in one of them. The template has `{int}` in its place. */
  lemma SiblingTemplateIff(first: string, second: string)
    requires Canonical(first).Some? && Canonical(second).Some?
    ensures var p, q := Canonical(first).value, Canonical(second).value;
      var a, b := Split(p, '/')[1..], Split(q, '/')[1..];
      && (SiblingTemplate(p, q).Some? <==> DifferSomewhere(a, b))
      && (forall i: nat, before, m, n, after :: DifferAt(a, b, i, before, m, n, after) ==>
            SiblingTemplate(p, q) == Some("/" + Join(a[i := before + "{int}" + after], '/')))
  {
    var p, q := Canonical(first).value, Canonical(second).value;
    CanonicalPartsNormal(first);
    CanonicalPartsNormal(second);
    if SiblingTemplate(p, q).Some? {
      TemplateMeansDiffer(p, q);
    }
    forall i: nat, before, m, n, after | DifferAt(Parts(p), Parts(q), i, before, m, n, after)
      ensures SiblingTemplate(p, q) == Some("/" + Join(Parts(p)[i := before + "{int}" + after], '/'))
    {
      SiblingsHaveTemplate(p, q, i, before, m, n, after);
    }
  }
}
