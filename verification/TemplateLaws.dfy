/** Every template that is inferred from paths matches the paths it came from. */
module TemplateLaws {
  import opened Basics
  import opened Strings
  import opened PathSegments
  import opened UrlPaths
  import opened Templates

  // ---------------------------------------------------------------- parts of canonical paths

  /** A part of a canonical path: settled, or the nothing behind a trailing slash. */
  predicate CanonicalPart(part: string) {
    part == "" || Settled(part)
  }

  lemma PartsOfAssembled(segments: seq<string>, trailing: bool)
    requires AllSettled(segments)
    ensures Parts(Assemble(segments, trailing)) == segments + (if trailing || segments == [] then [""] else [])
    ensures Assemble(segments, trailing) == "/" + Join(Parts(Assemble(segments, trailing)), '/')
  {
    SplitAssembled(segments, trailing);
    AssembledPieces(segments, trailing);
    var parts := segments + (if trailing || segments == [] then [""] else []);
    assert Pieces(segments, trailing) == [""] + parts;
    JoinBehindSlash(parts);
  }

  lemma JoinBehindSlash(parts: seq<string>)
    requires parts != []
    ensures ([""] + parts)[1..] == parts && Join([""] + parts, '/') == "/" + Join(parts, '/')
  {
    assert "" + "/" == "/";
  }

  lemma PartsOfCanonical(value: string)
    requires Canonical(value).Some?
    ensures var parts := Parts(Canonical(value).value);
      && parts != [] && (forall i :: 0 <= i < |parts| ==> CanonicalPart(parts[i]) && Lacks(parts[i], '/'))
      && (parts[0] == "" ==> |parts| == 1)
      && Canonical(value).value == "/" + Join(parts, '/')
  {
    CanonicalIsAssembled(value);
    var segments :| AllSettled(segments) && Canonical(value).value == Assemble(segments, EndsInSlash(value));
    PartsOfAssembled(segments, EndsInSlash(value));
    assert segments != [] ==> Settled(segments[0]);
  }

  lemma CanonicalPartIsLiteral(part: string)
    requires CanonicalPart(part)
    ensures PathLiteral(part)
  {
    if part != "" {
      SettledNormal(part);
      forall i | 0 <= i < |part| ensures Unreserved(part[i]) || part[i] == '%' {
        assert NormalAt(part, i);
      }
    }
  }

  lemma NoHole(s: string, i: nat)
    requires Lacks(s, '{')
    ensures FirstHole(s, i).None?
    decreases |s| - i
  {
    assert i + 5 <= |s| ==> s[i..i + 5][0] == s[i];
    if i < |s| {
      NoHole(s, i + 1);
    }
  }

  lemma LiteralCompiles(part: string, last: bool)
    requires PathLiteral(part)
    ensures CompilePart(part, last) == Some(Exactly(part))
  {
    assert Lacks(part, '{') && Lacks(part, '*');
    NoHole(part, 0);
    assert "**"[0] == '*' && "*"[0] == '*' && "{int}"[0] == '{' && "{slug}"[0] == '{';
  }

  // ---------------------------------------------------------------- path_template

  lemma {:induction false} PlainRenders(cs: string)
    requires AllUnreserved(cs)
    ensures Text(Rendered(cs)) == cs
  {
    if cs != [] {
      PlainRenders(cs[1..]);
      TextConcat(TokensOf(cs[0]), Rendered(cs[1..]));
      assert [Literal(cs[0])][1..] == [] && Text([]) == [];
      assert Text(TokensOf(cs[0])) == [cs[0]] + [];
      assert [cs[0]] + cs[1..] == cs;
    }
  }

  /** A canonical part that decodes to plain text is that text. */
  lemma PlainPart(part: string)
    requires CanonicalPart(part) && AllUnreserved(Decoded(part)) && Decoded(part) != "" && !IsDots(Decoded(part))
    ensures Decoded(part) == part
  {
    PlainRenders(Decoded(part));
  }

  lemma TemplatePartMatches(part: string, first: bool, last: bool)
    requires CanonicalPart(part)
    ensures var c := CompilePart(TemplatePart(part, first), last); c.Some? && MatchSegment(c.value, part)
  {
    var d := Decoded(part);
    if IsNumber(d) {
      assert !IsDots(d) by { assert d[0] != '.'; }
      PlainPart(part);
    } else if !first && IsSlug(d) {
      assert !IsDots(d) by { assert d[0] != '.'; }
      PlainPart(part);
    } else {
      CanonicalPartIsLiteral(part);
      LiteralCompiles(part, last);
    }
  }

  // ---------------------------------------------------------------- whole templates

  lemma {:induction false} CompiledMatches(ts: seq<string>, parts: seq<string>)
    requires |ts| == |parts| > 0
    requires forall i :: 0 <= i < |ts| ==>
      CompilePart(ts[i], i == |ts| - 1).Some? && MatchSegment(CompilePart(ts[i], i == |ts| - 1).value, parts[i])
    ensures Compile(ts).Some? && |Compile(ts).value| == |ts| && MatchAll(Compile(ts).value, Join(parts, '/'))
  {
    if |ts| == 1 {
      assert Compile(ts[1..]) == Some([]);
    } else {
      forall i | 0 <= i < |ts| - 1 ensures ts[1..][i] == ts[i + 1] && parts[1..][i] == parts[i + 1] {}
      CompiledMatches(ts[1..], parts[1..]);
      var s := Join(parts, '/');
      assert s[|parts[0]|] == '/' && s[..|parts[0]|] == parts[0] && s[|parts[0]| + 1..] == Join(parts[1..], '/');
      assert Compile(ts).value[0] == CompilePart(ts[0], false).value;
      assert Compile(ts).value[1..] == Compile(ts[1..]).value;
    }
  }

  predicate TemplateChar(c: char) {
    Unreserved(c) || c == '%' || c == '{' || c == '}'
  }

  predicate TemplateText(s: string) {
    forall i :: 0 <= i < |s| ==> TemplateChar(s[i])
  }

  predicate JoinedTemplate(s: string) {
    forall j :: 0 <= j < |s| ==> TemplateChar(s[j]) || s[j] == '/'
  }

  lemma {:induction false} JoinedText(ts: seq<string>)
    requires forall i :: 0 <= i < |ts| ==> TemplateText(ts[i])
    ensures JoinedTemplate(Join(ts, '/'))
  {
    if |ts| > 1 {
      JoinedText(ts[1..]);
    }
  }

  lemma TemplateSplits(ts: seq<string>)
    requires ts != [] && forall i :: 0 <= i < |ts| ==> TemplateText(ts[i])
    ensures Split("/" + Join(ts, '/'), '/')[1..] == ts
  {
    forall i | 0 <= i < |ts| ensures Lacks(ts[i], '/') {
      TemplateLacksSlash(ts[i]);
    }
    SplitJoin(ts, '/');
    SplitBehindSlash(Join(ts, '/'));
  }

  lemma TemplateLacksSlash(t: string)
    requires TemplateText(t)
    ensures Lacks(t, '/')
  {
    forall j | 0 <= j < |t| ensures t[j] != '/' {
      assert TemplateChar(t[j]);
    }
  }

  lemma SplitBehindSlash(s: string)
    ensures Split("/" + s, '/')[1..] == Split(s, '/')
  {
    assert ("/" + s)[0] == '/' && ("/" + s)[1..] == s;
    assert ([[]] + Split(s, '/'))[1..] == Split(s, '/');
  }

  lemma JoinStarts(ts: seq<string>)
    requires ts != [] && (ts[0] == "" ==> |ts| == 1) && TemplateText(ts[0])
    ensures Join(ts, '/') == "" || Join(ts, '/')[0] != '/'
  {
    if ts[0] != "" {
      assert Join(ts, '/')[0] == ts[0][0] && TemplateChar(ts[0][0]);
    }
  }

  lemma RelativeBehindSlash(rest: string)
    requires JoinedTemplate(rest) && (rest == "" || rest[0] != '/')
    ensures Relative("/" + rest)
  {
    var value := "/" + rest;
    forall i | 0 <= i < |value| ensures value[i] as int > 32 && value[i] != '?' && value[i] != '#' {
      assert i == 0 || TemplateChar(rest[i - 1]) || rest[i - 1] == '/';
    }
    assert rest != "" ==> value[1] == rest[0];
  }

  lemma TemplateIsRelative(ts: seq<string>)
    requires ts != [] && (forall i :: 0 <= i < |ts| ==> TemplateText(ts[i])) && (ts[0] == "" ==> |ts| == 1)
    ensures Relative("/" + Join(ts, '/'))
  {
    JoinedText(ts);
    JoinStarts(ts);
    RelativeBehindSlash(Join(ts, '/'));
  }

  /** What makes a template sound for a path: part by part it compiles to something that matches. */
  lemma TemplateSound(ts: seq<string>, parts: seq<string>, secret: string -> bool)
    requires |ts| == |parts| > 0 && (forall i :: 0 <= i < |ts| ==> TemplateText(ts[i])) && (ts[0] == "" ==> |ts| == 1)
    requires forall i :: 0 <= i < |ts| ==>
      CompilePart(ts[i], i == |ts| - 1).Some? && MatchSegment(CompilePart(ts[i], i == |ts| - 1).value, parts[i])
    ensures var t := "/" + Join(ts, '/');
      && (Parse(t, secret).Some? <==> |t| <= MaxTemplate && !secret(t))
      && (Parse(t, secret).Some? ==> Matches(Parse(t, secret).value, "/" + Join(parts, '/')))
  {
    TemplateSplits(ts);
    TemplateIsRelative(ts);
    CompiledMatches(ts, parts);
    assert ("/" + Join(parts, '/'))[1..] == Join(parts, '/');
  }

  lemma TemplatePartText(part: string, first: bool)
    requires CanonicalPart(part)
    ensures TemplateText(TemplatePart(part, first))
  {
    CanonicalPartIsLiteral(part);
  }

  /** The template of a path is accepted exactly when it is short enough and names no secret, and
   *  then its pattern matches the canonical form of that path. */
  lemma PathTemplateIsSound(value: string, secret: string -> bool)
    requires Canonical(value).Some?
    ensures var path := Canonical(value).value; var t := PathTemplate(path);
      && (Parse(t, secret).Some? <==> |t| <= MaxTemplate && !secret(t))
      && (Parse(t, secret).Some? ==> Matches(Parse(t, secret).value, path))
  {
    PartsOfCanonical(value);
    var parts := Parts(Canonical(value).value);
    var ts := TemplateParts(parts);
    forall i | 0 <= i < |ts| ensures TemplateText(ts[i]) {
      TemplatePartText(parts[i], i == 0);
    }
    forall i | 0 <= i < |ts| ensures CompilePart(ts[i], i == |ts| - 1).Some?
      && MatchSegment(CompilePart(ts[i], i == |ts| - 1).value, parts[i])
    {
      TemplatePartMatches(parts[i], i == 0, i == |ts| - 1);
    }
    TemplateSound(ts, parts, secret);
  }

  // ---------------------------------------------------------------- sibling_template

  lemma {:induction false} ConcatMore(a: seq<string>, b: seq<string>)
    ensures Concat(a + b) == Concat(a) + Concat(b)
  {
    if a == [] {
      assert a + b == b;
    } else {
      ConcatMore(a[1..], b);
      assert (a + b)[0] == a[0] && (a + b)[1..] == a[1..] + b;
      ConcatAssociative(a[0], Concat(a[1..]), Concat(b));
    }
  }

  lemma NormalSuffix(s: string, k: nat)
    requires NormalChars(s) && k <= |s|
    ensures NormalChars(s[k..])
  {
    var t := s[k..];
    forall i | 0 <= i < |t| ensures NormalAt(t, i) {
      assert NormalAt(s, k + i);
    }
  }

  lemma {:induction false} DigitsAreNumber(s: string)
    requires s != "" && IsDigit(s[0])
    ensures DigitRun(s) > 0 && DigitRun(s) <= |s| && IsNumber(s[..DigitRun(s)])
  {
    RunsFit(s);
  }

  lemma {:induction false} OthersAreLiteral(s: string)
    requires NormalChars(s)
    ensures OtherRun(s) <= |s| && PathLiteral(s[..OtherRun(s)])
  {
    if s != "" && !IsDigit(s[0]) && s[0] != '%' {
      NormalSuffix(s, 1);
      OthersAreLiteral(s[1..]);
      assert NormalAt(s, 0);
      assert s[..OtherRun(s)] == [s[0]] + s[1..][..OtherRun(s[1..])];
      ConcatEscapes([s[0]], s[1..][..OtherRun(s[1..])]);
    }
  }

  /** The length of the first run. */
  function FirstRun(s: string): nat
    requires s != ""
  {
    if s[0] == '%' then 3 else if IsDigit(s[0]) then DigitRun(s) else OtherRun(s)
  }

  lemma EscapeStarts(s: string)
    requires NormalChars(s) && s != "" && s[0] == '%'
    ensures UpperEscapeAt(s)
  {
    assert NormalAt(s, 0);
  }

  lemma RunsOfEscape(s: string)
    requires UpperEscapeAt(s)
    ensures Runs(s) == [s[..3]] + Runs(s[3..])
  {
  }

  lemma EscapeRun(s: string)
    requires NormalChars(s) && s != "" && s[0] == '%'
    ensures |s| >= 3 && PathLiteral(s[..3]) && Runs(s) == [s[..3]] + Runs(s[3..])
  {
    EscapeStarts(s);
    RunsOfEscape(s);
    EscapeIsLiteral(s[..3]);
  }

  lemma NumberRun(s: string)
    requires s != "" && IsDigit(s[0])
    ensures 0 < DigitRun(s) <= |s| && PathLiteral(s[..DigitRun(s)])
    ensures Runs(s) == [s[..DigitRun(s)]] + Runs(s[DigitRun(s)..])
  {
    DigitsAreNumber(s);
    assert WellEscaped(s[..DigitRun(s)]);
  }

  lemma PlainRun(s: string)
    requires NormalChars(s) && s != "" && !IsDigit(s[0]) && s[0] != '%'
    ensures 0 < OtherRun(s) <= |s| && PathLiteral(s[..OtherRun(s)])
    ensures Runs(s) == [s[..OtherRun(s)]] + Runs(s[OtherRun(s)..])
  {
    OthersAreLiteral(s);
  }

  lemma FirstRunIsLiteral(s: string)
    requires NormalChars(s) && s != ""
    ensures 0 < FirstRun(s) <= |s| && PathLiteral(s[..FirstRun(s)])
    ensures Runs(s) == [s[..FirstRun(s)]] + Runs(s[FirstRun(s)..])
  {
    if s[0] == '%' {
      EscapeRun(s);
    } else if IsDigit(s[0]) {
      NumberRun(s);
    } else {
      PlainRun(s);
    }
  }

  /** In a text of unreserved characters and escapes the runs leave nothing out, and each of them is
   *  a literal on its own. */
  lemma {:induction false} RunsCover(s: string)
    requires NormalChars(s)
    ensures Concat(Runs(s)) == s && forall i :: 0 <= i < |Runs(s)| ==> PathLiteral(Runs(s)[i])
    decreases |s|
  {
    if s != "" {
      var n := FirstRun(s);
      FirstRunIsLiteral(s);
      NormalSuffix(s, n);
      RunsCover(s[n..]);
      ConcatFirst(s[..n], Runs(s[n..]));
      assert s[..n] + s[n..] == s;
    }
  }

  lemma ConcatFirst(first: string, rest: seq<string>)
    ensures Concat([first] + rest) == first + Concat(rest)
  {
    assert ([first] + rest)[1..] == rest;
  }

  lemma EscapeIsLiteral(s: string)
    requires |s| == 3 && UpperEscapeAt(s)
    ensures PathLiteral(s)
  {
    assert EscapeAt(s, 0);
  }

  lemma {:induction false} LiteralsJoin(runs: seq<string>)
    requires forall i :: 0 <= i < |runs| ==> PathLiteral(runs[i])
    ensures PathLiteral(Concat(runs))
  {
    if runs != [] {
      assert forall i :: 0 <= i < |runs| - 1 ==> runs[1..][i] == runs[i + 1];
      LiteralsJoin(runs[1..]);
      ConcatEscapes(runs[0], Concat(runs[1..]));
    }
  }

  lemma {:induction false} HoleBehind(before: string, after: string, i: nat)
    requires Lacks(before, '{') && i <= |before|
    ensures FirstHole(before + "{int}" + after, i) == Some(|before|)
    decreases |before| - i
  {
    var s := before + "{int}" + after;
    if i == |before| {
      assert s[i..i + 5] == "{int}";
    } else {
      assert i + 5 <= |s| ==> s[i..i + 5][0] == before[i];
      HoleBehind(before, after, i + 1);
    }
  }

  /** A part with one hole between two literals compiles to a pattern that matches every text with
   *  a number in place of the hole. */
  lemma HoleMatches(before: string, after: string, digits: string, last: bool)
    requires PathLiteral(before) && PathLiteral(after) && IsNumber(digits)
    ensures var c := CompilePart(before + "{int}" + after, last); c.Some? && MatchSegment(c.value, before + digits + after)
  {
    var part, s := before + "{int}" + after, before + digits + after;
    HoleNotPlain(before, after);
    if before == "" && after == "" {
      assert part == "{int}" && s == digits;
    } else {
      HoleBehind(before, after, 0);
      assert part[..|before|] == before && part[|before| + 5..] == after;
      assert s[..|before|] == before && s[|s| - |after|..] == after && s[|before|..|s| - |after|] == digits;
    }
  }

  lemma HoleNotPlain(before: string, after: string)
    requires PathLiteral(before) && PathLiteral(after)
    ensures var part := before + "{int}" + after;
      part != "**" && part != "*" && part != "{slug}" && (part == "{int}" <==> before == "" && after == "")
  {
    var part := before + "{int}" + after;
    assert part[|before|] == '{' && part[|before| + 1] == 'i';
    assert "{slug}"[1] == 's';
    assert before != "" ==> part[0] == before[0];
  }

  lemma AroundRun(runs: seq<string>, k: nat, run: string)
    requires k < |runs|
    ensures Concat(runs[k := run]) == Concat(runs[..k]) + run + Concat(runs[k + 1..])
  {
    assert runs[k := run] == runs[..k] + ([run] + runs[k + 1..]);
    ConcatMore(runs[..k], [run] + runs[k + 1..]);
    assert ([run] + runs[k + 1..])[1..] == runs[k + 1..];
    ConcatAssociative(Concat(runs[..k]), run, Concat(runs[k + 1..]));
  }

  lemma SiblingRuns(left: string, right: string, k: nat)
    requires NormalChars(left) && NormalChars(right) && Siblings(left, right, k)
    ensures var before, after := Concat(Runs(left)[..k]), Concat(Runs(left)[k + 1..]);
      && PathLiteral(before) && PathLiteral(after)
      && left == before + Runs(left)[k] + after && right == before + Runs(right)[k] + after
      && MergedPart(left, k) == before + "{int}" + after
  {
    var l, r := Runs(left), Runs(right);
    RunsCover(left);
    RunsCover(right);
    LiteralsJoin(l[..k]);
    LiteralsJoin(l[k + 1..]);
    AroundRun(l, k, l[k]);
    AroundRun(l, k, "{int}");
    AroundRun(l, k, r[k]);
    assert l[k := l[k]] == l && l[k := r[k]] == r;
  }

  lemma SiblingPart(left: string, right: string, k: nat, last: bool)
    requires NormalChars(left) && NormalChars(right) && Siblings(left, right, k)
    ensures var c := CompilePart(MergedPart(left, k), last);
      c.Some? && MatchSegment(c.value, left) && MatchSegment(c.value, right)
    ensures TemplateText(MergedPart(left, k)) && MergedPart(left, k) != ""
  {
    SiblingRuns(left, right, k);
    var before, after := Concat(Runs(left)[..k]), Concat(Runs(left)[k + 1..]);
    HoleMatches(before, after, Runs(left)[k], last);
    HoleMatches(before, after, Runs(right)[k], last);
  }

  lemma CanonicalPartIsNormal(part: string)
    requires CanonicalPart(part)
    ensures NormalChars(part)
  {
    if part != "" {
      SettledNormal(part);
    }
  }

  lemma SiblingPartsSound(a: seq<string>, b: seq<string>, i: nat, k: nat, secret: string -> bool)
    requires OnlyAt(a, b, i) && Siblings(a[i], b[i], k) && (a[0] == "" ==> |a| == 1)
    requires forall j :: 0 <= j < |a| ==> CanonicalPart(a[j]) && CanonicalPart(b[j])
    ensures var t := "/" + Join(a[i := MergedPart(a[i], k)], '/');
      && (Parse(t, secret).Some? <==> |t| <= MaxTemplate && !secret(t))
      && (Parse(t, secret).Some? ==> Matches(Parse(t, secret).value, "/" + Join(a, '/')) && Matches(Parse(t, secret).value, "/" + Join(b, '/')))
  {
    var ts := a[i := MergedPart(a[i], k)];
    CanonicalPartIsNormal(a[i]);
    CanonicalPartIsNormal(b[i]);
    SiblingPart(a[i], b[i], k, i == |a| - 1);
    forall j | 0 <= j < |ts| ensures TemplateText(ts[j]) && CompilePart(ts[j], j == |ts| - 1).Some?
      && MatchSegment(CompilePart(ts[j], j == |ts| - 1).value, a[j]) && MatchSegment(CompilePart(ts[j], j == |ts| - 1).value, b[j])
    {
      if j != i {
        CanonicalPartIsLiteral(a[j]);
        LiteralCompiles(a[j], j == |ts| - 1);
      }
    }
    TemplateSound(ts, a, secret);
    TemplateSound(ts, b, secret);
  }

  /** The template of two sibling paths is accepted exactly when it is short enough and names no
   *  secret, and then its pattern matches the canonical forms of both. */
  lemma SiblingTemplateIsSound(first: string, second: string, secret: string -> bool)
    requires Canonical(first).Some? && Canonical(second).Some?
    requires SiblingTemplate(Canonical(first).value, Canonical(second).value).Some?
    ensures var a, b := Canonical(first).value, Canonical(second).value; var t := SiblingTemplate(a, b).value;
      && (Parse(t, secret).Some? <==> |t| <= MaxTemplate && !secret(t))
      && (Parse(t, secret).Some? ==> Matches(Parse(t, secret).value, a) && Matches(Parse(t, secret).value, b))
  {
    PartsOfCanonical(first);
    PartsOfCanonical(second);
    var a, b := Parts(Canonical(first).value), Parts(Canonical(second).value);
    var i: nat, k: nat :| OnlyAt(a, b, i) && Siblings(a[i], b[i], k)
      && SiblingTemplate(Canonical(first).value, Canonical(second).value) == Some("/" + Join(a[i := MergedPart(a[i], k)], '/'));
    SiblingPartsSound(a, b, i, k, secret);
  }
}
