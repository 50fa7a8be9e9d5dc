/** The normal form of URL paths: dot segments and empty segments are removed, every segment is
 *  brought to its normal form, and a trailing slash is kept. */
module UrlPaths {
  import opened Basics
  import opened Strings
  import opened Utf8
  import opened PathSegments

  // ---------------------------------------------------------------- the normal form

  predicate IsDots(s: string) {
    s == "." || s == ".."
  }

  /** Escaped dots would read as a dot segment once decoded, so they stay escaped. */
  function Protected(part: string, canonical: string): string {
    if !Holds(part, '%') then canonical
    else if canonical == "." then "%2E"
    else if canonical == ".." then "%2E%2E"
    else canonical
  }

  predicate Clean(parts: seq<string>) {
    forall i :: 0 <= i < |parts| ==> WellEscaped(parts[i]) && Lacks(parts[i], '/')
  }

  /** One turn of the loop over the parts. */
  function Push(stack: seq<string>, part: string): Option<seq<string>> {
    if part == "" || part == "." then Some(stack)
    else if part == ".." then Some(if stack == [] then [] else stack[..|stack| - 1])
    else if !WellEscaped(part) then None
    else
      var canonical := CanonicalSegment(part);
      if canonical.None? then None else Some(stack + [Protected(part, canonical.value)])
  }

  function Resolve(parts: seq<string>): Option<seq<string>> {
    Fold(Push, [], parts)
  }

  function Assemble(segments: seq<string>, trailing: bool): string {
    "/" + Join(segments, '/') + (if trailing && segments != [] then "/" else "")
  }

  predicate EndsInSlash(s: string) {
    s != [] && s[|s| - 1] == '/'
  }

  function PartsOf(value: string): (parts: seq<string>)
    requires WellEscaped(value)
    ensures Clean(parts)
  {
    var path := if value == "" then "/" else value;
    SplitKeepsEscapes(path, '/');
    JoinSplit(path, '/');
    Split(path, '/')
  }

  /** `canonical_path` on a bare path; None where it raises. */
  function Canonical(value: string): Option<string> {
    if !WellEscaped(value) then None
    else
      var segments := Resolve(PartsOf(value));
      if segments.None? then None else Some(Assemble(segments.value, EndsInSlash(value)))
  }

  predicate SchemeAt(s: string, i: int) {
    0 <= i <= |s| - 3 && s[i] == ':' && s[i + 1] == '/' && s[i + 2] == '/'
  }

  predicate HasScheme(s: string) {
    exists i :: 0 <= i < |s| && SchemeAt(s, i)
  }

  /** `canonical_path`. `pathOf` is the path that `urlsplit` finds in a URL, None where it raises. */
  function CanonicalPath(input: string, pathOf: string -> Option<string>): Option<string> {
    var value := if HasScheme(input) then pathOf(input) else Some(input);
    if value.None? then None else Canonical(value.value)
  }

  // ---------------------------------------------------------------- settled segments

  /** A segment that the loop pushes unchanged. */
  predicate Settled(n: string) {
    && n != "" && !IsDots(n) && WellEscaped(n) && Lacks(n, '/')
    && CanonicalSegment(n).Some? && Protected(n, CanonicalSegment(n).value) == n
  }

  lemma {:induction false} PlainTokens(s: string)
    requires !Holds(s, '%')
    ensures WellEscaped(s) && Octets(Tokens(s)) == Encode(s)
  {
    if s != [] {
      assert s[0] != '%';
      assert forall i :: 0 <= i < |s| - 1 ==> s[1..][i] == s[i + 1];
      PlainTokens(s[1..]);
    }
  }

  /** A part without escapes that comes out as dots went in as dots. */
  lemma DotsComeFromEscapes(part: string)
    requires WellEscaped(part) && CanonicalSegment(part).Some? && IsDots(CanonicalSegment(part).value) && !IsDots(part)
    ensures Holds(part, '%')
  {
    var c := CanonicalSegment(part).value;
    if !Holds(part, '%') {
      PlainTokens(part);
      PlainTokens(c);
      CanonicalSegmentSameOctets(part);
      DecodeEncode(part);
      DecodeEncode(c);
    }
  }

  lemma DotText(n: nat)
    requires n == 1 || n == 2
    ensures var dots := if n == 1 then "." else "..";
      Text(Rendered(dots)) == dots && Encode(dots) == seq(n, _ => 0x2E as Byte) && Decode(seq(n, _ => 0x2E as Byte)) == Some(dots)
  {
    var dots := if n == 1 then "." else "..";
    var bytes: seq<Byte> := seq(n, _ => 0x2E as Byte);
    assert "."[1..] == "" && ".."[1..] == ".";
    assert Encode(dots) == bytes;
    DecodeEncode(dots);
    assert Rendered(".") == [Literal('.')];
    assert Rendered("..") == [Literal('.')] + Rendered(".");
    TextConcat([Literal('.')], Rendered("."));
    assert Text([Literal('.')]) == "." by { assert [Literal('.')][1..] == []; }
  }

  lemma EscapedText(n: nat)
    requires n == 1 || n == 2
    ensures Text(EscapesOf(seq(n, _ => 0x2E as Byte))) == if n == 1 then "%2E" else "%2E%2E"
  {
    var one: seq<Byte> := [0x2E];
    assert seq(1, _ => 0x2E as Byte) == one && seq(2, _ => 0x2E as Byte) == one + one;
    assert EscapeText(0x2E) == "%2E";
    assert Text(EscapesOf(one)) == "%2E" by { assert EscapesOf(one)[1..] == []; }
    assert EscapesOf(one + one) == EscapesOf(one) + EscapesOf(one);
    TextConcat(EscapesOf(one), EscapesOf(one));
  }

  /** Escaped dots decode to dots, and are pushed as they are. */
  lemma EscapedDots(n: nat)
    requires n == 1 || n == 2
    ensures Settled(if n == 1 then "%2E" else "%2E%2E")
    ensures CanonicalSegment(if n == 1 then "%2E" else "%2E%2E") == Some(if n == 1 then "." else "..")
  {
    var bytes: seq<Byte> := seq(n, _ => 0x2E as Byte);
    var ts := EscapesOf(bytes);
    var s := if n == 1 then "%2E" else "%2E%2E";
    EscapedText(n);
    TextTokens(ts);
    CharsPending(bytes, [], []);
    assert ts + [] == ts && [] + bytes == bytes;
    DotText(n);
    assert CanonicalSegment(s) == Some(if n == 1 then "." else "..");
    assert s[0] == '%';
  }

  lemma {:induction false} TextHasNoSlash(cs: string)
    ensures Lacks(Text(Rendered(cs)), '/') && (cs != [] ==> Text(Rendered(cs)) != [])
  {
    if cs != [] {
      TextHasNoSlash(cs[1..]);
      TextConcat(TokensOf(cs[0]), Rendered(cs[1..]));
      if !Unreserved(cs[0]) {
        EscapesHaveNoSlash(EncodeChar(cs[0]));
      } else {
        assert [Literal(cs[0])][1..] == [];
      }
    }
  }

  lemma {:induction false} EscapesHaveNoSlash(bytes: seq<Byte>)
    ensures Lacks(Text(EscapesOf(bytes)), '/') && (bytes != [] ==> Text(EscapesOf(bytes)) != [])
  {
    if bytes != [] {
      assert EscapesOf(bytes)[1..] == EscapesOf(bytes[1..]);
      EscapesHaveNoSlash(bytes[1..]);
    }
  }

  lemma {:induction false} TextConcat(a: seq<Token>, b: seq<Token>)
    ensures Text(a + b) == Text(a) + Text(b)
  {
    if a == [] {
      assert a + b == b;
    } else {
      TextConcat(a[1..], b);
      assert (a + b)[0] == a[0] && (a + b)[1..] == a[1..] + b;
      ConcatAssociative(Show(a[0]), Text(a[1..]), Text(b));
    }
  }

  /** What the loop pushes for a part is settled. */
  lemma ProtectedIsSettled(part: string)
    requires WellEscaped(part) && Lacks(part, '/') && part != "" && !IsDots(part) && CanonicalSegment(part).Some?
    ensures Settled(Protected(part, CanonicalSegment(part).value))
  {
    var c := CanonicalSegment(part).value;
    if IsDots(c) {
      DotsComeFromEscapes(part);
      EscapedDots(|c|);
    } else {
      CanonicalSegmentIdempotent(part);
      TextHasNoSlash(Chars(Tokens(part), []).value);
      CharsNonEmpty(Tokens(part), []);
    }
  }

  lemma {:induction false} CharsNonEmpty(ts: seq<Token>, pending: seq<Byte>)
    requires Chars(ts, pending).Some? && (ts != [] || pending != [])
    ensures Chars(ts, pending).value != []
    decreases |ts|
  {
    if ts != [] && ts[0].Escape? {
      CharsNonEmpty(ts[1..], pending + [ts[0].byte]);
    }
  }

  ghost predicate AllSettled(segments: seq<string>) {
    forall i :: 0 <= i < |segments| ==> Settled(segments[i])
  }

  lemma PushIsSettled(stack: seq<string>, part: string)
    requires AllSettled(stack) && Lacks(part, '/') && Push(stack, part).Some?
    ensures AllSettled(Push(stack, part).value)
  {
    if part != "" && !IsDots(part) {
      ProtectedIsSettled(part);
    }
  }

  lemma {:induction false} ResolvedIsSettled(parts: seq<string>)
    requires Clean(parts) && Resolve(parts).Some?
    ensures AllSettled(Resolve(parts).value)
  {
    if parts != [] {
      ResolvedIsSettled(parts[..|parts| - 1]);
      PushIsSettled(Resolve(parts[..|parts| - 1]).value, parts[|parts| - 1]);
    }
  }

  lemma PushSettled(stack: seq<string>, part: string)
    requires Settled(part)
    ensures Push(stack, part) == Some(stack + [part])
  {
  }

  /** Settled segments resolve to themselves. */
  lemma SettledResolves(segments: seq<string>)
    requires AllSettled(segments)
    ensures Resolve(segments) == Some(segments)
  {
    forall i, stack | 0 <= i < |segments| ensures Push(stack, segments[i]) == Some(stack + [segments[i]]) {
      PushSettled(stack, segments[i]);
    }
    FoldCollects(Push, [], segments);
    assert [] + segments == segments;
  }

  lemma {:induction false} ResolveAfterEmpty(parts: seq<string>)
    ensures Resolve([""] + parts) == Resolve(parts)
  {
    if parts == [] {
      assert [""] + parts == [""] && [""][..0] == [];
    } else {
      var n := |parts| - 1;
      ResolveAfterEmpty(parts[..n]);
      FoldMore(Push, [], [""] + parts[..n], parts[n]);
      assert [""] + parts == [""] + parts[..n] + [parts[n]];
    }
  }

  // ---------------------------------------------------------------- idempotence and shape

  function Pieces(segments: seq<string>, trailing: bool): seq<string> {
    [""] + segments + (if trailing || segments == [] then [""] else [])
  }

  lemma AssembledPieces(segments: seq<string>, trailing: bool)
    ensures Assemble(segments, trailing) == Join(Pieces(segments, trailing), '/')
  {
    if segments == [] {
      assert Pieces(segments, trailing) == ["", ""];
      assert ["", ""][1..] == [""];
    } else {
      assert ([""] + segments)[1..] == segments;
      if trailing {
        JoinAppend([""] + segments, "", '/');
      } else {
        assert Pieces(segments, trailing) == [""] + segments;
      }
    }
  }

  lemma {:induction false} JoinClean(parts: seq<string>)
    requires Clean(parts)
    ensures WellEscaped(Join(parts, '/'))
  {
    if |parts| > 1 {
      JoinClean(parts[1..]);
      ConcatEscapes(parts[0], "/");
      ConcatEscapes(parts[0] + "/", Join(parts[1..], '/'));
    }
  }

  /** The pieces of a normal form: nothing before the first slash, then settled segments, and
   *  nothing after a trailing slash. */
  lemma SplitAssembled(segments: seq<string>, trailing: bool)
    requires AllSettled(segments)
    ensures WellEscaped(Assemble(segments, trailing)) && Split(Assemble(segments, trailing), '/') == Pieces(segments, trailing)
  {
    AssembledPieces(segments, trailing);
    assert Clean(Pieces(segments, trailing));
    JoinClean(Pieces(segments, trailing));
    SplitJoin(Pieces(segments, trailing), '/');
  }

  lemma PiecesResolve(segments: seq<string>, trailing: bool)
    requires AllSettled(segments)
    ensures Resolve(Pieces(segments, trailing)) == Some(segments)
  {
    SettledResolves(segments);
    ResolveAfterEmpty(segments);
    FoldMore(Push, [], [""] + segments, "");
    assert Pieces(segments, trailing) == [""] + segments + [""] || Pieces(segments, trailing) == [""] + segments;
  }

  lemma CanonicalAssembled(segments: seq<string>, trailing: bool)
    requires AllSettled(segments)
    ensures Canonical(Assemble(segments, trailing)) == Some(Assemble(segments, trailing))
  {
    SplitAssembled(segments, trailing);
    PiecesResolve(segments, trailing);
    TrailingSlash(segments, trailing);
  }

  lemma TrailingSlash(segments: seq<string>, trailing: bool)
    requires AllSettled(segments)
    ensures segments != [] ==> (EndsInSlash(Assemble(segments, trailing)) <==> trailing)
  {
    if segments != [] && !trailing {
      JoinEnds(segments);
    }
  }

  lemma {:induction false} JoinEnds(segments: seq<string>)
    requires segments != [] && AllSettled(segments)
    ensures Join(segments, '/') != "" && !EndsInSlash(Join(segments, '/'))
  {
    if |segments| > 1 {
      JoinEnds(segments[1..]);
      var s := Join(segments, '/');
      assert s[|s| - 1] == Join(segments[1..], '/')[|Join(segments[1..], '/')| - 1];
    } else {
      assert Settled(segments[0]);
    }
  }

  lemma CanonicalIsAssembled(value: string)
    requires Canonical(value).Some?
    ensures exists segments :: AllSettled(segments) && Canonical(value).value == Assemble(segments, EndsInSlash(value))
  {
    ResolvedIsSettled(PartsOf(value));
  }

  // ---------------------------------------------------------------- characters of the result

  predicate NormalAt(s: string, i: nat)
    requires i < |s|
  {
    Unreserved(s[i]) || (EscapeAt(s, i) && UpperHex(s[i + 1]) && UpperHex(s[i + 2]))
  }

  /** Every character is unreserved, or begins an escape in upper case. */
  predicate NormalChars(s: string) {
    forall i :: 0 <= i < |s| ==> NormalAt(s, i)
  }

  lemma NormalConcat(a: string, b: string)
    requires NormalChars(a) && NormalChars(b)
    ensures NormalChars(a + b)
  {
    var s := a + b;
    forall i | 0 <= i < |s| ensures NormalAt(s, i) {
      if i < |a| {
        assert NormalAt(a, i);
      } else {
        assert NormalAt(b, i - |a|);
      }
    }
  }

  lemma NormalEscape(b: Byte)
    ensures NormalChars(EscapeText(b))
  {
    var s := EscapeText(b);
    assert EscapeAt(s, 0) && NormalAt(s, 0) && NormalAt(s, 1) && NormalAt(s, 2);
  }

  lemma {:induction false} EscapesNormal(bytes: seq<Byte>)
    ensures NormalChars(Text(EscapesOf(bytes)))
  {
    if bytes != [] {
      assert EscapesOf(bytes)[1..] == EscapesOf(bytes[1..]);
      EscapesNormal(bytes[1..]);
      NormalEscape(bytes[0]);
      NormalConcat(EscapeText(bytes[0]), Text(EscapesOf(bytes[1..])));
    }
  }

  lemma {:induction false} RenderedNormal(cs: string)
    ensures NormalChars(Text(Rendered(cs)))
  {
    if cs != [] {
      RenderedNormal(cs[1..]);
      TextConcat(TokensOf(cs[0]), Rendered(cs[1..]));
      EscapesNormal(EncodeChar(cs[0]));
      assert [Literal(cs[0])][1..] == [];
      NormalConcat(Text(TokensOf(cs[0])), Text(Rendered(cs[1..])));
    }
  }

  lemma SettledNormal(n: string)
    requires Settled(n)
    ensures NormalChars(n)
  {
    RenderedNormal(Chars(Tokens(n), []).value);
    EscapedDotsNormal();
  }

  lemma EscapedDotsNormal()
    ensures NormalChars("%2E") && NormalChars("%2E%2E")
  {
    NormalEscape(0x2E);
    assert EscapeText(0x2E) == "%2E";
    NormalConcat("%2E", "%2E");
  }

  lemma NormalHasNoColon(n: string)
    requires NormalChars(n)
    ensures Lacks(n, ':')
  {
    forall i | 0 <= i < |n| ensures n[i] != ':' {
      assert NormalAt(n, i);
    }
  }

  /** A piece of a result after its first slash. */
  predicate GoodPiece(piece: string, last: bool) {
    NormalChars(piece) && !IsDots(piece) && (piece == "" ==> last)
  }

  lemma PiecesShape(segments: seq<string>, trailing: bool, i: nat)
    requires AllSettled(segments) && 1 <= i < |Pieces(segments, trailing)|
    ensures GoodPiece(Pieces(segments, trailing)[i], i == |Pieces(segments, trailing)| - 1)
  {
    if i <= |segments| {
      assert Pieces(segments, trailing)[i] == segments[i - 1];
      SettledNormal(segments[i - 1]);
    }
  }

  /** The shape of every result: it starts with a slash; between slashes there is no empty and no
   *  dot segment; and there are only unreserved characters and escapes in upper case. */
  lemma PathShape(input: string, pathOf: string -> Option<string>, i: nat)
    requires CanonicalPath(input, pathOf).Some?
    ensures var pieces := Split(CanonicalPath(input, pathOf).value, '/');
      |pieces| >= 2 && pieces[0] == "" && (1 <= i < |pieces| ==> GoodPiece(pieces[i], i == |pieces| - 1))
  {
    var value := if HasScheme(input) then pathOf(input).value else input;
    CanonicalIsAssembled(value);
    var segments :| AllSettled(segments) && Canonical(value).value == Assemble(segments, EndsInSlash(value));
    SplitAssembled(segments, EndsInSlash(value));
    if 1 <= i < |Pieces(segments, EndsInSlash(value))| {
      PiecesShape(segments, EndsInSlash(value), i);
    }
  }

  lemma {:induction false} JoinNoColon(parts: seq<string>)
    requires forall i :: 0 <= i < |parts| ==> Lacks(parts[i], ':')
    ensures Lacks(Join(parts, '/'), ':')
  {
    if |parts| > 1 {
      JoinNoColon(parts[1..]);
    }
  }

  lemma AssembledHasNoScheme(segments: seq<string>, trailing: bool)
    requires AllSettled(segments)
    ensures !HasScheme(Assemble(segments, trailing))
  {
    forall i | 0 <= i < |segments| ensures Lacks(segments[i], ':') {
      SettledNormal(segments[i]);
      NormalHasNoColon(segments[i]);
    }
    JoinNoColon(segments);
    assert Lacks(Assemble(segments, trailing), ':');
  }

  /** The normal form is its own normal form, whatever `urlsplit` does. */
  lemma CanonicalPathIdempotent(input: string, pathOf: string -> Option<string>)
    requires CanonicalPath(input, pathOf).Some?
    ensures CanonicalPath(CanonicalPath(input, pathOf).value, pathOf) == CanonicalPath(input, pathOf)
  {
    var value := if HasScheme(input) then pathOf(input).value else input;
    CanonicalIsAssembled(value);
    var segments :| AllSettled(segments) && Canonical(value).value == Assemble(segments, EndsInSlash(value));
    CanonicalAssembled(segments, EndsInSlash(value));
    AssembledHasNoScheme(segments, EndsInSlash(value));
  }

  // ---------------------------------------------------------------- what a path stands for

  /** Dot segments removed, everything else decoded to bytes. */
  function PushOctets(stack: seq<seq<Byte>>, part: string): Option<seq<seq<Byte>>> {
    if part == "" || part == "." then Some(stack)
    else if part == ".." then Some(if stack == [] then [] else stack[..|stack| - 1])
    else if !WellEscaped(part) then None
    else Some(stack + [Octets(Tokens(part))])
  }

  function Meaning(parts: seq<string>): Option<seq<seq<Byte>>> {
    Fold(PushOctets, [], parts)
  }

  function OctetsOf(n: string): seq<Byte> {
    if WellEscaped(n) then Octets(Tokens(n)) else []
  }

  function AllOctets(segments: seq<string>): seq<seq<Byte>> {
    seq(|segments|, i requires 0 <= i < |segments| => OctetsOf(segments[i]))
  }

  lemma EscapedDotsOctets(n: nat)
    requires n == 1 || n == 2
    ensures OctetsOf(if n == 1 then "%2E" else "%2E%2E") == OctetsOf(if n == 1 then "." else "..")
  {
    EscapedDots(n);
    CanonicalSegmentSameOctets(if n == 1 then "%2E" else "%2E%2E");
  }

  lemma ProtectedKeepsOctets(part: string)
    requires WellEscaped(part) && Lacks(part, '/') && part != "" && !IsDots(part) && CanonicalSegment(part).Some?
    ensures OctetsOf(Protected(part, CanonicalSegment(part).value)) == OctetsOf(part)
  {
    var c := CanonicalSegment(part).value;
    CanonicalSegmentSameOctets(part);
    if IsDots(c) {
      EscapedDotsOctets(|c|);
    }
  }

  lemma PushKeepsMeaning(stack: seq<string>, part: string)
    requires Lacks(part, '/') && Push(stack, part).Some?
    ensures PushOctets(AllOctets(stack), part) == Some(AllOctets(Push(stack, part).value))
  {
    var after := Push(stack, part).value;
    if part == "" || part == "." {
    } else if part == ".." {
      assert AllOctets(after) == if stack == [] then [] else AllOctets(stack)[..|stack| - 1];
    } else {
      ProtectedKeepsOctets(part);
      assert AllOctets(after) == AllOctets(stack) + [Octets(Tokens(part))];
    }
  }

  lemma {:induction false} ResolvedMeaning(parts: seq<string>)
    requires Clean(parts) && Resolve(parts).Some?
    ensures Meaning(parts) == Some(AllOctets(Resolve(parts).value))
  {
    if parts == [] {
      assert AllOctets([]) == [];
    } else {
      ResolvedMeaning(parts[..|parts| - 1]);
      PushKeepsMeaning(Resolve(parts[..|parts| - 1]).value, parts[|parts| - 1]);
    }
  }

  lemma SettledByOctets(m: string, n: string)
    requires Settled(m) && Settled(n) && OctetsOf(m) == OctetsOf(n)
    ensures m == n
  {
    SameNormalForm(m, n);
    var c := CanonicalSegment(m).value;
    if IsDots(c) {
      DotsComeFromEscapes(m);
      DotsComeFromEscapes(n);
    }
  }

  /** Two paths have the same normal form exactly when they stand for the same segments and agree
   *  on the trailing slash. */
  lemma SameCanonicalPath(a: string, b: string)
    requires WellEscaped(a) && WellEscaped(b) && Canonical(a).Some? && Canonical(b).Some?
    ensures Canonical(a) == Canonical(b)
      <==> Meaning(PartsOf(a)) == Meaning(PartsOf(b)) && (Meaning(PartsOf(a)) == Some([]) || EndsInSlash(a) == EndsInSlash(b))
  {
    var s, t := Resolve(PartsOf(a)).value, Resolve(PartsOf(b)).value;
    ResolvedIsSettled(PartsOf(a));
    ResolvedIsSettled(PartsOf(b));
    ResolvedMeaning(PartsOf(a));
    ResolvedMeaning(PartsOf(b));
    assert AllOctets([]) == [];
    if AllOctets(s) == AllOctets(t) {
      SameByOctets(s, t);
    }
    if Canonical(a) == Canonical(b) {
      SplitAssembled(s, EndsInSlash(a));
      SplitAssembled(t, EndsInSlash(b));
      SamePieces(s, EndsInSlash(a), t, EndsInSlash(b));
    }
    assert s == [] <==> AllOctets(s) == [];
  }

  lemma SameByOctets(s: seq<string>, t: seq<string>)
    requires AllSettled(s) && AllSettled(t) && AllOctets(s) == AllOctets(t)
    ensures s == t
  {
    assert |s| == |AllOctets(s)| && |t| == |AllOctets(t)|;
    forall i | 0 <= i < |s| ensures s[i] == t[i] {
      assert OctetsOf(s[i]) == AllOctets(s)[i] && OctetsOf(t[i]) == AllOctets(t)[i];
      SettledByOctets(s[i], t[i]);
    }
  }

  lemma SamePieces(s: seq<string>, x: bool, t: seq<string>, y: bool)
    requires AllSettled(s) && AllSettled(t) && Pieces(s, x) == Pieces(t, y)
    ensures s == t && (s == [] || x == y)
  {
    PiecesResolve(s, x);
    PiecesResolve(t, y);
    assert |Pieces(s, x)| == |Pieces(t, y)|;
  }
}
