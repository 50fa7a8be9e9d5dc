/** The loops of `path_template`, `sibling_template` and `parse`. */
module TemplateLoops {
  import opened Basics
  import opened Strings
  import opened Templates

  method PathTemplateOf(canonical: string) returns (template: string)
    ensures template == PathTemplate(canonical)
  {
    var parts := Split(canonical, '/')[1..];
    var output: seq<string> := [];
    for index := 0 to |parts|
      invariant output == TemplateParts(parts)[..index]
    {
      var part := PartTemplateOf(parts[index], index);
      assert TemplateParts(parts)[..index + 1] == TemplateParts(parts)[..index] + [TemplatePart(parts[index], index == 0)];
      output := output + [part];
    }
    assert TemplateParts(parts)[..|parts|] == TemplateParts(parts);
    template := "/" + Join(output, '/');
  }

  method PartTemplateOf(part: string, index: nat) returns (output: string)
    ensures output == TemplatePart(part, index == 0)
  {
    var decoded := Decoded(part);
    if IsNumber(decoded) {
      output := "{int}";
    } else if index > 0 && IsSlug(decoded) {
      output := "{slug}";
    } else {
      output := part;
    }
  }

  /** The positions at which two lists differ, if there is exactly one. */
  method OnlyDifference(a: seq<string>, b: seq<string>) returns (k: Option<nat>)
    ensures k.Some? ==> OnlyAt(a, b, k.value)
    ensures k.None? ==> forall i: nat :: !OnlyAt(a, b, i)
  {
    if |a| != |b| {
      return None;
    }
    var differences: seq<nat> := [];
    for i := 0 to |a|
      invariant forall x :: 0 <= x < |differences| ==> differences[x] < i && a[differences[x]] != b[differences[x]]
      invariant forall j :: 0 <= j < i && a[j] != b[j] ==> j in differences
      invariant forall x, y :: 0 <= x < y < |differences| ==> differences[x] < differences[y]
    {
      if a[i] != b[i] {
        differences := differences + [i];
      }
    }
    if |differences| != 1 {
      assert |differences| > 1 ==>
        differences[0] < differences[1] && a[differences[0]] != b[differences[0]] && a[differences[1]] != b[differences[1]];
      forall i: nat ensures !OnlyAt(a, b, i) {
        assert OnlyAt(a, b, i) ==> i in differences;
      }
      return None;
    }
    k := Some(differences[0]);
  }

  /** The one run of digits in which two parts differ, if they differ in nothing else. */
  method DifferingRun(left: string, right: string) returns (k: Option<nat>)
    ensures k.Some? ==> Siblings(left, right, k.value)
    ensures k.None? ==> forall i: nat :: !Siblings(left, right, i)
  {
    k := OnlyDifference(Runs(left), Runs(right));
    if k.Some? && !(IsNumber(Runs(left)[k.value]) && IsNumber(Runs(right)[k.value])) {
      OnlyOne(Runs(left), Runs(right), k.value);
      k := None;
    }
  }

  lemma OnlyOne(a: seq<string>, b: seq<string>, k: nat)
    requires OnlyAt(a, b, k)
    ensures forall i: nat :: OnlyAt(a, b, i) ==> i == k
  {
  }

  method SiblingTemplateOf(first: string, second: string) returns (template: Option<string>)
    ensures template == SiblingTemplate(first, second)
  {
    var a, b := Split(first, '/')[1..], Split(second, '/')[1..];
    var index := OnlyDifference(a, b);
    if index.None? {
      return None;
    }
    OnlyOne(a, b, index.value);
    var k := DifferingRun(a[index.value], b[index.value]);
    if k.None? {
      return None;
    }
    OnlyOne(Runs(a[index.value]), Runs(b[index.value]), k.value);
    var tokens := Runs(a[index.value])[k.value := "{int}"];
    template := Some("/" + Join(a[index.value := Concat(tokens)], '/'));
  }

  /** The loop of `parse` over the parts of a template. */
  method CompileOf(parts: seq<string>) returns (compiled: Option<seq<Segment>>)
    ensures compiled == Compile(parts)
  {
    var out: seq<Segment> := [];
    assert parts[0..] == parts;
    assert Compile(parts).Some? ==> out + Compile(parts).value == Compile(parts).value;
    for index := 0 to |parts|
      invariant Compile(parts) == Prepend(out, Compile(parts[index..]))
    {
      var c := CompilePart(parts[index], index == |parts| - 1);
      assert parts[index..][1..] == parts[index + 1..];
      if c.None? {
        return None;
      }
      PrependOne(out, c.value, Compile(parts[index + 1..]));
      out := out + [c.value];
    }
    assert parts[|parts|..] == [];
    assert out + [] == out;
    compiled := Some(out);
  }

  function Prepend(out: seq<Segment>, rest: Option<seq<Segment>>): Option<seq<Segment>> {
    if rest.None? then None else Some(out + rest.value)
  }

  lemma PrependOne(out: seq<Segment>, c: Segment, rest: Option<seq<Segment>>)
    ensures Prepend(out, Prepend([c], rest)) == Prepend(out + [c], rest)
  {
    if rest.Some? {
      ConcatAssociative(out, [c], rest.value);
    }
  }
}
