/** Texts cut at a character, and put together again. */
module Strings {
  import opened Basics

  predicate Holds(s: string, c: char) {
    exists i :: 0 <= i < |s| && s[i] == c
  }

  predicate Lacks(s: string, c: char) {
    forall i :: 0 <= i < |s| ==> s[i] != c
  }

  /** Up to the first `c`, or everything. */
  function Before(s: string, c: char): string {
    if s == [] || s[0] == c then [] else [s[0]] + Before(s[1..], c)
  }

  /** What follows the first `c`, or nothing. */
  function After(s: string, c: char): string {
    if s == [] then [] else if s[0] == c then s[1..] else After(s[1..], c)
  }

  /** What follows the last `c`, or everything. */
  function AfterLast(s: string, c: char): string {
    if s == [] || s[|s| - 1] == c then [] else AfterLast(s[..|s| - 1], c) + [s[|s| - 1]]
  }

  /** Up to the last `c`, or nothing. */
  function BeforeLast(s: string, c: char): string {
    if s == [] then [] else if s[|s| - 1] == c then s[..|s| - 1] else BeforeLast(s[..|s| - 1], c)
  }

  lemma {:induction false} CutAt(a: string, c: char, rest: string)
    requires Lacks(a, c)
    ensures Before(a + [c] + rest, c) == a && After(a + [c] + rest, c) == rest
  {
    var s := a + [c] + rest;
    if a != [] {
      assert s[1..] == a[1..] + [c] + rest && s[0] == a[0];
      CutAt(a[1..], c, rest);
    } else {
      assert s[0] == c && s[1..] == rest;
    }
  }

  lemma NothingToCut(a: string, c: char)
    requires Lacks(a, c)
    ensures Before(a, c) == a && After(a, c) == "" && AfterLast(a, c) == a && BeforeLast(a, c) == "" && !Holds(a, c)
  {
    FirstNotThere(a, c);
    LastNotThere(a, c);
  }

  lemma {:induction false} FirstNotThere(a: string, c: char)
    requires Lacks(a, c)
    ensures Before(a, c) == a && After(a, c) == ""
  {
    if a != [] {
      FirstNotThere(a[1..], c);
      assert [a[0]] + a[1..] == a;
    }
  }

  lemma {:induction false} LastNotThere(a: string, c: char)
    requires Lacks(a, c)
    ensures AfterLast(a, c) == a && BeforeLast(a, c) == ""
  {
    if a != [] {
      LastNotThere(a[..|a| - 1], c);
      assert a[..|a| - 1] + [a[|a| - 1]] == a;
    }
  }

  // ---------------------------------------------------------------- split and join

  function Split(s: string, c: char): (parts: seq<string>)
    ensures parts != []
  {
    if s == [] then [[]]
    else
      var rest := Split(s[1..], c);
      if s[0] == c then [[]] + rest else [[s[0]] + rest[0]] + rest[1..]
  }

  function Join(parts: seq<string>, c: char): string {
    if parts == [] then []
    else if |parts| == 1 then parts[0]
    else parts[0] + [c] + Join(parts[1..], c)
  }

  lemma {:induction false} SplitFirst(a: string, c: char, rest: string)
    requires Lacks(a, c)
    ensures Split(a + [c] + rest, c) == [a] + Split(rest, c)
  {
    var s := a + [c] + rest;
    if a == [] {
      assert s == [c] + rest && s[1..] == rest;
    } else {
      assert s[1..] == a[1..] + [c] + rest && s[0] == a[0];
      SplitFirst(a[1..], c, rest);
      assert [a[0]] + a[1..] == a;
    }
  }

  lemma {:induction false} SplitOne(a: string, c: char)
    requires Lacks(a, c)
    ensures Split(a, c) == [a]
  {
    if a != [] {
      SplitOne(a[1..], c);
      assert [a[0]] + a[1..] == a;
    }
  }

  /** Splitting undoes joining. */
  lemma {:induction false} SplitJoin(parts: seq<string>, c: char)
    requires parts != [] && forall i :: 0 <= i < |parts| ==> Lacks(parts[i], c)
    ensures Split(Join(parts, c), c) == parts
  {
    if |parts| == 1 {
      SplitOne(parts[0], c);
    } else {
      SplitJoin(parts[1..], c);
      SplitFirst(parts[0], c, Join(parts[1..], c));
      assert [parts[0]] + parts[1..] == parts;
    }
  }

  /** Joining undoes splitting. */
  lemma {:induction false} JoinSplit(s: string, c: char)
    ensures Join(Split(s, c), c) == s && forall i :: 0 <= i < |Split(s, c)| ==> Lacks(Split(s, c)[i], c)
  {
    if s != [] {
      var rest := Split(s[1..], c);
      JoinSplit(s[1..], c);
      if s[0] == c {
        assert ([[]] + rest)[1..] == rest;
        assert [] + [c] + Join(rest, c) == s;
      } else {
        JoinHead(s[0], rest, c);
      }
    }
  }

  lemma JoinHead(x: char, parts: seq<string>, c: char)
    requires parts != []
    ensures Join([[x] + parts[0]] + parts[1..], c) == [x] + Join(parts, c)
  {
    var t := [[x] + parts[0]] + parts[1..];
    assert t[1..] == parts[1..];
    if |parts| > 1 {
      ConcatAssociative([x], parts[0], [c]);
      ConcatAssociative([x], parts[0] + [c], Join(parts[1..], c));
    }
  }

  lemma {:induction false} JoinAppend(parts: seq<string>, last: string, c: char)
    requires parts != []
    ensures Join(parts + [last], c) == Join(parts, c) + [c] + last
  {
    if |parts| > 1 {
      JoinAppend(parts[1..], last, c);
      assert (parts + [last])[1..] == parts[1..] + [last];
      ConcatAssociative(parts[0] + [c], Join(parts[1..], c), [c]);
      ConcatAssociative(parts[0] + [c], Join(parts[1..], c) + [c], last);
    } else {
      assert (parts + [last])[1..] == [last];
    }
  }
}
