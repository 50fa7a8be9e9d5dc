/** Finite sets of integers, listed in rising order. */
module RisingOrder {

  /** The elements of a finite set of integers in rising order. */
  ghost function Rising(s: set<int>): (r: seq<int>)
    ensures forall j, k :: 0 <= j < k < |r| ==> r[j] < r[k]
    ensures forall x :: x in s <==> x in r
  {
    if exists a :: a in s then
      var a :| a in s;
      SmallestExists(s, a);
      var m :| m in s && forall x :: x in s ==> m <= x;
      [m] + Rising(s - {m})
    else []
  }

  lemma {:induction false} SmallestExists(s: set<int>, a: int)
    requires a in s
    ensures exists m :: m in s && forall x :: x in s ==> m <= x
  {
    if forall x :: x in s ==> a <= x {
      assert a in s;
    } else {
      var b :| b in s && b < a;
      SmallestExists(s - {a}, b);
      var m :| m in s - {a} && forall x :: x in s - {a} ==> m <= x;
      assert m in s && m <= b;
      forall x | x in s ensures m <= x {
        assert x == a || x in s - {a};
      }
    }
  }

  ghost predicate IsRising(s: seq<int>) {
    forall j, k :: 0 <= j < k < |s| ==> s[j] < s[k]
  }

  ghost predicate SameElements(s: seq<int>, r: seq<int>) {
    forall x :: x in s <==> x in r
  }

  lemma LastIsGreatest(s: seq<int>, x: int)
    requires IsRising(s) && x in s
    ensures s[|s| - 1] in s && x <= s[|s| - 1]
    ensures x in s[..|s| - 1] <==> x < s[|s| - 1]
  {
    var k :| 0 <= k < |s| && s[k] == x;
    assert s == s[..|s| - 1] + [s[|s| - 1]];
  }

  lemma DropGreatest(s: seq<int>, r: seq<int>)
    requires IsRising(s) && IsRising(r) && SameElements(s, r) && s != [] && r != []
    ensures s[|s| - 1] == r[|r| - 1] && SameElements(s[..|s| - 1], r[..|r| - 1])
  {
    LastIsGreatest(s, s[|s| - 1]);
    LastIsGreatest(r, r[|r| - 1]);
    LastIsGreatest(s, r[|r| - 1]);
    LastIsGreatest(r, s[|s| - 1]);
    var s', r' := s[..|s| - 1], r[..|r| - 1];
    forall x ensures x in s' <==> x in r' {
      if x in s {
        LastIsGreatest(s, x);
        LastIsGreatest(r, x);
      }
    }
  }

  lemma {:induction false} RisingUnique(s: seq<int>, r: seq<int>)
    requires IsRising(s) && IsRising(r) && SameElements(s, r)
    ensures s == r
    decreases |s|
  {
    assert (s != [] ==> s[0] in s) && (r != [] ==> r[0] in r);
    if s != [] {
      DropGreatest(s, r);
      RisingUnique(s[..|s| - 1], r[..|r| - 1]);
      assert s == s[..|s| - 1] + [s[|s| - 1]] && r == r[..|r| - 1] + [r[|r| - 1]];
    }
  }
}
