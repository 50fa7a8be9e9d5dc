/** Counting what a dictionary of lists holds. */
module Tallies {
  import opened Basics

  /** Where there is an element: key and position. */
  function Positions<V>(m: map<string, seq<V>>): set<(string, int)> {
    set k, i | k in m && 0 <= i < |m[k]| :: (k, i)
  }

  /** `sum(len(items) for items in m.values())`. */
  function Total<V>(m: map<string, seq<V>>): nat {
    |Positions(m)|
  }

  function FirstPositions(k: string, n: nat): set<(string, int)> {
    set i | 0 <= i < n :: (k, i)
  }

  lemma {:induction false} FirstPositionsSize(k: string, n: nat)
    ensures |FirstPositions(k, n)| == n
  {
    if n > 0 {
      FirstPositionsSize(k, n - 1);
      assert FirstPositions(k, n) == FirstPositions(k, n - 1) + {(k, n - 1)};
    }
  }

  lemma ListWithinTotal<V>(m: map<string, seq<V>>, k: string)
    requires k in m
    ensures |m[k]| <= Total(m)
  {
    FirstPositionsSize(k, |m[k]|);
    Subset(FirstPositions(k, |m[k]|), Positions(m));
  }

  lemma TotalWith<V>(m: map<string, seq<V>>, k: string, s: seq<V>)
    requires k !in m
    ensures Total(m[k := s]) == Total(m) + |s|
  {
    FirstPositionsSize(k, |s|);
    assert Positions(m[k := s]) == Positions(m) + FirstPositions(k, |s|);
  }

  lemma TotalWithout<V>(m: map<string, seq<V>>, k: string)
    requires k in m
    ensures Total(m - {k}) + |m[k]| == Total(m)
  {
    TotalWith(m - {k}, k, m[k]);
    assert (m - {k})[k := m[k]] == m;
  }

  /** Replacing one list changes the total by the difference of the lengths. */
  lemma TotalAfter<V>(m: map<string, seq<V>>, k: string, s: seq<V>)
    ensures Total(m[k := s]) + (if k in m then |m[k]| else 0) == Total(m) + |s|
  {
    if k in m {
      TotalWithout(m, k);
      TotalWith(m - {k}, k, s);
      assert (m - {k})[k := s] == m[k := s];
    } else {
      TotalWith(m, k, s);
    }
  }

  method Count<V>(m: map<string, seq<V>>) returns (n: nat)
    ensures n == Total(m)
  {
    n := 0;
    var todo := m.Keys;
    ghost var counted: set<(string, int)> := {};
    while todo != {}
      invariant todo <= m.Keys && n == |counted|
      invariant forall x :: x in counted <==> x in Positions(m) && x.0 !in todo
      decreases todo
    {
      var k :| k in todo;
      FirstPositionsSize(k, |m[k]|);
      assert counted !! FirstPositions(k, |m[k]|);
      n := n + |m[k]|;
      counted := counted + FirstPositions(k, |m[k]|);
      todo := todo - {k};
    }
    SameSet(counted, Positions(m));
  }
}
