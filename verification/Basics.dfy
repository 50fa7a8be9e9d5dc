/** Small shared vocabulary: optional values, decimal numerals and their injectivity. */
module Basics {

  datatype Option<+T> = None | Some(value: T)

  predicate IsDigit(c: char) {
    '0' <= c <= '9'
  }

  function DigitChar(d: nat): (c: char)
    requires d < 10
    ensures IsDigit(c) && c as int == '0' as int + d
  {
    ('0' as int + d) as char
  }

  /** The decimal numeral of a natural number, without leading zeros. */
  function Decimal(n: nat): (s: string)
    ensures s != [] && forall i :: 0 <= i < |s| ==> IsDigit(s[i])
  {
    if n < 10 then [DigitChar(n)] else Decimal(n / 10) + [DigitChar(n % 10)]
  }

  /** The value of a string of digits, read left to right; the empty string is zero. */
  function Numeral(s: string): nat
    requires forall i :: 0 <= i < |s| ==> IsDigit(s[i])
  {
    if s == [] then 0
    else
      assert IsDigit(s[|s| - 1]);
      Numeral(s[..|s| - 1]) * 10 + (s[|s| - 1] as int - '0' as int)
  }

  lemma {:induction false} NumeralOfDecimal(n: nat)
    ensures Numeral(Decimal(n)) == n
  {
    if n >= 10 {
      NumeralOfDecimal(n / 10);
      assert Decimal(n)[..|Decimal(n)| - 1] == Decimal(n / 10);
    }
  }

  function Zeros(n: nat): (s: string)
    ensures |s| == n && forall i :: 0 <= i < n ==> s[i] == '0'
  {
    seq(n, _ => '0')
  }

  /** `s` widened on the left with zeros to at least `width` characters. */
  function ZeroPadded(s: string, width: nat): string {
    Zeros(if |s| < width then width - |s| else 0) + s
  }

  lemma {:induction false} LeadingZerosKeepValue(k: nat, s: string)
    requires forall i :: 0 <= i < |s| ==> IsDigit(s[i])
    ensures Numeral(Zeros(k) + s) == Numeral(s)
    decreases |s|, k
  {
    if s != [] {
      assert (Zeros(k) + s)[..k + |s| - 1] == Zeros(k) + s[..|s| - 1];
      LeadingZerosKeepValue(k, s[..|s| - 1]);
    } else if k > 0 {
      assert (Zeros(k) + s)[..k - 1] == Zeros(k - 1) + s;
      LeadingZerosKeepValue(k - 1, s);
    }
  }

  /** Python's `f"{i:05d}"`: the sign counts towards the width. */
  function FiveDigits(i: int): string {
    if i < 0 then "-" + ZeroPadded(Decimal(-i), 4) else ZeroPadded(Decimal(i), 5)
  }

  lemma FiveDigitsInjective(i: int, j: int)
    requires FiveDigits(i) == FiveDigits(j)
    ensures i == j
  {
    assert i < 0 <==> FiveDigits(i)[0] == '-';
    assert j < 0 <==> FiveDigits(j)[0] == '-';
    if i < 0 {
      var p, q := ZeroPadded(Decimal(-i), 4), ZeroPadded(Decimal(-j), 4);
      assert FiveDigits(i)[1..] == p && FiveDigits(j)[1..] == q;
      PaddedValue(-i, 4);
      PaddedValue(-j, 4);
    } else {
      PaddedValue(i, 5);
      PaddedValue(j, 5);
    }
  }

  lemma PaddedValue(n: nat, width: nat)
    ensures forall k :: 0 <= k < |ZeroPadded(Decimal(n), width)| ==> IsDigit(ZeroPadded(Decimal(n), width)[k])
    ensures Numeral(ZeroPadded(Decimal(n), width)) == n
  {
    NumeralOfDecimal(n);
    var d := Decimal(n);
    LeadingZerosKeepValue(if |d| < width then width - |d| else 0, d);
  }

  lemma DecimalInjective(m: nat, n: nat)
    requires Decimal(m) == Decimal(n)
    ensures m == n
  {
    NumeralOfDecimal(m);
    NumeralOfDecimal(n);
  }

  lemma ConcatAssociative<T>(a: seq<T>, b: seq<T>, c: seq<T>)
    ensures a + b + c == a + (b + c)
  {
  }

  lemma SuffixOf<T>(a: seq<T>, b: seq<T>)
    ensures (a + b)[|a|..] == b && (a + b)[..|a|] == a
  {
  }

  lemma SameSet<T>(a: set<T>, b: set<T>)
    requires forall x :: x in a <==> x in b
    ensures a == b
  {
  }

  lemma Subset<T>(a: set<T>, b: set<T>)
    requires a <= b
    ensures |a| <= |b|
  {
    assert b == a + (b - a);
  }

  /** A loop over items whose body may fail. */
  function Fold<S, T>(body: (S, T) -> Option<S>, start: S, items: seq<T>): Option<S> {
    if items == [] then Some(start)
    else
      var before := Fold(body, start, items[..|items| - 1]);
      if before.None? then None else body(before.value, items[|items| - 1])
  }

  lemma FoldMore<S, T>(body: (S, T) -> Option<S>, start: S, items: seq<T>, item: T)
    ensures Fold(body, start, items + [item])
         == var before := Fold(body, start, items); if before.None? then None else body(before.value, item)
  {
    assert (items + [item])[..|items|] == items;
  }

  /** A body that appends every item just collects them. */
  lemma {:induction false} FoldCollects<T>(body: (seq<T>, T) -> Option<seq<T>>, start: seq<T>, items: seq<T>)
    requires forall i, stack :: 0 <= i < |items| ==> body(stack, items[i]) == Some(stack + [items[i]])
    ensures Fold(body, start, items) == Some(start + items)
  {
    if items == [] {
      assert start + items == start;
    } else {
      var n := |items| - 1;
      FoldCollects(body, start, items[..n]);
      assert body(start + items[..n], items[n]) == Some(start + items[..n] + [items[n]]);
      assert start + items[..n] + [items[n]] == start + items;
    }
  }
}
