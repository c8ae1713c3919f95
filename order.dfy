/**
 * Ordering used by `sorted(...)` on strings (code-point lexicographic order),
 * the "sorted, duplicate-free" lists the catalogue returns, and the median
 * that the group-by aggregation computes.
 */
module Order {

  /** Python's `a < b` on `str`: lexicographic by code point, a proper prefix first. */
  predicate StrLt(a: string, b: string)
    decreases |a|
  {
    if |a| == 0 then |b| > 0
    else if |b| == 0 then false
    else if a[0] != b[0] then a[0] < b[0]
    else StrLt(a[1..], b[1..])
  }

  lemma {:induction false} StrLtIrreflexive(a: string)
    ensures !StrLt(a, a)
  {
    if |a| > 0 {
      StrLtIrreflexive(a[1..]);
    }
  }

  lemma {:induction false} StrLtTransitive(a: string, b: string, c: string)
    requires StrLt(a, b) && StrLt(b, c)
    ensures StrLt(a, c)
  {
    if |a| > 0 && a[0] == b[0] && b[0] == c[0] {
      StrLtTransitive(a[1..], b[1..], c[1..]);
    }
  }

  lemma {:induction false} StrLtTotal(a: string, b: string)
    requires a != b
    ensures StrLt(a, b) || StrLt(b, a)
  {
    if |a| > 0 && |b| > 0 && a[0] == b[0] {
      assert a == [a[0]] + a[1..] && b == [b[0]] + b[1..];
      StrLtTotal(a[1..], b[1..]);
    }
  }

  /** Ascending with no element twice. */
  predicate StrictlySorted(s: seq<string>)
  {
    forall i, j :: 0 <= i < j < |s| ==> StrLt(s[i], s[j])
  }

  /** Adds `x` to a strictly sorted list, unless it is already there. */
  function InsertUnique(x: string, s: seq<string>): (r: seq<string>)
    requires StrictlySorted(s)
    ensures StrictlySorted(r)
    ensures forall y :: y in r <==> y == x || y in s
  {
    if s == [] then [x]
    else if x == s[0] then s
    else if StrLt(x, s[0]) then
      assert forall j :: 0 <= j < |s| ==> StrLt(x, s[j]) by {
        forall j | 0 <= j < |s| ensures StrLt(x, s[j]) {
          if j > 0 { StrLtTransitive(x, s[0], s[j]); }
        }
      }
      [x] + s
    else
      StrLtTotal(x, s[0]);
      var rest := InsertUnique(x, s[1..]);
      assert forall y :: y in rest ==> StrLt(s[0], y);
      [s[0]] + rest
  }

  /** `sorted(set(xs))`: the distinct elements of `xs` in ascending order. */
  function SortedUnique(xs: seq<string>): (r: seq<string>)
    ensures StrictlySorted(r)
    ensures forall y :: y in r <==> y in xs
  {
    if xs == [] then [] else InsertUnique(xs[0], SortedUnique(xs[1..]))
  }

  /** A set has exactly one strictly sorted listing. */
  lemma {:induction false} StrictlySortedUnique(a: seq<string>, b: seq<string>)
    requires StrictlySorted(a) && StrictlySorted(b)
    requires forall y :: y in a <==> y in b
    ensures a == b
  {
    if a != [] { assert a[0] in a; }
    if b != [] { assert b[0] in b; }
    if a != [] && b != [] {
      if a[0] != b[0] {
        assert b[0] in a && a[0] in b;
        var i :| 0 <= i < |a| && a[i] == b[0];
        var j :| 0 <= j < |b| && b[j] == a[0];
        assert StrLt(a[0], b[0]) by {
          assert i > 0;
        }
        assert StrLt(b[0], a[0]) by {
          assert j > 0;
        }
        StrLtTransitive(a[0], b[0], a[0]);
        StrLtIrreflexive(a[0]);
      }
      forall y ensures y in a[1..] <==> y in b[1..] {
        if y in a[1..] {
          var i :| 1 <= i < |a| && a[i] == y;
          assert StrLt(a[0], a[i]);
          if y == a[0] { StrLtIrreflexive(y); }
          assert y in b;
          var k :| 0 <= k < |b| && b[k] == y;
          assert k != 0;
        }
        if y in b[1..] {
          var j :| 1 <= j < |b| && b[j] == y;
          assert StrLt(b[0], b[j]);
          if y == b[0] { StrLtIrreflexive(y); }
          assert y in a;
          var k :| 0 <= k < |a| && a[k] == y;
          assert k != 0;
        }
      }
      StrictlySortedUnique(a[1..], b[1..]);
    }
  }

  /** Non-decreasing. */
  predicate Ascending(s: seq<real>)
  {
    forall i, j :: 0 <= i < j < |s| ==> s[i] <= s[j]
  }

  function InsertAscending(x: real, s: seq<real>): (r: seq<real>)
    requires Ascending(s)
    ensures Ascending(r)
    ensures multiset(r) == multiset(s) + multiset{x}
  {
    if s == [] || x <= s[0] then [x] + s
    else
      var rest := InsertAscending(x, s[1..]);
      InsertAscendingStep(x, s, rest);
      [s[0]] + rest
  }

  lemma InsertAscendingStep(x: real, s: seq<real>, rest: seq<real>)
    requires s != [] && s[0] < x && Ascending(s) && Ascending(rest)
    requires multiset(rest) == multiset(s[1..]) + multiset{x}
    ensures Ascending([s[0]] + rest)
    ensures multiset([s[0]] + rest) == multiset(s) + multiset{x}
  {
    assert s == [s[0]] + s[1..];
    forall k | 0 <= k < |rest| ensures s[0] <= rest[k] {
      assert rest[k] in multiset(rest);
      if rest[k] != x {
        assert rest[k] in multiset(s[1..]);
        assert rest[k] in s[1..];
      }
    }
  }

  /** The values of `xs` in ascending order. */
  function SortAscending(xs: seq<real>): (r: seq<real>)
    ensures Ascending(r)
    ensures multiset(r) == multiset(xs)
  {
    if xs == [] then []
    else
      assert xs == [xs[0]] + xs[1..];
      InsertAscending(xs[0], SortAscending(xs[1..]))
  }

  /** The head of an ascending list is below every value it holds. */
  lemma AscendingHeadIsLeast(a: seq<real>, y: real)
    requires Ascending(a) && y in multiset(a)
    ensures a[0] <= y
  {
    var k :| 0 <= k < |a| && a[k] == y;
  }

  /** Removing equal heads from lists with equal multisets leaves equal multisets. */
  lemma TailsSameValues(a: seq<real>, b: seq<real>)
    requires a != [] && b != [] && a[0] == b[0]
    requires multiset(a) == multiset(b)
    ensures multiset(a[1..]) == multiset(b[1..])
  {
    assert a == [a[0]] + a[1..];
    assert b == [b[0]] + b[1..];
    assert multiset(a[1..]) == multiset(a) - multiset{a[0]};
    assert multiset(b[1..]) == multiset(b) - multiset{b[0]};
  }

  /** Two non-empty ascending lists of the same values start with the same value. */
  lemma AscendingHeadsEqual(a: seq<real>, b: seq<real>)
    requires Ascending(a) && Ascending(b) && a != [] && b != []
    requires multiset(a) == multiset(b)
    ensures a[0] == b[0]
  {
    assert a[0] in multiset(a) && b[0] in multiset(b);
    AscendingHeadIsLeast(a, b[0]);
    AscendingHeadIsLeast(b, a[0]);
  }

  /** Sorting is determined by the multiset of values: two ascending lists of the same values are equal. */
  lemma {:induction false} AscendingUnique(a: seq<real>, b: seq<real>)
    requires Ascending(a) && Ascending(b)
    requires multiset(a) == multiset(b)
    ensures a == b
  {
    assert |a| == |b| by { assert |multiset(a)| == |multiset(b)|; }
    if a != [] {
      AscendingHeadsEqual(a, b);
      TailsSameValues(a, b);
      assert |a[1..]| == |b[1..]|;
      AscendingUnique(a[1..], b[1..]);
      assert a == [a[0]] + a[1..] && b == [b[0]] + b[1..];
    }
  }

  /** The middle of an ascending list: its middle value, or the mean of its two middle values. */
  function Middle(s: seq<real>): real
    requires |s| > 0
  {
    (s[(|s| - 1) / 2] + s[|s| / 2]) / 2.0
  }

  /** Pandas' `median`: the middle value, or the mean of the two middle values when the count is even. */
  function Median(xs: seq<real>): (m: real)
    requires |xs| > 0
    ensures exists i :: 0 <= i < |xs| && xs[i] <= m
    ensures exists j :: 0 <= j < |xs| && m <= xs[j]
  {
    var s := SortAscending(xs);
    assert |s| == |xs| by { assert |multiset(s)| == |multiset(xs)|; }
    MiddleBetween(s, xs);
    Middle(s)
  }

  lemma MiddleBetween(s: seq<real>, xs: seq<real>)
    requires |s| > 0 && multiset(s) == multiset(xs)
    ensures exists i :: 0 <= i < |xs| && xs[i] <= Middle(s)
    ensures exists j :: 0 <= j < |xs| && Middle(s) <= xs[j]
  {
    var lo, hi := s[(|s| - 1) / 2], s[|s| / 2];
    assert lo in multiset(s) && hi in multiset(s);
    var i :| 0 <= i < |xs| && xs[i] == lo;
    var j :| 0 <= j < |xs| && xs[j] == hi;
    if lo <= hi {
      assert xs[i] <= Middle(s) <= xs[j];
    } else {
      assert xs[j] <= Middle(s) <= xs[i];
    }
  }

  /** The median depends only on the values, not on the order of the rows. */
  lemma MedianOfPermutation(xs: seq<real>, ys: seq<real>)
    requires |xs| > 0
    requires multiset(xs) == multiset(ys)
    ensures |ys| > 0 && Median(xs) == Median(ys)
  {
    assert |multiset(xs)| == |multiset(ys)|;
    AscendingUnique(SortAscending(xs), SortAscending(ys));
  }

  /** For values already in ascending order the median is read off the middle. */
  lemma MedianOfAscending(xs: seq<real>)
    requires |xs| > 0 && Ascending(xs)
    ensures Median(xs) == Middle(xs)
  {
    AscendingUnique(SortAscending(xs), xs);
  }

  /** A group whose values are all equal has that value as its median. */
  lemma MedianOfConstant(xs: seq<real>, c: real)
    requires |xs| > 0
    requires forall i :: 0 <= i < |xs| ==> xs[i] == c
    ensures Median(xs) == c
  {
  }

  /** The median of two values is their mean, whichever comes first. */
  lemma MedianOfTwo(xs: seq<real>)
    requires |xs| == 2
    ensures Median(xs) == (xs[0] + xs[1]) / 2.0
  {
    if xs[0] <= xs[1] {
      MedianOfAscending(xs);
    } else {
      var ys := [xs[1], xs[0]];
      assert multiset(xs) == multiset(ys) by {
        assert xs == [xs[0]] + [xs[1]];
      }
      MedianOfAscending(ys);
      MedianOfPermutation(xs, ys);
    }
  }
}
