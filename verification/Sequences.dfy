/** Sums and filters over sequences, and what a permutation leaves unchanged. */
module Sequences {
  function Sum<T>(s: seq<T>, w: T -> real): real {
    if s == [] then 0.0 else Sum(s[..|s| - 1], w) + w(s[|s| - 1])
  }

  function Filter<T>(s: seq<T>, keep: T -> bool): seq<T> {
    if s == [] then []
    else Filter(s[..|s| - 1], keep) + if keep(s[|s| - 1]) then [s[|s| - 1]] else []
  }

  lemma SumNothing<T>(w: T -> real)
    ensures Sum([], w) == 0.0
  {
  }

  lemma SumOne<T>(x: T, w: T -> real)
    ensures Sum([x], w) == w(x)
  {
    assert [x][..0] == [];
  }

  lemma SumLast<T>(s: seq<T>, x: T, w: T -> real)
    ensures Sum(s + [x], w) == Sum(s, w) + w(x)
  {
    assert (s + [x])[..|s|] == s;
  }

  lemma {:induction false} SumConcat<T>(a: seq<T>, b: seq<T>, w: T -> real)
    ensures Sum(a + b, w) == Sum(a, w) + Sum(b, w)
  {
    if b == [] {
      assert a + b == a;
    } else {
      var n := |b| - 1;
      assert (a + b)[..|a + b| - 1] == a + b[..n];
      SumConcat(a, b[..n], w);
    }
  }

  /** Takes `x` out of the middle. */
  lemma SumExtract<T>(a: seq<T>, x: T, b: seq<T>, w: T -> real)
    ensures Sum(a + [x] + b, w) == Sum(a + b, w) + w(x)
  {
    SumConcat(a + [x], b, w);
    SumConcat(a, [x], w);
    SumOne(x, w);
    SumConcat(a, b, w);
  }

  lemma Extract<T>(s: seq<T>, x: T) returns (a: seq<T>, b: seq<T>)
    requires x in s
    ensures s == a + [x] + b
    ensures multiset(a + b) == multiset(s) - multiset{x}
  {
    var i :| 0 <= i < |s| && s[i] == x;
    a, b := s[..i], s[i + 1..];
    assert s == a + [x] + b;
  }

  /** A sum depends only on which elements a sequence holds, not on their order. */
  lemma {:induction false} SumPermutation<T>(s: seq<T>, t: seq<T>, w: T -> real)
    requires multiset(s) == multiset(t)
    ensures Sum(s, w) == Sum(t, w)
    decreases |s|
  {
    if s == [] {
      assert |multiset(t)| == 0;
    } else {
      var x := s[|s| - 1];
      assert s == s[..|s| - 1] + [x];
      assert x in multiset(t);
      var a, b := Extract(t, x);
      SumPermutation(s[..|s| - 1], a + b, w);
      SumExtract(a, x, b, w);
    }
  }

  lemma SwapAdjacent<T>(a: seq<T>, x: T, y: T, b: seq<T>)
    ensures multiset(a + [x, y] + b) == multiset(a + [y, x] + b)
  {
  }

  lemma MoveBack<T>(a: seq<T>, b: seq<T>, c: seq<T>)
    ensures multiset(a + b + c) == multiset(a + c + b)
  {
  }

  lemma Regroup<T>(a: seq<T>, f: T, r: seq<T>, x: T, y: T)
    ensures multiset(a + [f, x] + (r + [y])) == multiset(a + ([f] + r) + [y, x])
  {
  }

  lemma RegroupSwapped<T>(a: seq<T>, f: T, r: seq<T>, x: T, y: T)
    ensures multiset(a + [f, x] + (r + [y])) == multiset(a + ([f] + r) + [x, y])
  {
  }

  lemma {:induction false} FilterMember<T>(s: seq<T>, keep: T -> bool)
    ensures forall x :: x in Filter(s, keep) <==> x in s && keep(x)
  {
    if s != [] {
      FilterMember(s[..|s| - 1], keep);
      assert s == s[..|s| - 1] + [s[|s| - 1]];
    }
  }

  lemma {:induction false} FilterConcat<T>(a: seq<T>, b: seq<T>, keep: T -> bool)
    ensures Filter(a + b, keep) == Filter(a, keep) + Filter(b, keep)
  {
    if b == [] {
      assert a + b == a;
    } else {
      var n := |b| - 1;
      assert (a + b)[..|a + b| - 1] == a + b[..n];
      FilterConcat(a, b[..n], keep);
    }
  }

  lemma FilterLast<T>(s: seq<T>, x: T, keep: T -> bool)
    ensures Filter(s + [x], keep) == Filter(s, keep) + if keep(x) then [x] else []
  {
    assert (s + [x])[..|s|] == s;
  }

  lemma {:induction false} FilterPermutation<T>(s: seq<T>, t: seq<T>, keep: T -> bool)
    requires multiset(s) == multiset(t)
    ensures multiset(Filter(s, keep)) == multiset(Filter(t, keep))
    decreases |s|
  {
    if s == [] {
      assert |multiset(t)| == 0;
    } else {
      hide Filter;
      var x := s[|s| - 1];
      assert s == s[..|s| - 1] + [x];
      assert x in multiset(t);
      var a, b := Extract(t, x);
      FilterPermutation(s[..|s| - 1], a + b, keep);
      FilterExtract(a, x, b, keep);
      FilterExtract(s[..|s| - 1], x, [], keep);
      assert s[..|s| - 1] + [] == s[..|s| - 1] && s + [] == s;
    }
  }

  lemma FilterExtract<T>(a: seq<T>, x: T, b: seq<T>, keep: T -> bool)
    ensures multiset(Filter(a + [x] + b, keep)) ==
            multiset(Filter(a + b, keep)) + if keep(x) then multiset{x} else multiset{}
  {
    hide Filter;
    FilterConcat(a + [x], b, keep);
    FilterLast(a, x, keep);
    FilterConcat(a, b, keep);
  }

  lemma {:induction false} FilterTwice<T(!new)>(s: seq<T>, p: T -> bool, q: T -> bool, r: T -> bool)
    requires forall x :: r(x) <==> p(x) && q(x)
    ensures Filter(Filter(s, p), q) == Filter(s, r)
  {
    if s != [] {
      var n := |s| - 1;
      FilterTwice(s[..n], p, q, r);
      FilterConcat(Filter(s[..n], p), if p(s[n]) then [s[n]] else [], q);
      assert [s[n]][..0] == [];
    }
  }

  /** Splitting what a filter keeps between two disjoint filters splits its sum. */
  lemma {:induction false} FilterSum<T>(s: seq<T>, p: T -> bool, q: T -> bool, r: T -> bool, w: T -> real)
    requires forall x | x in s :: (r(x) <==> p(x) || q(x)) && !(p(x) && q(x))
    ensures Sum(Filter(s, r), w) == Sum(Filter(s, p), w) + Sum(Filter(s, q), w)
  {
    if s != [] {
      var n := |s| - 1;
      FilterSum(s[..n], p, q, r, w);
      FilterSumStep(s, p, w);
      FilterSumStep(s, q, w);
      FilterSumStep(s, r, w);
    }
  }

  lemma FilterSumStep<T>(s: seq<T>, p: T -> bool, w: T -> real)
    requires s != []
    ensures Sum(Filter(s, p), w) == Sum(Filter(s[..|s| - 1], p), w) + if p(s[|s| - 1]) then w(s[|s| - 1]) else 0.0
  {
    var x := s[|s| - 1];
    SumConcat(Filter(s[..|s| - 1], p), if p(x) then [x] else [], w);
    SumOne(x, w);
  }

  lemma {:induction false} FilterAll<T>(s: seq<T>, keep: T -> bool)
    requires forall x | x in s :: keep(x)
    ensures Filter(s, keep) == s
  {
    if s != [] {
      var n := |s| - 1;
      assert s == s[..n] + [s[n]];
      FilterAll(s[..n], keep);
      hide Filter;
      FilterLast(s[..n], s[n], keep);
    }
  }

  lemma {:induction false} FilterNone<T>(s: seq<T>, keep: T -> bool)
    requires forall x | x in s :: !keep(x)
    ensures Filter(s, keep) == []
  {
    if s != [] {
      FilterNone(s[..|s| - 1], keep);
    }
  }

  lemma FilterParts<T>(a: seq<T>, b: seq<T>, p: T -> bool, q: T -> bool)
    requires forall x | x in a :: p(x) && !q(x)
    requires forall x | x in b :: q(x) && !p(x)
    ensures Filter(a + b, p) == a && Filter(a + b, q) == b
  {
    FilterConcat(a, b, p);
    FilterConcat(a, b, q);
    FilterAll(a, p);
    FilterAll(b, q);
    FilterNone(a, q);
    FilterNone(b, p);
  }

  /** A filter and its complement split a sequence between them. */
  lemma {:induction false} FilterPartition<T>(s: seq<T>, p: T -> bool, q: T -> bool)
    requires forall x | x in s :: p(x) != q(x)
    ensures multiset(Filter(s, p) + Filter(s, q)) == multiset(s)
  {
    if s != [] {
      var a, x := s[..|s| - 1], s[|s| - 1];
      assert s == a + [x];
      FilterPartition(a, p, q);
      assert p(x) != q(x);
    }
  }

  lemma {:induction false} FilterEqual<T>(s: seq<T>, p: T -> bool, q: T -> bool)
    requires forall x | x in s :: p(x) == q(x)
    ensures Filter(s, p) == Filter(s, q)
  {
    if s != [] {
      FilterEqual(s[..|s| - 1], p, q);
    }
  }
}
