/** Sequence folds shared by every aggregation of the application:
    `Array.prototype.filter`, `reduce` sums, counts and the stable
    `Array.prototype.sort` (ES2019 requires it to be stable), stated once
    with the facts the views rely on. */
module Collections {

  /** `r` is `s` with some elements dropped and the rest in their order. */
  predicate Subseq<T(==)>(r: seq<T>, s: seq<T>)
    decreases |s|
  {
    if |r| == 0 then true
    else if |s| == 0 then false
    else if r[0] == s[0] then Subseq(r[1..], s[1..])
    else Subseq(r, s[1..])
  }

  lemma SubseqCons<T>(x: T, r: seq<T>, s: seq<T>)
    requires Subseq(r, s)
    ensures Subseq(r, [x] + s)
    decreases |s|, 1
  {
    var xs := [x] + s;
    assert xs[1..] == s;
    if |r| > 0 && r[0] == x {
      SubseqTail(r, s);
    }
  }

  lemma SubseqTail<T>(r: seq<T>, s: seq<T>)
    requires |r| > 0 && Subseq(r, s)
    ensures Subseq(r[1..], s)
    decreases |s|, 0
  {
    if r[0] != s[0] {
      SubseqTail(r, s[1..]);
      SubseqCons(s[0], r[1..], s[1..]);
      assert [s[0]] + s[1..] == s;
    } else {
      SubseqCons(s[0], r[1..], s[1..]);
      assert [s[0]] + s[1..] == s;
    }
  }

  /** `Array.prototype.filter`. */
  function Filter<T>(s: seq<T>, p: T -> bool): (r: seq<T>)
    ensures |r| <= |s|
    ensures forall i :: 0 <= i < |r| ==> r[i] in s && p(r[i])
    ensures forall i :: 0 <= i < |s| && p(s[i]) ==> s[i] in r
    ensures |r| == Count(s, p)
  {
    if |s| == 0 then []
    else if p(s[0]) then [s[0]] + Filter(s[1..], p)
    else Filter(s[1..], p)
  }

  lemma {:induction false} FilterIsSubseq<T>(s: seq<T>, p: T -> bool)
    ensures Subseq(Filter(s, p), s)
  {
    if |s| > 0 {
      FilterIsSubseq(s[1..], p);
      var r := Filter(s[1..], p);
      if p(s[0]) {
        assert ([s[0]] + r)[1..] == r;
      } else {
        SubseqCons(s[0], r, s[1..]);
        assert [s[0]] + s[1..] == s;
      }
    }
  }

  lemma {:induction false} FilterAppend<T>(a: seq<T>, b: seq<T>, p: T -> bool)
    ensures Filter(a + b, p) == Filter(a, p) + Filter(b, p)
  {
    if |a| == 0 {
      assert a + b == b;
    } else {
      assert (a + b)[0] == a[0];
      assert (a + b)[1..] == a[1..] + b;
      FilterAppend(a[1..], b, p);
    }
  }

  lemma {:induction false} FilterAll<T>(s: seq<T>, p: T -> bool)
    requires forall i :: 0 <= i < |s| ==> p(s[i])
    ensures Filter(s, p) == s
  {
    if |s| > 0 {
      FilterAll(s[1..], p);
      assert [s[0]] + s[1..] == s;
    }
  }

  /** Counts the elements satisfying `p`. */
  function Count<T>(s: seq<T>, p: T -> bool): (n: nat)
    ensures n <= |s|
  {
    if |s| == 0 then 0
    else (if p(s[0]) then 1 else 0) + Count(s[1..], p)
  }

  lemma {:induction false} CountIsFilterLength<T>(s: seq<T>, p: T -> bool)
    ensures Count(s, p) == |Filter(s, p)|
  {
    if |s| > 0 {
      CountIsFilterLength(s[1..], p);
    }
  }

  lemma {:induction false} CountAppend<T>(a: seq<T>, b: seq<T>, p: T -> bool)
    ensures Count(a + b, p) == Count(a, p) + Count(b, p)
  {
    FilterAppend(a, b, p);
    CountIsFilterLength(a + b, p);
    CountIsFilterLength(a, p);
    CountIsFilterLength(b, p);
  }

  /** Elements satisfying `p` and elements failing it partition `s`. */
  lemma {:induction false} CountComplement<T>(s: seq<T>, p: T -> bool)
    ensures Count(s, p) + Count(s, x => !p(x)) == |s|
  {
    if |s| > 0 {
      CountComplement(s[1..], p);
    }
  }

  lemma {:induction false} CountPositive<T>(s: seq<T>, p: T -> bool, i: nat)
    requires i < |s| && p(s[i])
    ensures Count(s, p) > 0
  {
    if i > 0 {
      CountPositive(s[1..], p, i - 1);
    }
  }

  lemma {:induction false} CountZero<T>(s: seq<T>, p: T -> bool)
    requires Count(s, p) == 0
    ensures forall i :: 0 <= i < |s| ==> !p(s[i])
  {
    forall i | 0 <= i < |s|
      ensures !p(s[i])
    {
      if p(s[i]) {
        CountPositive(s, p, i);
      }
    }
  }

  lemma {:induction false} CountNone<T>(s: seq<T>, p: T -> bool)
    requires forall i :: 0 <= i < |s| ==> !p(s[i])
    ensures Count(s, p) == 0
  {
    if |s| > 0 {
      CountNone(s[1..], p);
    }
  }

  /** `s.reduce((acc, x) => acc + f(x), 0)` over exact reals. */
  function SumOf<T>(s: seq<T>, f: T -> real): real
  {
    if |s| == 0 then 0.0 else f(s[0]) + SumOf(s[1..], f)
  }

  lemma {:induction false} SumAppend<T>(a: seq<T>, b: seq<T>, f: T -> real)
    ensures SumOf(a + b, f) == SumOf(a, f) + SumOf(b, f)
  {
    if |a| == 0 {
      assert a + b == b;
    } else {
      assert (a + b)[0] == a[0];
      assert (a + b)[1..] == a[1..] + b;
      SumAppend(a[1..], b, f);
    }
  }

  /** Taking one term out of a sum. */
  lemma SumRemove<T>(b: seq<T>, i: int, f: T -> real)
    requires 0 <= i < |b|
    ensures SumOf(b, f) == f(b[i]) + SumOf(b[..i] + b[i + 1..], f)
  {
    assert b == b[..i] + ([b[i]] + b[i + 1..]);
    SumAppend(b[..i], [b[i]] + b[i + 1..], f);
    assert ([b[i]] + b[i + 1..])[1..] == b[i + 1..];
    SumAppend(b[..i], b[i + 1..], f);
  }

  /** A sum does not depend on the order of its terms. */
  lemma {:induction false} SumPermutation<T>(a: seq<T>, b: seq<T>, f: T -> real)
    requires multiset(a) == multiset(b)
    ensures SumOf(a, f) == SumOf(b, f)
    decreases |a|
  {
    if |a| == 0 {
      assert |b| == |multiset(b)| == 0;
    } else {
      assert a[0] in multiset(b);
      var i :| 0 <= i < |b| && b[i] == a[0];
      var rest := b[..i] + b[i + 1..];
      MultisetRemove(b, i);
      assert a == [a[0]] + a[1..];
      assert multiset(a[1..]) == multiset(a) - multiset{a[0]};
      SumPermutation(a[1..], rest, f);
      SumRemove(b, i, f);
    }
  }

  lemma MultisetRemove<T>(b: seq<T>, i: int)
    requires 0 <= i < |b|
    ensures multiset(b[..i] + b[i + 1..]) == multiset(b) - multiset{b[i]}
  {
    assert b == b[..i] + [b[i]] + b[i + 1..];
  }

  /** Splitting a sum by a predicate: the kept part and the dropped part add up. */
  lemma {:induction false} SumFilterSplit<T>(s: seq<T>, p: T -> bool, f: T -> real)
    ensures SumOf(s, f) == SumOf(Filter(s, p), f) + SumOf(Filter(s, x => !p(x)), f)
  {
    if |s| > 0 {
      SumFilterSplit(s[1..], p, f);
    }
  }

  /** `f` where `p` holds and 0 elsewhere. */
  function Mask<T>(p: T -> bool, f: T -> real): T -> real {
    x => if p(x) then f(x) else 0.0
  }

  /** Summing over the kept elements is summing the masked terms over all. */
  lemma {:induction false} SumFilterMasked<T>(s: seq<T>, p: T -> bool, f: T -> real)
    ensures SumOf(Filter(s, p), f) == SumOf(s, Mask(p, f))
  {
    if |s| > 0 {
      SumFilterMasked(s[1..], p, f);
    }
  }

  /** Filters that agree on the elements keep the same elements. */
  lemma {:induction false} FilterCongruent<T>(s: seq<T>, p: T -> bool, q: T -> bool)
    requires forall i :: 0 <= i < |s| ==> p(s[i]) == q(s[i])
    ensures Filter(s, p) == Filter(s, q)
  {
    if |s| > 0 {
      FilterCongruent(s[1..], p, q);
    }
  }

  /** Summing a constant adds it once per element. */
  lemma {:induction false} SumConst<T>(s: seq<T>, f: T -> real, c: real)
    requires forall i :: 0 <= i < |s| ==> f(s[i]) == c
    ensures SumOf(s, f) == |s| as real * c
  {
    if |s| > 0 {
      SumConst(s[1..], f, c);
    }
  }

  /** A sum over terms that are all zero is zero. */
  lemma {:induction false} SumZero<T>(s: seq<T>, f: T -> real)
    requires forall i :: 0 <= i < |s| ==> f(s[i]) == 0.0
    ensures SumOf(s, f) == 0.0
  {
    if |s| > 0 {
      SumZero(s[1..], f);
    }
  }

  /** A sum over terms that are all at most zero is at most zero. */
  lemma {:induction false} SumNonPositive<T>(s: seq<T>, f: T -> real)
    requires forall i :: 0 <= i < |s| ==> f(s[i]) <= 0.0
    ensures SumOf(s, f) <= 0.0
  {
    if |s| > 0 {
      SumNonPositive(s[1..], f);
    }
  }

  lemma SumSingle<T>(x: T, f: T -> real)
    ensures SumOf([x], f) == f(x)
  {
    assert [x][1..] == [];
  }

  /** A sum over terms that are all at least zero is at least zero. */
  lemma {:induction false} SumNonNegative<T>(s: seq<T>, f: T -> real)
    requires forall i :: 0 <= i < |s| ==> f(s[i]) >= 0.0
    ensures SumOf(s, f) >= 0.0
  {
    if |s| > 0 {
      SumNonNegative(s[1..], f);
    }
  }

  /** A sum of non-negative terms one of which is positive is positive. */
  lemma {:induction false} SumPositive<T>(s: seq<T>, f: T -> real, k: nat)
    requires forall i :: 0 <= i < |s| ==> f(s[i]) >= 0.0
    requires k < |s| && f(s[k]) > 0.0
    ensures SumOf(s, f) > 0.0
  {
    if k == 0 {
      SumNonNegative(s[1..], f);
    } else {
      SumPositive(s[1..], f, k - 1);
    }
  }

  /** Summing `f` termwise equals summing the two halves of `f` separately. */
  lemma {:induction false} SumAdd<T>(s: seq<T>, f: T -> real, g: T -> real, h: T -> real)
    requires forall x :: h(x) == f(x) + g(x)
    ensures SumOf(s, h) == SumOf(s, f) + SumOf(s, g)
  {
    if |s| > 0 {
      SumAdd(s[1..], f, g, h);
    }
  }

  /** Two projections that agree on every element give the same sum. */
  lemma {:induction false} SumCongruent<T>(s: seq<T>, f: T -> real, g: T -> real)
    requires forall i :: 0 <= i < |s| ==> f(s[i]) == g(s[i])
    ensures SumOf(s, f) == SumOf(s, g)
  {
    if |s| > 0 {
      SumCongruent(s[1..], f, g);
    }
  }

  /** `Array.prototype.map`. */
  function Map<T, U>(s: seq<T>, f: T -> U): (r: seq<U>)
    ensures |r| == |s|
    ensures forall i :: 0 <= i < |s| ==> r[i] == f(s[i])
  {
    if |s| == 0 then [] else [f(s[0])] + Map(s[1..], f)
  }

  lemma {:induction false} SumMap<T, U>(s: seq<T>, f: T -> U, g: U -> real, h: T -> real)
    requires forall x :: h(x) == g(f(x))
    ensures SumOf(Map(s, f), g) == SumOf(s, h)
  {
    if |s| > 0 {
      SumMap(s[1..], f, g, h);
      assert Map(s, f)[1..] == Map(s[1..], f);
    }
  }

  /** Index of the first element satisfying `p`, or -1 (`Array.prototype.findIndex`). */
  function FindIndex<T>(s: seq<T>, p: T -> bool): (r: int)
    ensures -1 <= r < |s|
    ensures r >= 0 ==> p(s[r]) && forall j :: 0 <= j < r ==> !p(s[j])
    ensures r == -1 ==> forall j :: 0 <= j < |s| ==> !p(s[j])
  {
    if |s| == 0 then -1
    else if p(s[0]) then 0
    else var k := FindIndex(s[1..], p); if k == -1 then -1 else k + 1
  }

  // ---------------------------------------------------------------------
  // Stable sorting by a "goes no later than" relation.
  // ---------------------------------------------------------------------

  ghost predicate TotalRel<T(!new)>(le: (T, T) -> bool) {
    forall a, b :: le(a, b) || le(b, a)
  }

  ghost predicate TransitiveRel<T(!new)>(le: (T, T) -> bool) {
    forall a, b, c :: le(a, b) && le(b, c) ==> le(a, c)
  }

  /** Each element goes no later than its successor. */
  predicate SortedBy<T>(s: seq<T>, le: (T, T) -> bool) {
    forall i :: 0 < i < |s| ==> le(s[i - 1], s[i])
  }

  /** Inserts `x` before the first element it goes no later than; earlier
      equal elements stay ahead of `x`'s later-equal peers, which keeps the
      sort stable when elements are inserted back to front. */
  function Insert<T>(x: T, s: seq<T>, le: (T, T) -> bool): (r: seq<T>)
    ensures multiset(r) == multiset(s) + multiset{x}
    ensures |r| == |s| + 1
  {
    if |s| == 0 then [x]
    else if le(x, s[0]) then [x] + s
    else
      assert s == [s[0]] + s[1..];
      [s[0]] + Insert(x, s[1..], le)
  }

  /** Stable insertion sort. */
  function SortBy<T>(s: seq<T>, le: (T, T) -> bool): (r: seq<T>)
    ensures multiset(r) == multiset(s)
    ensures |r| == |s|
  {
    if |s| == 0 then []
    else
      assert s == [s[0]] + s[1..];
      Insert(s[0], SortBy(s[1..], le), le)
  }

  lemma {:induction false} InsertSorted<T(!new)>(x: T, s: seq<T>, le: (T, T) -> bool)
    requires TotalRel(le)
    requires SortedBy(s, le)
    ensures SortedBy(Insert(x, s, le), le)
    ensures |s| > 0 ==> Insert(x, s, le)[0] == x || Insert(x, s, le)[0] == s[0]
  {
    if |s| > 0 && !le(x, s[0]) {
      InsertSorted(x, s[1..], le);
      var t := Insert(x, s[1..], le);
      assert le(s[0], x);
      var r := [s[0]] + t;
      forall i | 0 < i < |r|
        ensures le(r[i - 1], r[i])
      {
        if i >= 2 {
          assert r[i - 1] == t[i - 2] && r[i] == t[i - 1];
        } else if |s| > 1 {
          assert le(s[0], s[1]);
        }
      }
    }
  }

  /** With a total relation, the sort's output is ordered. */
  lemma {:induction false} SortBySorted<T(!new)>(s: seq<T>, le: (T, T) -> bool)
    requires TotalRel(le)
    ensures SortedBy(SortBy(s, le), le)
  {
    if |s| > 0 {
      SortBySorted(s[1..], le);
      InsertSorted(s[0], SortBy(s[1..], le), le);
    }
  }

  /** For a transitive relation, ordered neighbours mean ordered pairs. */
  lemma {:induction false} SortedPairwise<T(!new)>(s: seq<T>, le: (T, T) -> bool, i: int, j: int)
    requires TransitiveRel(le)
    requires SortedBy(s, le)
    requires 0 <= i < j < |s|
    ensures le(s[i], s[j])
    decreases j - i
  {
    if j > i + 1 {
      SortedPairwise(s, le, i, j - 1);
    }
  }
}
