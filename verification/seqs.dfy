/** Order-preserving filters and real-valued sums over sequences: the two
    primitives every stage of the pipeline is built from (row drops, record
    masks and column means). */
module Seqs {

  /** The elements of `xs` that satisfy `p`, in their original order. */
  function Filter<T>(xs: seq<T>, p: T -> bool): (r: seq<T>)
    ensures |r| <= |xs|
    ensures forall x | x in r :: x in xs && p(x)
    ensures forall x | x in xs && p(x) :: x in r
  {
    if xs == [] then []
    else (if p(xs[0]) then [xs[0]] else []) + Filter(xs[1..], p)
  }

  /** Filtering distributes over concatenation: kept elements stay in order. */
  lemma {:induction false} FilterAppend<T>(a: seq<T>, b: seq<T>, p: T -> bool)
    ensures Filter(a + b, p) == Filter(a, p) + Filter(b, p)
  {
    if a == [] {
      assert a + b == b;
    } else {
      assert (a + b)[1..] == a[1..] + b;
      FilterAppend(a[1..], b, p);
    }
  }

  /** A filter that every element passes changes nothing. */
  lemma {:induction false} FilterAll<T>(xs: seq<T>, p: T -> bool)
    requires forall x | x in xs :: p(x)
    ensures Filter(xs, p) == xs
  {
    if xs != [] {
      FilterAll(xs[1..], p);
    }
  }

  /** A filter that no element passes leaves nothing. */
  lemma {:induction false} FilterNone<T>(xs: seq<T>, p: T -> bool)
    requires forall x | x in xs :: !p(x)
    ensures Filter(xs, p) == []
  {
    if xs != [] {
      FilterNone(xs[1..], p);
    }
  }

  /** Two successive filters are one filter by the conjunction. */
  lemma {:induction false} FilterFilter<T>(xs: seq<T>, p: T -> bool, q: T -> bool, pq: T -> bool)
    requires forall x | x in xs :: pq(x) == (p(x) && q(x))
    ensures Filter(Filter(xs, p), q) == Filter(xs, pq)
  {
    if xs != [] {
      assert xs[0] in xs;
      FilterFilter(xs[1..], p, q, pq);
      var rest := Filter(xs[1..], p);
      if p(xs[0]) {
        var f := Filter(xs, p);
        assert f == [xs[0]] + rest;
        assert f[0] == xs[0] && f[1..] == rest;
        assert Filter(f, q) == (if q(xs[0]) then [xs[0]] else []) + Filter(rest, q);
      } else {
        assert Filter(xs, p) == rest;
      }
    }
  }

  /** Applying the same filter twice is applying it once. */
  lemma FilterIdempotent<T>(xs: seq<T>, p: T -> bool)
    ensures Filter(Filter(xs, p), p) == Filter(xs, p)
  {
    FilterAll(Filter(xs, p), p);
  }

  /** Filters with the same verdict on every element give the same result. */
  lemma {:induction false} FilterSameVerdict<T>(xs: seq<T>, p: T -> bool, q: T -> bool)
    requires forall x | x in xs :: p(x) == q(x)
    ensures Filter(xs, p) == Filter(xs, q)
  {
    if xs != [] {
      FilterSameVerdict(xs[1..], p, q);
    }
  }

  /** Sum of a sequence of reals. */
  function Sum(xs: seq<real>): real
  {
    if xs == [] then 0.0 else xs[0] + Sum(xs[1..])
  }

  /** Every element multiplied by `f`. */
  function Scale(xs: seq<real>, f: real): (r: seq<real>)
    ensures |r| == |xs|
    ensures forall i :: 0 <= i < |xs| ==> r[i] == xs[i] * f
  {
    seq(|xs|, i requires 0 <= i < |xs| => xs[i] * f)
  }

  /** Arithmetic mean; undefined (left at zero) for the empty sequence, where
      every caller takes a separate branch. */
  function Mean(xs: seq<real>): real
  {
    if |xs| == 0 then 0.0 else Sum(xs) / (|xs| as real)
  }

  lemma {:induction false} SumScale(xs: seq<real>, f: real)
    ensures Sum(Scale(xs, f)) == f * Sum(xs)
  {
    if xs != [] {
      forall i | 0 <= i < |xs| - 1
        ensures Scale(xs, f)[1..][i] == Scale(xs[1..], f)[i]
      {
      }
      assert Scale(xs, f)[1..] == Scale(xs[1..], f);
      SumScale(xs[1..], f);
    }
  }

  /** Scaling every value by `f` scales the mean by `f`. */
  lemma MeanScale(xs: seq<real>, f: real)
    ensures Mean(Scale(xs, f)) == f * Mean(xs)
  {
    if |xs| > 0 {
      SumScale(xs, f);
      var n := |xs| as real;
      assert Sum(Scale(xs, f)) / n == f * (Sum(xs) / n);
    }
  }

  /** Scaling by `target / Mean(xs)` moves the mean exactly onto `target`. */
  lemma MeanAfterRescale(xs: seq<real>, target: real)
    requires Mean(xs) != 0.0
    ensures Mean(Scale(xs, target / Mean(xs))) == target
  {
    MeanScale(xs, target / Mean(xs));
  }
}
