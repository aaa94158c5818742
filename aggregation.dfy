/**
 * The two per-group reductions of the daily aggregation: pandas' NaN-skipping
 * `mean()` for numeric parameters and `mode()[0]` for the description labels.
 * Both receive the non-null samples of one (date, city) group, in row order.
 */
module Aggregation {
  import opened Wrappers
  import Text

  function Sum(xs: seq<real>): real {
    if xs == [] then 0.0 else Sum(xs[..|xs| - 1]) + xs[|xs| - 1]
  }

  /** Arithmetic mean of a non-empty sequence. */
  function Mean(xs: seq<real>): real
    requires xs != []
  {
    Sum(xs) / |xs| as real
  }

  /**
   * pandas' `mean()` over the non-null samples: null exactly when there are
   * none. What the mean itself satisfies is stated by `MeanBounds`,
   * `MeanConstant` and `MeanMinus` below.
   */
  function NanMean(xs: seq<real>): (r: Option<real>)
    ensures r.None? <==> xs == []
    ensures r.Some? ==> r.value == Mean(xs)
  {
    if xs == [] then None else Some(Mean(xs))
  }

  lemma {:induction false} SumBounds(xs: seq<real>, lo: real, hi: real)
    requires forall i :: 0 <= i < |xs| ==> lo <= xs[i] <= hi
    ensures |xs| as real * lo <= Sum(xs) <= |xs| as real * hi
  {
    if xs != [] {
      SumBounds(xs[..|xs| - 1], lo, hi);
    }
  }

  /** A mean lies between any lower and upper bound of its samples. */
  lemma MeanBounds(xs: seq<real>, lo: real, hi: real)
    requires xs != []
    requires forall i :: 0 <= i < |xs| ==> lo <= xs[i] <= hi
    ensures lo <= Mean(xs) <= hi
  {
    SumBounds(xs, lo, hi);
    var n := |xs| as real;
    assert n * lo <= Sum(xs) <= n * hi;
    assert lo == n * lo / n && hi == n * hi / n;
  }

  /** The mean of samples that all equal `v` is exactly `v`. */
  lemma MeanConstant(xs: seq<real>, v: real)
    requires xs != []
    requires forall i :: 0 <= i < |xs| ==> xs[i] == v
    ensures Mean(xs) == v
  {
    MeanBounds(xs, v, v);
  }

  /** Every sample lowered by `c`. */
  function Minus(xs: seq<real>, c: real): (r: seq<real>)
    ensures |r| == |xs| && forall i :: 0 <= i < |xs| ==> r[i] == xs[i] - c
  {
    seq(|xs|, i requires 0 <= i < |xs| => xs[i] - c)
  }

  lemma MinusAppend(xs: seq<real>, x: real, c: real)
    ensures Minus(xs + [x], c) == Minus(xs, c) + [x - c]
  {
  }

  lemma {:induction false} SumMinus(xs: seq<real>, c: real)
    ensures Sum(Minus(xs, c)) == Sum(xs) - |xs| as real * c
  {
    if xs != [] {
      var n := |xs| - 1;
      assert Minus(xs, c)[..n] == Minus(xs[..n], c);
      SumMinus(xs[..n], c);
    }
  }

  /** Lowering every sample by `c` lowers the mean by exactly `c`. */
  lemma MeanMinus(xs: seq<real>, c: real)
    requires xs != []
    ensures Mean(Minus(xs, c)) == Mean(xs) - c
  {
    SumMinus(xs, c);
    var n := |xs| as real;
    assert (Sum(xs) - n * c) / n == Sum(xs) / n - c;
  }

  /** How often `x` occurs in `xs`. */
  function Count(xs: seq<string>, x: string): nat {
    multiset(xs)[x]
  }

  /**
   * `m` is what pandas' `mode()[0]` returns for `xs`: a most frequent label, and
   * among the most frequent ones the smallest, since `mode()` sorts its result.
   */
  ghost predicate IsModeOf(xs: seq<string>, m: string) {
    && m in xs
    && (forall y :: y in xs ==> Count(xs, y) <= Count(xs, m))
    && (forall y :: y in xs && Count(xs, y) == Count(xs, m) ==> Text.LexLe(m, y))
  }

  /** At most one label is the mode of a sequence. */
  lemma ModeUnique(xs: seq<string>, m1: string, m2: string)
    requires IsModeOf(xs, m1) && IsModeOf(xs, m2)
    ensures m1 == m2
  {
    Text.LexLeAntisymmetric(m1, m2);
  }

  /** The winner of `candidates` when each label is scored by its count in `all`. */
  function Best(all: seq<string>, candidates: seq<string>): (r: string)
    requires candidates != []
    ensures r in candidates
    ensures forall y :: y in candidates ==>
      Count(all, y) < Count(all, r) || (Count(all, y) == Count(all, r) && Text.LexLe(r, y))
  {
    if |candidates| == 1 then
      Text.LexLeTotal(candidates[0], candidates[0]);
      candidates[0]
    else
      var x := candidates[0];
      var b := Best(all, candidates[1..]);
      assert forall y :: y in candidates ==> y == x || y in candidates[1..];
      if Count(all, x) > Count(all, b) || (Count(all, x) == Count(all, b) && Text.LexLe(x, b)) then
        assert forall y :: y in candidates[1..] && Count(all, y) == Count(all, x) ==> Text.LexLe(x, y) by {
          forall y | y in candidates[1..] && Count(all, y) == Count(all, x)
            ensures Text.LexLe(x, y)
          {
            Text.LexLeTransitive(x, b, y);
          }
        }
        Text.LexLeTotal(x, x);
        x
      else
        Text.LexLeTotal(x, b);
        b
  }

  /** pandas' `mode()[0]` over the non-null labels, null when there are none. */
  function Mode(xs: seq<string>): (r: Option<string>)
    ensures r.None? <==> xs == []
    ensures r.Some? ==> IsModeOf(xs, r.value)
  {
    if xs == [] then None else Some(Best(xs, xs))
  }

  /** The most frequent label wins: "rain" twice beats "cloud" once. */
  lemma ModeMostFrequent()
    ensures Mode(["rain", "cloud", "rain"]) == Some("rain")
  {
    var xs := ["rain", "cloud", "rain"];
    assert multiset(xs) == multiset{"rain", "rain", "cloud"};
    assert "rain" != "cloud";
    assert IsModeOf(xs, "rain");
    ModeUnique(xs, Mode(xs).value, "rain");
  }

  /** A tie goes to the smallest label, not to the first one seen. */
  lemma ModeTieSmallest()
    ensures Mode(["rain", "cloud"]) == Some("cloud")
  {
    var xs := ["rain", "cloud"];
    assert multiset(xs) == multiset{"rain", "cloud"};
    assert "rain" != "cloud";
    assert Text.LexLe("cloud", "rain");
    assert Text.LexLe("cloud", "cloud") by { Text.LexLeTotal("cloud", "cloud"); }
    assert IsModeOf(xs, "cloud");
    ModeUnique(xs, Mode(xs).value, "cloud");
  }
}
