/** The reductions `np.mean`, `np.min` and `np.max` over a non-empty list of
    numbers, with reals standing for the floating-point values. */
module Stats {

  function Sum(s: seq<real>): real
  {
    if s == [] then 0.0 else s[0] + Sum(s[1..])
  }

  /** `np.mean`: the sum divided by the number of entries. */
  function Mean(s: seq<real>): real
    requires |s| > 0
  {
    Sum(s) / (|s| as real)
  }

  /** `np.min`: an entry of the list that no entry is below. */
  function Min(s: seq<real>): (m: real)
    requires |s| > 0
    ensures m in s
    ensures forall i :: 0 <= i < |s| ==> m <= s[i]
  {
    if |s| == 1 then s[0]
    else
      var rest := Min(s[1..]);
      if s[0] <= rest then s[0] else rest
  }

  /** `np.max`: an entry of the list that no entry is above. */
  function Max(s: seq<real>): (m: real)
    requires |s| > 0
    ensures m in s
    ensures forall i :: 0 <= i < |s| ==> s[i] <= m
  {
    if |s| == 1 then s[0]
    else
      var rest := Max(s[1..]);
      if s[0] >= rest then s[0] else rest
  }

  /** The list of natural numbers as reals, for the mean of step counts. */
  function Reals(s: seq<nat>): seq<real>
  {
    seq(|s|, i requires 0 <= i < |s| => s[i] as real)
  }

  lemma {:induction false} SumAtLeast(s: seq<real>, lo: real)
    requires forall i :: 0 <= i < |s| ==> lo <= s[i]
    ensures (|s| as real) * lo <= Sum(s)
  {
    if s != [] {
      assert forall i :: 0 <= i < |s[1..]| ==> lo <= s[1..][i] by {
        forall i | 0 <= i < |s[1..]| ensures lo <= s[1..][i] {
          assert s[1..][i] == s[i + 1];
        }
      }
      SumAtLeast(s[1..], lo);
      assert (|s| as real) * lo == ((|s| - 1) as real) * lo + lo;
    }
  }

  lemma {:induction false} SumAtMost(s: seq<real>, hi: real)
    requires forall i :: 0 <= i < |s| ==> s[i] <= hi
    ensures Sum(s) <= (|s| as real) * hi
  {
    if s != [] {
      assert forall i :: 0 <= i < |s[1..]| ==> s[1..][i] <= hi by {
        forall i | 0 <= i < |s[1..]| ensures s[1..][i] <= hi {
          assert s[1..][i] == s[i + 1];
        }
      }
      SumAtMost(s[1..], hi);
      assert (|s| as real) * hi == ((|s| - 1) as real) * hi + hi;
    }
  }

  /** Dividing both sides of `n * lo <= x` by a positive `n`. */
  lemma DivideBounds(x: real, n: real, lo: real, hi: real)
    requires n > 0.0
    requires n * lo <= x <= n * hi
    ensures lo <= x / n <= hi
  {
  }

  /** Any common lower bound and upper bound of the entries also bounds their mean. */
  lemma MeanWithin(s: seq<real>, lo: real, hi: real)
    requires |s| > 0
    requires forall i :: 0 <= i < |s| ==> lo <= s[i] <= hi
    ensures lo <= Mean(s) <= hi
  {
    SumAtLeast(s, lo);
    SumAtMost(s, hi);
    DivideBounds(Sum(s), |s| as real, lo, hi);
  }

  /** The mean lies between the minimum and the maximum. */
  lemma MeanBetweenMinMax(s: seq<real>)
    requires |s| > 0
    ensures Min(s) <= Mean(s) <= Max(s)
  {
    MeanWithin(s, Min(s), Max(s));
  }

  /** A list whose entries all equal `c` has mean, minimum and maximum `c`. */
  lemma ConstantStatistics(s: seq<real>, c: real)
    requires |s| > 0
    requires forall i :: 0 <= i < |s| ==> s[i] == c
    ensures Mean(s) == c && Min(s) == c && Max(s) == c
  {
    MeanWithin(s, c, c);
  }
}
