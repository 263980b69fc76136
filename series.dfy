/** Sums, means and extrema of sequences of reals (the numpy reductions
    `np.sum`, `np.mean`, `np.amax`, `np.amin` on non-empty float arrays). */
module Series {
  import opened ExtReals

  function Sum(s: seq<real>): real
  {
    if |s| == 0 then 0.0 else Sum(s[..|s| - 1]) + s[|s| - 1]
  }

  function Mean(s: seq<real>): real
    requires |s| > 0
  {
    Sum(s) / (|s| as real)
  }

  /** `np.mean` on any list: the mean of an empty list is NaN. */
  function MeanOrNaN(s: seq<real>): (m: ExtReal)
    ensures m.NaN? <==> |s| == 0
  {
    if |s| == 0 then NaN else Finite(Mean(s))
  }

  function Max(s: seq<real>): (m: real)
    requires |s| > 0
    ensures m in s
    ensures forall i :: 0 <= i < |s| ==> s[i] <= m
  {
    if |s| == 1 then s[0]
    else
      var m' := Max(s[..|s| - 1]);
      assert forall i :: 0 <= i < |s| - 1 ==> s[i] == s[..|s| - 1][i];
      if s[|s| - 1] > m' then s[|s| - 1] else m'
  }

  function Min(s: seq<real>): (m: real)
    requires |s| > 0
    ensures m in s
    ensures forall i :: 0 <= i < |s| ==> m <= s[i]
  {
    if |s| == 1 then s[0]
    else
      var m' := Min(s[..|s| - 1]);
      assert forall i :: 0 <= i < |s| - 1 ==> s[i] == s[..|s| - 1][i];
      if s[|s| - 1] < m' then s[|s| - 1] else m'
  }

  lemma {:induction false} SumAppend(s: seq<real>, t: seq<real>)
    ensures Sum(s + t) == Sum(s) + Sum(t)
    decreases |t|
  {
    if |t| > 0 {
      assert (s + t)[..|s + t| - 1] == s + t[..|t| - 1];
      SumAppend(s, t[..|t| - 1]);
      assert (s + t)[|s + t| - 1] == t[|t| - 1];
    } else {
      assert s + t == s;
    }
  }

  /** Every element with `m` subtracted, as numpy's `x - m` does. */
  function Shifted(s: seq<real>, m: real): (r: seq<real>)
    ensures |r| == |s|
  {
    seq(|s|, i requires 0 <= i < |s| => s[i] - m)
  }

  lemma {:induction false} SumShifted(s: seq<real>, m: real)
    ensures Sum(Shifted(s, m)) == Sum(s) - (|s| as real) * m
    decreases |s|
  {
    if |s| > 0 {
      var p := s[..|s| - 1];
      SumShifted(p, m);
      assert Shifted(s, m)[..|s| - 1] == Shifted(p, m);
    }
  }

  /** `d - np.mean(d)`: the centered sequence. */
  function Centered(s: seq<real>): (r: seq<real>)
    requires |s| > 0
    ensures |r| == |s|
  {
    Shifted(s, Mean(s))
  }

  /** Centered values sum to exactly zero. */
  lemma CenteredSumsToZero(s: seq<real>)
    requires |s| > 0
    ensures Sum(Centered(s)) == 0.0
  {
    SumShifted(s, Mean(s));
  }

  /** Dividing every element by `c` divides the sum by `c`. */
  lemma {:induction false} SumScaled(s: seq<real>, c: real)
    requires c != 0.0
    ensures Sum(seq(|s|, i requires 0 <= i < |s| => s[i] / c)) == Sum(s) / c
    decreases |s|
  {
    if |s| > 0 {
      var p := s[..|s| - 1];
      SumScaled(p, c);
      assert seq(|s|, i requires 0 <= i < |s| => s[i] / c)[..|s| - 1] ==
        seq(|p|, i requires 0 <= i < |p| => p[i] / c);
    }
  }
}
