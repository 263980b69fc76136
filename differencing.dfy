/** Multi-timescale windowed differencing (`differential_means` in
    processing_scripts_formose/data_analysis_functions.py).

    For a window of `w` samples the series is first turned into moving block
    means, those are differenced at lag `w`, the differences are centered on
    their mean and finally divided by their standard deviation. The standard
    deviation (`np.std`) is a parameter `std` of the model. */
module Differencing {
  import opened Wrappers
  import opened ExtReals
  import opened Series
  import opened Dicts
  import opened Strings

  function Max0(n: int): nat { if n > 0 then n else 0 }

  /** The closed form of the two passes: entry `j` is the mean of block
      `[j + w, j + 2w)` minus the mean of block `[j, j + w)`. */
  function BlockMeanDifferences(d: seq<real>, w: nat): (r: seq<real>)
    requires w > 0
    ensures |r| == Max0(|d| - 2 * w)
  {
    seq(Max0(|d| - 2 * w), j requires 0 <= j < Max0(|d| - 2 * w) =>
      Mean(d[j + w..j + 2 * w]) - Mean(d[j..j + w]))
  }

  /** `z / s` element-wise, with numpy's division by zero. */
  function ScaledBy(z: seq<real>, s: real): (r: seq<ExtReal>)
    ensures |r| == |z|
  {
    seq(|z|, i requires 0 <= i < |z| => Div(Finite(z[i]), Finite(s)))
  }

  /** Centering followed by division by `std` of the centered values. An empty
      input gives an empty output (numpy only warns about the empty mean). */
  function Normalised(x: seq<real>, std: seq<real> -> real): (r: seq<ExtReal>)
    ensures |r| == |x|
  {
    if |x| == 0 then [] else ScaledBy(Centered(x), std(Centered(x)))
  }

  /** The first pass (lines 135-138): entry `k` is the mean of `d[k..k+w)`. */
  method MovingMeans(d: seq<real>, w: nat) returns (lag: seq<real>)
    requires w > 0
    ensures |lag| == Max0(|d| - w)
    ensures forall k :: 0 <= k < |lag| ==> lag[k] == Mean(d[k..k + w])
  {
    lag := [];
    for a := 0 to |d|
      invariant |lag| == Max0(a - w)
      invariant forall k :: 0 <= k < |lag| ==> lag[k] == Mean(d[k..k + w])
    {
      if a > w - 1 {
        lag := lag + [Mean(d[a - w..a])];
      }
    }
  }

  /** The lag-`w` difference (lines 140-143, and lines 208-210 of
      plotting_functions.py): entry `k` is `y[k + w] - y[k]`. */
  method LagDifferences(y: seq<real>, w: nat) returns (diff: seq<real>)
    requires w > 0
    ensures |diff| == Max0(|y| - w)
    ensures forall k :: 0 <= k < |diff| ==> diff[k] == y[k + w] - y[k]
  {
    diff := [];
    for a := 0 to |y|
      invariant |diff| == Max0(a - w)
      invariant forall k :: 0 <= k < |diff| ==> diff[k] == y[k + w] - y[k]
    {
      if a > w - 1 {
        diff := diff + [y[a] - y[a - w]];
      }
    }
  }

  /** Lines 145-151: subtract the mean, then divide by the standard deviation. */
  method CenterAndScale(x: seq<real>, std: seq<real> -> real) returns (norm: seq<ExtReal>)
    ensures norm == Normalised(x, std)
  {
    if |x| == 0 {
      return [];
    }
    var m := Mean(x);
    var zero: seq<real> := [];
    for i := 0 to |x|
      invariant |zero| == i
      invariant forall k :: 0 <= k < i ==> zero[k] == x[k] - m
    {
      zero := zero + [x[i] - m];
    }
    assert zero == Centered(x);
    norm := ScaledBy(zero, std(zero));
  }

  /** The whole transform of one series at window `w` (lines 133-151). */
  method DifferentialSeries(d: seq<real>, w: nat, std: seq<real> -> real) returns (norm: seq<ExtReal>)
    requires w > 0
    ensures |norm| == Max0(|d| - 2 * w)
    ensures norm == Normalised(BlockMeanDifferences(d, w), std)
  {
    var lag := MovingMeans(d, w);
    var dLag := LagDifferences(lag, w);
    assert dLag == BlockMeanDifferences(d, w) by {
      forall j | 0 <= j < |dLag|
        ensures dLag[j] == Mean(d[j + w..j + 2 * w]) - Mean(d[j..j + w])
      {
        assert lag[j + w] == Mean(d[j + w..j + w + w]);
      }
    }
    norm := CenterAndScale(dLag, std);
  }

  /** Once the standard deviation is non-zero, every output is finite and the
      outputs sum to zero. */
  lemma NormalisedSumsToZero(x: seq<real>, std: seq<real> -> real)
    requires |x| > 0 && std(Centered(x)) != 0.0
    ensures forall i :: 0 <= i < |x| ==> Normalised(x, std)[i].Finite?
    ensures Sum(seq(|x|, i requires 0 <= i < |x| => Normalised(x, std)[i].r)) == 0.0
  {
    var c := Centered(x);
    var s := std(c);
    CenteredSumsToZero(x);
    SumScaled(c, s);
    assert Normalised(x, std) == ScaledBy(c, s);
    forall i | 0 <= i < |x|
      ensures Normalised(x, std)[i] == Finite(c[i] / s)
    {
    }
    assert seq(|x|, i requires 0 <= i < |x| => Normalised(x, std)[i].r) ==
      seq(|c|, i requires 0 <= i < |c| => c[i] / s);
  }

  /** The key search of lines 128-131: the last key (in dictionary order)
      that contains `tok` as a substring. */
  function LastMatch(keys: seq<string>, tok: string): (r: Option<nat>)
    ensures r.Some? ==> (r.value < |keys| && Contains(keys[r.value], tok) &&
                         forall j :: r.value < j < |keys| ==> !Contains(keys[j], tok))
    ensures r.None? ==> forall j :: 0 <= j < |keys| ==> !Contains(keys[j], tok)
  {
    if |keys| == 0 then None
    else if Contains(keys[|keys| - 1], tok) then Some(|keys| - 1)
    else LastMatch(keys[..|keys| - 1], tok)
  }

  method FindLastKey<V>(data: Dict<V>, tok: string) returns (found: bool, idx: nat)
    ensures found <==> LastMatch(Keys(data), tok).Some?
    ensures found ==> idx == LastMatch(Keys(data), tok).value
  {
    found, idx := false, 0;
    for i := 0 to |data|
      invariant found <==> LastMatch(Keys(data)[..i], tok).Some?
      invariant found ==> idx == LastMatch(Keys(data)[..i], tok).value
    {
      assert Keys(data)[..i + 1][..i] == Keys(data)[..i];
      if Contains(data[i].0, tok) {
        found, idx := true, i;
      }
    }
    assert Keys(data)[..|data|] == Keys(data);
  }

  /** The series `differential_means` transforms, one per token of `l` that
      some key contains, in the order of `l`. */
  function MatchedSeries(data: Dict<seq<real>>, l: seq<(string, string)>): seq<seq<real>>
  {
    if |l| == 0 then []
    else
      var prev := MatchedSeries(data, l[..|l| - 1]);
      match LastMatch(Keys(data), l[|l| - 1].1)
      case Some(i) => prev + [data[i].1]
      case None => prev
  }

  /** When every token has a matching key, there is one series per token:
      the value of that token's last matching key. */
  lemma {:induction false} MatchedSeriesAllMatch(data: Dict<seq<real>>, l: seq<(string, string)>)
    requires forall t :: 0 <= t < |l| ==> LastMatch(Keys(data), l[t].1).Some?
    ensures |MatchedSeries(data, l)| == |l|
    ensures forall t :: 0 <= t < |l| ==>
      MatchedSeries(data, l)[t] == data[LastMatch(Keys(data), l[t].1).value].1
  {
    if |l| > 0 {
      MatchedSeriesAllMatch(data, l[..|l| - 1]);
    }
  }

  /** Tokens that no key contains are skipped rather than zero-filled. */
  lemma {:induction false} MatchedSeriesSkips(data: Dict<seq<real>>, l: seq<(string, string)>, y: (string, string))
    requires LastMatch(Keys(data), y.1).None?
    ensures MatchedSeries(data, l + [y]) == MatchedSeries(data, l)
  {
    assert (l + [y])[..|l + [y]| - 1] == l;
  }

  function NormalisedAll(series: seq<seq<real>>, w: nat, std: seq<real> -> real): (r: seq<seq<ExtReal>>)
    requires w > 0
    ensures |r| == |series|
  {
    seq(|series|, k requires 0 <= k < |series| => Normalised(BlockMeanDifferences(series[k], w), std))
  }

  /** One more token adds its matched series, transformed, if some key
      contains it. */
  lemma NormalisedMatchedSnoc(data: Dict<seq<real>>, l: seq<(string, string)>, j: nat, w: nat,
                              std: seq<real> -> real)
    requires j < |l| && w > 0
    ensures var prev := NormalisedAll(MatchedSeries(data, l[..j]), w, std);
      NormalisedAll(MatchedSeries(data, l[..j + 1]), w, std) ==
        match LastMatch(Keys(data), l[j].1)
        case Some(i) => prev + [Normalised(BlockMeanDifferences(data[i].1, w), std)]
        case None => prev
  {
    assert l[..j + 1][..j] == l[..j];
    var pre := MatchedSeries(data, l[..j]);
    match LastMatch(Keys(data), l[j].1)
    case Some(i) =>
      assert MatchedSeries(data, l[..j + 1]) == pre + [data[i].1];
      var x := NormalisedAll(pre + [data[i].1], w, std);
      assert x[..|pre|] == NormalisedAll(pre, w, std);
    case None =>
  }

  /** Lines 125-153 for one interval: the transformed series of every
      matched token, in the order of `l`. */
  method CombinedLags(data: Dict<seq<real>>, l: seq<(string, string)>, w: nat, std: seq<real> -> real)
    returns (combLag: seq<seq<ExtReal>>)
    requires w > 0
    ensures combLag == NormalisedAll(MatchedSeries(data, l), w, std)
  {
    combLag := [];
    for j := 0 to |l|
      invariant combLag == NormalisedAll(MatchedSeries(data, l[..j]), w, std)
    {
      NormalisedMatchedSnoc(data, l, j, w, std);
      var found, idx := FindLastKey(data, l[j].1);
      if found {
        var normFlow := DifferentialSeries(data[idx].1, w, std);
        combLag := combLag + [normFlow];
      }
    }
    assert l[..|l|] == l;
  }

  /** `differential_means(data, t_interval, sample_time, l)`: one list per
      interval, in order; within it one transformed series per matched token. */
  method DifferentialMeans(data: Dict<seq<real>>, tInterval: seq<int>, sampleTime: int,
                           l: seq<(string, string)>, std: seq<real> -> real)
    returns (differentials: seq<seq<seq<ExtReal>>>)
    requires sampleTime > 0
    requires forall i :: 0 <= i < |tInterval| ==> tInterval[i] > 0 && tInterval[i] % sampleTime == 0
    ensures |differentials| == |tInterval|
    ensures forall i :: 0 <= i < |tInterval| ==>
      differentials[i] == NormalisedAll(MatchedSeries(data, l), tInterval[i] / sampleTime, std)
  {
    differentials := [];
    for t := 0 to |tInterval|
      invariant |differentials| == t
      invariant forall i :: 0 <= i < t ==>
        differentials[i] == NormalisedAll(MatchedSeries(data, l), tInterval[i] / sampleTime, std)
    {
      var w := tInterval[t] / sampleTime;
      var combLag := CombinedLags(data, l, w, std);
      differentials := differentials + [combLag];
    }
  }
}
