/** The data preparation in processing_scripts_formose/plotting_functions.py:
    grouping report traces by compound and padding them to a common length
    (`compound_wise_dataframes`), the lag differences of `differential`, and
    the colour-range part of `corr`. Plot drawing, DataFrame construction and
    the CSV file `corr` writes are not modelled. */
module Plotting {
  import opened Wrappers
  import opened ExtReals
  import opened Series
  import opened Dicts
  import opened Strings
  import opened Differencing
  import opened CorrelationAnalysis

  /** A data report as `compound_wise_dataframes` reads it. */
  datatype Report = Report(experimentCode: string, data: Dict<seq<real>>)

  /** compound token -> experiment label -> trace. */
  type Grouping = Dict<Dict<seq<real>>>

  predicate WellFormed(g: Grouping)
  {
    DistinctKeys(g) && forall i :: 0 <= i < |g| ==> DistinctKeys(g[i].1)
  }

  /** Lines 43-46: the label of report `c` is its experiment code when no
      names are given, otherwise `data_names[c]`. */
  function Label(reports: seq<Report>, names: seq<string>, c: nat): (r: Result<string>)
    requires c < |reports|
    ensures r.Fail? <==> 0 < |names| <= c
    ensures r.Fail? ==> r.error == IndexError
    ensures r.Ok? ==> r.value == (if |names| == 0 then reports[c].experimentCode else names[c])
  {
    if |names| == 0 then Ok(reports[c].experimentCode)
    else if c < |names| then Ok(names[c])
    else Fail(IndexError)
  }

  /** The traces already grouped under `token`. */
  function Traces(g: Grouping, token: string): (d: Dict<seq<real>>)
    ensures token in Keys(g) ==> exists i :: 0 <= i < |g| && g[i] == (token, d)
    ensures token !in Keys(g) ==> d == []
  {
    if token in Keys(g) then Get(g, token) else []
  }

  /** Lines 51-54: one trace stored under its token and label. */
  function AddTrace(g: Grouping, token: string, expCode: string, trace: seq<real>): (r: Grouping)
    ensures Keys(r) == if token in Keys(g) then Keys(g) else Keys(g) + [token]
    ensures WellFormed(g) ==> WellFormed(r)
  {
    var inner := Put(Traces(g, token), expCode, trace);
    var r := Put(g, token, inner);
    assert WellFormed(g) ==> WellFormed(r) by {
      if WellFormed(g) {
        forall i | 0 <= i < |r|
          ensures DistinctKeys(r[i].1)
        {
          if i < |g| && g[i].0 != token {
            assert r[i] == g[i];
          } else {
            assert r[i].0 == token;
            assert Get(r, token) == inner;
            GetEntry(r, i);
          }
        }
      }
    }
    r
  }

  /** A stored trace adds its token to the tokens, and nothing else. */
  lemma AddTraceKeys(g: Grouping, token: string, expCode: string, trace: seq<real>)
    ensures forall t :: t in Keys(AddTrace(g, token, expCode, trace)) <==> t in Keys(g) || t == token
  {
    var r := AddTrace(g, token, expCode, trace);
    if token !in Keys(g) {
      assert Keys(r) == Keys(g) + [token];
    }
  }

  /** A stored trace replaces whatever the same token and label held before,
      and the traces of other tokens stay as they were. */
  lemma AddTraceOverwrites(g: Grouping, token: string, expCode: string, trace: seq<real>)
    ensures var r := AddTrace(g, token, expCode, trace);
      token in Keys(r) && expCode in Keys(Get(r, token)) && Get(Get(r, token), expCode) == trace &&
      forall t :: t in Keys(g) && t != token ==> t in Keys(r) && Get(r, t) == Get(g, t)
  {
    var inner := Put(Traces(g, token), expCode, trace);
    forall t | t in Keys(g) && t != token
      ensures t in Keys(AddTrace(g, token, expCode, trace))
      ensures Get(AddTrace(g, token, expCode, trace), t) == Get(g, t)
    {
      PutOther(g, token, inner, t);
    }
  }

  /** Lines 48-54 for one report: its traces in key order. */
  function AddReport(g: Grouping, expCode: string, data: Dict<seq<real>>): (r: Grouping)
    ensures WellFormed(g) ==> WellFormed(r)
  {
    if |data| == 0 then g
    else
      var last := data[|data| - 1];
      AddTrace(AddReport(g, expCode, data[..|data| - 1]), FirstToken(last.0, '/'), expCode, last.1)
  }

  /** The compound tokens of a report's keys, in key order. */
  function Tokens(data: Dict<seq<real>>): (toks: seq<string>)
  {
    if |data| == 0 then [] else Tokens(data[..|data| - 1]) + [FirstToken(data[|data| - 1].0, '/')]
  }

  lemma {:induction false} TokensAt(data: Dict<seq<real>>)
    ensures |Tokens(data)| == |data|
    ensures forall i :: 0 <= i < |data| ==> Tokens(data)[i] == FirstToken(data[i].0, '/')
  {
    if |data| > 0 {
      var pre := data[..|data| - 1];
      TokensAt(pre);
      assert forall i :: 0 <= i < |pre| ==> pre[i] == data[i];
    }
  }

  /** After a report, the tokens are the earlier ones and the key prefixes
      of the report, nothing else. */
  lemma {:induction false} AddReportTokens(g: Grouping, expCode: string, data: Dict<seq<real>>)
    ensures forall t :: t in Keys(AddReport(g, expCode, data)) <==> t in Keys(g) || t in Tokens(data)
  {
    if |data| > 0 {
      var pre := data[..|data| - 1];
      AddReportTokens(g, expCode, pre);
      AddTraceKeys(AddReport(g, expCode, pre), FirstToken(data[|data| - 1].0, '/'), expCode, data[|data| - 1].1);
    }
  }

  /** The same, position by position: every key prefix of the report is a
      token afterwards, and every token afterwards was there before or is
      one of those prefixes. */
  lemma AddReportTokensAt(g: Grouping, expCode: string, data: Dict<seq<real>>)
    ensures var r := AddReport(g, expCode, data);
      (forall t :: t in Keys(g) ==> t in Keys(r)) &&
      (forall i :: 0 <= i < |data| ==> FirstToken(data[i].0, '/') in Keys(r)) &&
      (forall t :: t in Keys(r) ==> t in Keys(g) || exists i :: 0 <= i < |data| && FirstToken(data[i].0, '/') == t)
  {
    AddReportTokens(g, expCode, data);
    TokensAt(data);
    var toks := Tokens(data);
    forall i | 0 <= i < |data|
      ensures toks[i] in toks
    {
    }
  }

  /** Lines 40-54: all reports grouped in order; a report without a name
      raises IndexError. */
  function Grouped(reports: seq<Report>, names: seq<string>): (r: Result<Grouping>)
    ensures r.Fail? <==> |names| > 0 && |reports| > |names|
    ensures r.Fail? ==> r.error == IndexError
    ensures r.Ok? ==> WellFormed(r.value)
  {
    if |reports| == 0 then Ok([])
    else
      var g :- Grouped(reports[..|reports| - 1], names);
      var expCode :- Label(reports, names, |reports| - 1);
      Ok(AddReport(g, expCode, reports[|reports| - 1].data))
  }

  /** Lines 40-54. */
  method GroupReports(reports: seq<Report>, names: seq<string>) returns (res: Result<Grouping>)
    ensures res == Grouped(reports, names)
  {
    var g: Grouping := [];
    for c := 0 to |reports|
      invariant Grouped(reports[..c], names) == Ok(g)
    {
      assert reports[..c + 1][..c] == reports[..c];
      var expCode: string;
      if |names| == 0 {
        expCode := reports[c].experimentCode;
      } else if c < |names| {
        expCode := names[c];
      } else {
        return Fail(IndexError);
      }
      assert Label(reports[..c + 1], names, c) == Ok(expCode);
      g := AddReportOf(g, expCode, reports[c].data);
    }
    assert reports[..|reports|] == reports;
    return Ok(g);
  }

  /** Lines 48-54 for one report. */
  method AddReportOf(g0: Grouping, expCode: string, data: Dict<seq<real>>) returns (g: Grouping)
    ensures g == AddReport(g0, expCode, data)
  {
    g := g0;
    for k := 0 to |data|
      invariant g == AddReport(g0, expCode, data[..k])
    {
      assert data[..k + 1][..k] == data[..k];
      var token := FirstToken(data[k].0, '/');
      assert AddReport(g0, expCode, data[..k + 1]) == AddTrace(g, token, expCode, data[k].1);
      if token in Keys(g) {
        g := Put(g, token, Put(Get(g, token), expCode, data[k].1));
      } else {
        assert Put([], expCode, data[k].1) == [(expCode, data[k].1)];
        g := Put(g, token, [(expCode, data[k].1)]);
      }
    }
    assert data[..|data|] == data;
  }

  /** Lines 62-65: the length of the longest trace, 0 for none. */
  function MaxLen(traces: Dict<seq<real>>): (m: nat)
    ensures forall i :: 0 <= i < |traces| ==> |traces[i].1| <= m
    ensures |traces| > 0 ==> exists i :: 0 <= i < |traces| && |traces[i].1| == m
    ensures |traces| == 0 ==> m == 0
  {
    if |traces| == 0 then 0
    else
      var prev := MaxLen(traces[..|traces| - 1]);
      assert forall i :: 0 <= i < |traces| - 1 ==> traces[..|traces| - 1][i] == traces[i];
      if |traces[|traces| - 1].1| > prev then |traces[|traces| - 1].1| else prev
  }

  /** `np.pad(s, (0, n - len(s)), constant_values=np.nan)` */
  function Pad(s: seq<real>, n: nat): (p: seq<ExtReal>)
    requires |s| <= n
    ensures |p| == n
  {
    seq(n, k requires 0 <= k < n => if k < |s| then Finite(s[k]) else NaN)
  }

  /** Lines 62-71 for one compound: every trace padded to the longest. */
  function Padded(traces: Dict<seq<real>>): (p: Dict<seq<ExtReal>>)
    ensures Keys(p) == Keys(traces)
  {
    seq(|traces|, i requires 0 <= i < |traces| => (traces[i].0, Pad(traces[i].1, MaxLen(traces))))
  }

  /** After padding, all traces of a compound have the length of its longest
      trace, each keeps its values as a prefix and the rest is NaN. */
  lemma PaddedShape(traces: Dict<seq<real>>)
    requires |traces| > 0
    ensures var p := Padded(traces);
      exists j :: 0 <= j < |traces| && forall i :: 0 <= i < |p| ==> |p[i].1| == |traces[j].1|
    ensures var p := Padded(traces);
      forall i, k :: 0 <= i < |p| && 0 <= k < |p[i].1| ==>
        (k < |traces[i].1| ==> p[i].1[k] == Finite(traces[i].1[k])) &&
        (k >= |traces[i].1| ==> p[i].1[k] == NaN)
  {
    var j :| 0 <= j < |traces| && |traces[j].1| == MaxLen(traces);
  }

  /** Lines 62-65: the longest trace length. */
  method LongestTrace(traces: Dict<seq<real>>) returns (maxLen: nat)
    ensures maxLen == MaxLen(traces)
  {
    maxLen := 0;
    for i := 0 to |traces|
      invariant maxLen == MaxLen(traces[..i])
    {
      assert traces[..i + 1][..i] == traces[..i];
      if |traces[i].1| > maxLen {
        maxLen := |traces[i].1|;
      }
    }
    assert traces[..|traces|] == traces;
  }

  /** A trace's values as they stand before padding. */
  function Lift(s: seq<real>): (q: seq<ExtReal>)
    ensures |q| == |s| && forall k :: 0 <= k < |s| ==> q[k] == Finite(s[k])
  {
    seq(|s|, k requires 0 <= k < |s| => Finite(s[k]))
  }

  /** Appending NaNs to a trace's values up to `n` is padding it. */
  lemma PadByAppend(s: seq<real>, n: nat)
    requires |s| <= n
    ensures Lift(s) + seq(n - |s|, k => NaN) == Pad(s, n)
  {
  }

  /** The traces with the first `i` padded to `n` and the rest as they were. */
  function PaddedUpTo(traces: Dict<seq<real>>, n: nat, i: nat): (p: Dict<seq<ExtReal>>)
    requires forall j :: 0 <= j < |traces| ==> |traces[j].1| <= n
    ensures |p| == |traces|
  {
    seq(|traces|, j requires 0 <= j < |traces| =>
      (traces[j].0, if j < i then Pad(traces[j].1, n) else Lift(traces[j].1)))
  }

  /** Lines 62-71: the longest length, then each trace replaced in place by
      its padded version. */
  method PadTraces(traces: Dict<seq<real>>) returns (padded: Dict<seq<ExtReal>>)
    ensures padded == Padded(traces)
  {
    var maxLen := LongestTrace(traces);
    padded := seq(|traces|, i requires 0 <= i < |traces| => (traces[i].0, Lift(traces[i].1)));
    assert padded == PaddedUpTo(traces, maxLen, 0);
    for i := 0 to |traces|
      invariant padded == PaddedUpTo(traces, maxLen, i)
    {
      PadByAppend(traces[i].1, maxLen);
      var padLen := maxLen - |padded[i].1|;
      var p := padded[i].1 + seq(padLen, k => NaN);
      padded := padded[i := (padded[i].0, p)];
      assert padded == PaddedUpTo(traces, maxLen, i + 1);
    }
    assert padded == Padded(traces);
  }

  /** Lines 56-77, one padded table per compound token. */
  function PaddedAll(g: Grouping): (p: Dict<Dict<seq<ExtReal>>>)
    ensures Keys(p) == Keys(g)
  {
    seq(|g|, i requires 0 <= i < |g| => (g[i].0, Padded(g[i].1)))
  }

  /** `compound_wise_dataframes(data_report_list, data_names)`, with each
      DataFrame given as the padded traces it is built from. */
  method CompoundWiseDataframes(reports: seq<Report>, names: seq<string>)
    returns (res: Result<Dict<Dict<seq<ExtReal>>>>)
    ensures res.Fail? <==> |names| > 0 && |reports| > |names|
    ensures res.Fail? ==> res.error == IndexError
    ensures res.Ok? ==> res.value == PaddedAll(Grouped(reports, names).value)
  {
    var grouped := GroupReports(reports, names);
    if grouped.Fail? {
      return Fail(IndexError);
    }
    var g := grouped.value;
    var frames: Dict<Dict<seq<ExtReal>>> := [];
    for i := 0 to |g|
      invariant frames == PaddedAll(g[..i])
    {
      var p := PadTraces(g[i].1);
      frames := frames + [(g[i].0, p)];
    }
    assert g[..|g|] == g;
    return Ok(frames);
  }

  /** `y[j + w] - y[j]` for every `j` where both exist. */
  function LagDiffs(y: seq<real>, w: nat): (r: seq<real>)
    ensures |r| == Max0(|y| - w)
  {
    seq(Max0(|y| - w), k requires 0 <= k < Max0(|y| - w) => y[k + w] - y[k])
  }

  /** What `differential(val, t_interval)` returns or raises: for each
      interval `t` a list with, for each series of `val[0]`, its lag-(t/30)
      differences centered and divided by `np.std` (the parameter `std`). */
  function DifferentialOutcome(val: seq<seq<seq<real>>>, tInterval: seq<int>, std: seq<real> -> real)
    : (r: Result<seq<seq<seq<ExtReal>>>>)
    requires forall i :: 0 <= i < |tInterval| ==> tInterval[i] > 0 && tInterval[i] % 30 == 0
    ensures r.Fail? <==> |tInterval| > 0 && |val| == 0
    ensures r.Fail? ==> r.error == IndexError
    ensures r.Ok? ==> |r.value| == |tInterval|
    ensures r.Ok? ==> forall i :: 0 <= i < |tInterval| ==> |r.value[i]| == |val[0]|
  {
    if |tInterval| > 0 && |val| == 0 then Fail(IndexError)
    else Ok(seq(|tInterval|, i requires 0 <= i < |tInterval| => NormalisedLags(val[0], tInterval[i] / 30, std)))
  }

  /** For each series, its lag-`w` differences centered and scaled. */
  function NormalisedLags(series: seq<seq<real>>, w: nat, std: seq<real> -> real): (r: seq<seq<ExtReal>>)
    ensures |r| == |series|
  {
    seq(|series|, k requires 0 <= k < |series| => Normalised(LagDiffs(series[k], w), std))
  }

  /** Lines 210-219: the inner loop over the series of one interval. */
  method LagRows(series: seq<seq<real>>, w: nat, std: seq<real> -> real) returns (combLag: seq<seq<ExtReal>>)
    requires w > 0
    ensures combLag == NormalisedLags(series, w, std)
  {
    combLag := [];
    for k := 0 to |series|
      invariant |combLag| == k
      invariant forall j :: 0 <= j < k ==> combLag[j] == Normalised(LagDiffs(series[j], w), std)
    {
      var lag := LagDifferences(series[k], w);
      assert lag == LagDiffs(series[k], w);
      var normFlow := CenterAndScale(lag, std);
      combLag := combLag + [normFlow];
    }
  }

  /** `differential(val, t_interval)` (lines 200-221). */
  method Differential(val: seq<seq<seq<real>>>, tInterval: seq<int>, std: seq<real> -> real)
    returns (res: Result<seq<seq<seq<ExtReal>>>>)
    requires forall i :: 0 <= i < |tInterval| ==> tInterval[i] > 0 && tInterval[i] % 30 == 0
    ensures res == DifferentialOutcome(val, tInterval, std)
  {
    var d: seq<seq<seq<ExtReal>>> := [];
    for t := 0 to |tInterval|
      invariant |d| == t
      invariant t > 0 ==> |val| > 0
      invariant forall i :: 0 <= i < t ==> d[i] == NormalisedLags(val[0], tInterval[i] / 30, std)
    {
      var w := tInterval[t] / 30;
      if |val| == 0 {
        return Fail(IndexError);
      }
      var combLag := LagRows(val[0], w, std);
      d := d + [combLag];
    }
    assert |tInterval| > 0 ==> |val| > 0;
    assert d == DifferentialOutcome(val, tInterval, std).value;
    return Ok(d);
  }

  /** Entry `k` of list `i` holds the differences `y[j + w] - y[j]` of series
      `y = val[0][k]` at `w = t/30`, centered, so that once `np.std` is
      non-zero the values are finite and sum to zero. */
  lemma DifferentialCentered(val: seq<seq<seq<real>>>, tInterval: seq<int>, std: seq<real> -> real, i: nat, k: nat)
    requires forall i :: 0 <= i < |tInterval| ==> tInterval[i] > 0 && tInterval[i] % 30 == 0
    requires DifferentialOutcome(val, tInterval, std).Ok?
    requires i < |tInterval| && k < |val[0]|
    requires var x := LagDiffs(val[0][k], tInterval[i] / 30); |x| > 0 && std(Centered(x)) != 0.0
    ensures var out := DifferentialOutcome(val, tInterval, std).value[i][k];
      |out| == |val[0][k]| - tInterval[i] / 30 &&
      (forall j :: 0 <= j < |out| ==> out[j].Finite?) &&
      Sum(seq(|out|, j requires 0 <= j < |out| => out[j].r)) == 0.0
  {
    var x := LagDiffs(val[0][k], tInterval[i] / 30);
    assert DifferentialOutcome(val, tInterval, std).value[i][k] == Normalised(x, std);
    NormalisedSumsToZero(x, std);
  }

  /** What `corr(val, flow, index, interval, ...)` computes before writing
      its files: the rows of `correlation`, except that a batch with
      `max(r) == |min(r)|` or with a NaN coefficient leaves `corr_range`
      unbound and raises NameError. */
  function CorrOutcome(val: seq<seq<Trace>>, flow: seq<seq<Trace>>, interval: seq<int>,
                       pearson: (Trace, Trace) -> Coefficient, cmap: int -> string): (r: Result<seq<seq<(real, string)>>>)
    ensures r.Ok? ==> r == CorrelationOutcome(val, flow, interval, pearson, cmap)
    ensures r.Fail? && r.error != NameError ==> r == CorrelationOutcome(val, flow, interval, pearson, cmap)
    ensures r.Fail? && r.error == NameError ==> CorrelationOutcome(val, flow, interval, pearson, cmap) == Fail(IndexError)
  {
    var table :- CorrTable(val, flow, pearson);
    if !Rectangular(table) then Fail(ValueError)
    else
      var flat := Flatten(table);
      if |flat| == 0 then Fail(ValueError)
      else if !AllDefined(flat) then Fail(NameError)
      else match SymmetricRange(Values(flat))
        case None => Fail(NameError)
        case Some(m) =>
          if |interval| > |table| then Fail(IndexError)
          else
            DefinedOfFlat(table);
            Ok(Coloured(table, |interval|, m, cmap))
  }

  /** Lines 228-258 of `corr`. */
  method Corr(val: seq<seq<Trace>>, flow: seq<seq<Trace>>, interval: seq<int>,
              pearson: (Trace, Trace) -> Coefficient, cmap: int -> string)
    returns (res: Result<seq<seq<(real, string)>>>)
    ensures res == CorrOutcome(val, flow, interval, pearson, cmap)
  {
    var allCorr :- PearsonTable(val, flow, pearson);
    if !Rectangular(allCorr) {
      return Fail(ValueError);
    }
    var flat := Flatten(allCorr);
    if |flat| == 0 {
      return Fail(ValueError);
    }
    if !AllDefined(flat) {
      return Fail(NameError);
    }
    var range := SymmetricRange(Values(flat));
    if range.None? {
      return Fail(NameError);
    }
    DefinedOfFlat(allCorr);
    res := ColourRows(allCorr, interval, range.value, cmap);
  }

  /** Lines 236-244: a tied batch always raises NameError in `corr`. */
  lemma CorrTieRaises(val: seq<seq<Trace>>, flow: seq<seq<Trace>>, interval: seq<int>,
                      pearson: (Trace, Trace) -> Coefficient, cmap: int -> string)
    requires CorrTable(val, flow, pearson).Ok? && Rectangular(CorrTable(val, flow, pearson).value)
    requires var flat := Flatten(CorrTable(val, flow, pearson).value);
      |flat| > 0 && AllDefined(flat) && Max(Values(flat)) == RAbs(Min(Values(flat)))
    ensures CorrOutcome(val, flow, interval, pearson, cmap) == Fail(NameError)
  {
  }
}
