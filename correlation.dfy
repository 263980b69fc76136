/** Correlation batch post-processing (`correlation` in
    processing_scripts_formose/data_analysis_functions.py).

    Pearson's r (`stats.pearsonr`) and the colour map (`LinearSegmentedColormap`
    followed by `rgb2hex`) are parameters `pearson` and `cmap`; what is modelled
    is the shape of the batch, the errors `pearsonr` and numpy raise, the
    symmetric colour range and the integer colour index fed to the colour map. */
module CorrelationAnalysis {
  import opened Wrappers
  import opened ExtReals
  import opened Series

  function RAbs(x: real): real { if x < 0.0 then -x else x }

  /** Python `int(x)` on a float: truncation toward zero. */
  function Trunc(x: real): (i: int)
    ensures x >= 0.0 ==> i as real <= x < i as real + 1.0
    ensures x < 0.0 ==> i as real - 1.0 < x <= i as real
  {
    if x >= 0.0 then x.Floor else -((-x).Floor)
  }

  /** `np.array(all_corr).flatten()`: the rows one after another. */
  function Flatten<T>(rows: seq<seq<T>>): (flat: seq<T>)
    ensures |rows| > 0 ==> flat == Flatten(rows[..|rows| - 1]) + rows[|rows| - 1]
    ensures forall a, k :: 0 <= a < |rows| && 0 <= k < |rows[a]| ==> rows[a][k] in flat
    ensures forall x :: x in flat ==> exists a, k :: 0 <= a < |rows| && 0 <= k < |rows[a]| && rows[a][k] == x
  {
    if |rows| == 0 then [] else
      var prev := Flatten(rows[..|rows| - 1]);
      var last := rows[|rows| - 1];
      assert forall a :: 0 <= a < |rows| - 1 ==> rows[..|rows| - 1][a] == rows[a];
      assert forall x :: x in prev + last ==> x in prev || x in last;
      prev + last
  }

  /** Lines 187-194: the half-width M of the colour range, the largest
      magnitude in the batch. `None` when `max(r) == |min(r)|`, where neither
      branch binds a range. */
  function SymmetricRange(flat: seq<real>): (m: Option<real>)
    requires |flat| > 0
    ensures m.None? <==> Max(flat) == RAbs(Min(flat))
    ensures m.Some? ==> m.value > 0.0
    ensures m.Some? ==> forall i :: 0 <= i < |flat| ==> -m.value <= flat[i] <= m.value
    ensures m.Some? ==> exists i :: 0 <= i < |flat| && RAbs(flat[i]) == m.value
  {
    var hi :| 0 <= hi < |flat| && flat[hi] == Max(flat);
    var lo :| 0 <= lo < |flat| && flat[lo] == Min(flat);
    if Max(flat) > RAbs(Min(flat)) then
      assert RAbs(flat[hi]) == Max(flat);
      Some(Max(flat))
    else if RAbs(Min(flat)) > Max(flat) then
      assert RAbs(flat[lo]) == RAbs(Min(flat));
      Some(RAbs(Min(flat)))
    else None
  }

  /** Lines 204 and 213: `conv_val = 360 - (y + M) * mult` with
      `mult = 360 / (abs(-M) + M)`. */
  function ConvVal(y: real, m: real): real
    requires m > 0.0
  {
    var mult := 360.0 / (RAbs(-m) + m);
    360.0 - (y + m) * mult
  }

  /** Line 215: the index `360 - int(conv_val)` handed to the 360-step
      colour map for a correlation `y` in a batch of half-width `m`. */
  function ColourIndex(y: real, m: real): int
    requires m > 0.0
  {
    360 - Trunc(ConvVal(y, m))
  }

  lemma MulMonotone(x: real, y: real, k: real)
    requires x <= y && 0.0 <= k
    ensures x * k <= y * k
  {
    assert y * k - x * k == (y - x) * k;
  }

  lemma ScaleChain(a: real, b: real, c: real, k: real)
    requires 0.0 <= a <= b <= c && 0.0 <= k
    ensures 0.0 <= a * k <= b * k <= c * k
  {
    MulMonotone(0.0, a, k);
    MulMonotone(a, b, k);
    MulMonotone(b, c, k);
  }

  lemma FloorMonotone(x: real, y: real)
    requires x <= y
    ensures x.Floor <= y.Floor
  {
    var fx, fy := x.Floor, y.Floor;
    assert fx as real <= x && y < fy as real + 1.0;
    assert fx as real < fy as real + 1.0;
    assert fx < fy + 1;
  }

  /** Inside the range, `conv_val` falls from 360 at `-M` to 0 at `M`. */
  lemma ConvValRange(y1: real, y2: real, m: real)
    requires m > 0.0 && -m <= y1 <= y2 <= m
    ensures 0.0 <= ConvVal(y2, m) <= ConvVal(y1, m) <= 360.0
  {
    assert RAbs(-m) == m;
    var mult := 360.0 / (RAbs(-m) + m);
    assert mult > 0.0;
    assert (m + m) * mult == 360.0;
    ScaleChain(y1 + m, y2 + m, m + m, mult);
  }

  /** Inside the range, the index lies in [0, 360]. */
  lemma ColourIndexBounds(y: real, m: real)
    requires m > 0.0 && -m <= y <= m
    ensures 0 <= ColourIndex(y, m) <= 360
  {
    ConvValRange(y, y, m);
    FloorMonotone(0.0, ConvVal(y, m));
    FloorMonotone(ConvVal(y, m), 360.0);
  }

  /** The ends of the range map to the ends of the colour map. */
  lemma ColourIndexEnds(m: real)
    requires m > 0.0
    ensures ColourIndex(-m, m) == 0
    ensures ColourIndex(m, m) == 360
  {
    assert RAbs(-m) == m;
    var mult := 360.0 / (RAbs(-m) + m);
    assert (m + m) * mult == 360.0;
    assert ConvVal(-m, m) == 360.0;
    assert ConvVal(m, m) == 0.0;
  }

  /** A larger correlation never gets a smaller colour index. */
  lemma ColourIndexMonotone(y1: real, y2: real, m: real)
    requires m > 0.0 && -m <= y1 <= y2 <= m
    ensures ColourIndex(y1, m) <= ColourIndex(y2, m)
  {
    ConvValRange(y1, y2, m);
    FloorMonotone(ConvVal(y2, m), ConvVal(y1, m));
  }

  /** Some correlation of the batch reaches an end of the colour map. */
  lemma SymmetricRangeReached(flat: seq<real>)
    requires |flat| > 0 && SymmetricRange(flat).Some?
    ensures var m := SymmetricRange(flat).value;
      exists i :: 0 <= i < |flat| && (ColourIndex(flat[i], m) == 0 || ColourIndex(flat[i], m) == 360)
  {
    var m := SymmetricRange(flat).value;
    var i :| 0 <= i < |flat| && RAbs(flat[i]) == m;
    ColourIndexEnds(m);
    if flat[i] < 0.0 {
      assert flat[i] == -m;
    } else {
      assert flat[i] == m;
    }
  }

  /** A compound or flow series as `differential_means` returns it. */
  type Trace = seq<ExtReal>

  /** What `stats.pearsonr(y, x)[0]` returns once its arguments are accepted:
      a real coefficient, or NaN (for a constant series, say). */
  datatype Coefficient = Undefined | Coef(r: real)

  /** Line 182: `stats.pearsonr(y, x)` raises ValueError for series of
      different lengths or of fewer than two values; otherwise it returns
      what the parameter `pearson` gives. */
  function PearsonR(y: Trace, x: Trace, pearson: (Trace, Trace) -> Coefficient): (c: Result<Coefficient>)
    ensures c.Fail? <==> |y| != |x| || |y| < 2
    ensures c.Fail? ==> c.error == ValueError
    ensures c.Ok? ==> c.value == pearson(y, x)
  {
    if |y| != |x| || |y| < 2 then Fail(ValueError) else Ok(pearson(y, x))
  }

  /** `pearsonr(., x)` as a function of its first argument. */
  function PearsonWith(x: Trace, pearson: (Trace, Trace) -> Coefficient): Trace -> Result<Coefficient>
  {
    y => PearsonR(y, x, pearson)
  }

  /** Lines 179-184 for one interval: each compound series `ys[k]` correlated
      with the first flow series `xs[0]`, which is read once per compound. */
  function CorrRow(ys: seq<Trace>, xs: seq<Trace>, pearson: (Trace, Trace) -> Coefficient): (r: Result<seq<Coefficient>>)
    ensures r.Ok? ==> |r.value| == |ys|
    ensures r.Fail? ==> r.error in {IndexError, ValueError}
  {
    if |ys| == 0 then Ok([])
    else if |xs| == 0 then Fail(IndexError)
    else
      var r := MapResult(ys, PearsonWith(xs[0], pearson));
      if r.Fail? then
        var k :| 0 <= k < |ys| && PearsonWith(xs[0], pearson)(ys[k]) == Fail(r.error);
        r
      else r
  }

  /** `all_corr`, lines 175-184: one row per flow interval, `val[a]` correlated
      with `flow[a][0]`; the first exception of the loops, in loop order. */
  function CorrTable(val: seq<seq<Trace>>, flow: seq<seq<Trace>>, pearson: (Trace, Trace) -> Coefficient)
    : (r: Result<seq<seq<Coefficient>>>)
    ensures r.Ok? ==> |r.value| == |flow|
    ensures r.Fail? ==> r.error in {IndexError, ValueError}
    decreases |flow|
  {
    if |flow| == 0 then Ok([])
    else
      var prev :- CorrTable(val, flow[..|flow| - 1], pearson);
      var a := |flow| - 1;
      if a >= |val| then Fail(IndexError)
      else
        var row :- CorrRow(val[a], flow[a], pearson);
        Ok(prev + [row])
  }

  /** Every call of the loops is accepted: each flow interval has a compound
      list, a flow list read by a compound is non-empty, and each compound
      series has the length of `flow[a][0]`, at least two. */
  predicate Correlatable(val: seq<seq<Trace>>, flow: seq<seq<Trace>>)
  {
    |flow| <= |val| &&
    forall a :: 0 <= a < |flow| ==> RowCorrelatable(val[a], flow[a])
  }

  predicate RowCorrelatable(ys: seq<Trace>, xs: seq<Trace>)
  {
    |ys| > 0 ==> |xs| > 0 && forall k :: 0 <= k < |ys| ==> |ys[k]| == |xs[0]| && |ys[k]| >= 2
  }

  /** One interval raises exactly when it is not correlatable; otherwise entry `k` is `pearson(ys[k], xs[0])`. */
  lemma CorrRowSpec(ys: seq<Trace>, xs: seq<Trace>, pearson: (Trace, Trace) -> Coefficient)
    ensures CorrRow(ys, xs, pearson).Ok? <==> RowCorrelatable(ys, xs)
    ensures CorrRow(ys, xs, pearson).Ok? ==>
      forall k :: 0 <= k < |ys| ==> CorrRow(ys, xs, pearson).value[k] == pearson(ys[k], xs[0])
  {
    if |ys| > 0 && |xs| > 0 {
      var f := PearsonWith(xs[0], pearson);
      MapResultSpec(ys, f);
      if MapResult(ys, f).Fail? {
        var k :| 0 <= k < |ys| && f(ys[k]) == Fail(MapResult(ys, f).error);
      }
      if !RowCorrelatable(ys, xs) {
        var k :| 0 <= k < |ys| && !(|ys[k]| == |xs[0]| && |ys[k]| >= 2);
        assert f(ys[k]).Fail?;
      }
    }
  }

  /** The loops raise exactly when the batch is not correlatable; otherwise row `a` holds
      `pearson(val[a][k], flow[a][0])` for every compound `k` of `val[a]`. */
  lemma {:induction false} CorrTableSpec(val: seq<seq<Trace>>, flow: seq<seq<Trace>>, pearson: (Trace, Trace) -> Coefficient)
    ensures CorrTable(val, flow, pearson).Ok? <==> Correlatable(val, flow)
    ensures CorrTable(val, flow, pearson).Ok? ==> forall a :: 0 <= a < |flow| ==>
      |CorrTable(val, flow, pearson).value[a]| == |val[a]| &&
      forall k :: 0 <= k < |val[a]| ==> CorrTable(val, flow, pearson).value[a][k] == pearson(val[a][k], flow[a][0])
    decreases |flow|
  {
    if |flow| > 0 {
      var n := |flow| - 1;
      var pre := flow[..n];
      assert forall a :: 0 <= a < n ==> pre[a] == flow[a];
      CorrTableSpec(val, pre, pearson);
      if n < |val| {
        CorrRowSpec(val[n], flow[n], pearson);
      }
    }
  }

  /** One more interval continues the table of the intervals before it. */
  lemma CorrTableSnoc(val: seq<seq<Trace>>, flow: seq<seq<Trace>>, pearson: (Trace, Trace) -> Coefficient, a: nat)
    requires a < |flow|
    ensures CorrTable(val, flow[..a + 1], pearson) ==
      if CorrTable(val, flow[..a], pearson).Fail? then CorrTable(val, flow[..a], pearson)
      else if a >= |val| then Fail(IndexError)
      else if CorrRow(val[a], flow[a], pearson).Fail? then Fail(CorrRow(val[a], flow[a], pearson).error)
      else Ok(CorrTable(val, flow[..a], pearson).value + [CorrRow(val[a], flow[a], pearson).value])
  {
    assert flow[..a + 1][..a] == flow[..a];
  }

  /** Once the loops have raised, later intervals change nothing. */
  lemma {:induction false} CorrTableStop(val: seq<seq<Trace>>, flow: seq<seq<Trace>>, pearson: (Trace, Trace) -> Coefficient, n: nat)
    requires n <= |flow| && CorrTable(val, flow[..n], pearson).Fail?
    ensures CorrTable(val, flow, pearson) == CorrTable(val, flow[..n], pearson)
    decreases |flow|
  {
    if n < |flow| {
      var pre := flow[..|flow| - 1];
      assert pre[..n] == flow[..n];
      CorrTableStop(val, pre, pearson, n);
    } else {
      assert flow[..n] == flow;
    }
  }

  /** Lines 175-184. */
  method PearsonTable(val: seq<seq<Trace>>, flow: seq<seq<Trace>>, pearson: (Trace, Trace) -> Coefficient)
    returns (res: Result<seq<seq<Coefficient>>>)
    ensures res == CorrTable(val, flow, pearson)
  {
    var allCorr: seq<seq<Coefficient>> := [];
    for a := 0 to |flow|
      invariant CorrTable(val, flow[..a], pearson) == Ok(allCorr)
    {
      CorrTableSnoc(val, flow, pearson, a);
      if a >= |val| {
        CorrTableStop(val, flow, pearson, a + 1);
        return Fail(IndexError);
      }
      var row := PearsonRow(val[a], flow[a], pearson);
      if row.Fail? {
        CorrTableStop(val, flow, pearson, a + 1);
        return Fail(row.error);
      }
      allCorr := allCorr + [row.value];
    }
    assert flow[..|flow|] == flow;
    return Ok(allCorr);
  }

  /** Lines 179-183: the compound loop of one interval. */
  method PearsonRow(ys: seq<Trace>, x: seq<Trace>, pearson: (Trace, Trace) -> Coefficient)
    returns (res: Result<seq<Coefficient>>)
    ensures res == CorrRow(ys, x, pearson)
  {
    var corr: seq<Coefficient> := [];
    for k := 0 to |ys|
      invariant k > 0 ==> |x| > 0 && MapResult(ys[..k], PearsonWith(x[0], pearson)) == Ok(corr)
      invariant k == 0 ==> corr == []
    {
      if |x| == 0 {
        return Fail(IndexError);
      }
      var f := PearsonWith(x[0], pearson);
      var y := ys[k];
      assert ys[..0] == [];
      if |y| != |x[0]| || |y| < 2 {
        assert f(y) == Fail(ValueError);
        MapResultFirstFail(ys, f, k);
        return Fail(ValueError);
      }
      assert f(y) == Ok(pearson(y, x[0]));
      MapResultSnoc(ys, f, k, corr);
      corr := corr + [pearson(y, x[0])];
    }
    if |ys| > 0 {
      assert ys[..|ys|] == ys;
    }
    return Ok(corr);
  }

  /** `np.array(all_corr)` needs rows of one length: numpy raises ValueError
      on a ragged list. */
  predicate Rectangular<T>(rows: seq<seq<T>>)
  {
    forall a :: 0 <= a < |rows| ==> |rows[a]| == |rows[0]|
  }

  /** No coefficient of the batch is NaN. */
  predicate AllDefined(flat: seq<Coefficient>)
  {
    forall i :: 0 <= i < |flat| ==> flat[i].Coef?
  }

  predicate TableDefined(table: seq<seq<Coefficient>>)
  {
    forall a, k :: 0 <= a < |table| && 0 <= k < |table[a]| ==> table[a][k].Coef?
  }

  lemma DefinedOfFlat(table: seq<seq<Coefficient>>)
    requires AllDefined(Flatten(table))
    ensures TableDefined(table)
  {
    var flat: seq<Coefficient> := Flatten(table);
    forall a, k | 0 <= a < |table| && 0 <= k < |table[a]|
      ensures table[a][k].Coef?
    {
      assert table[a][k] in flat;
    }
  }

  /** The coefficients of a batch without NaN. */
  function Values(flat: seq<Coefficient>): (v: seq<real>)
    requires AllDefined(flat)
    ensures |v| == |flat| && forall i :: 0 <= i < |flat| ==> v[i] == flat[i].r
  {
    seq(|flat|, i requires 0 <= i < |flat| => flat[i].r)
  }

  /** Row `a` pairs each correlation of `table[a]` with the colour of its index. */
  function Coloured(table: seq<seq<Coefficient>>, rows: nat, m: real, cmap: int -> string): (c: seq<seq<(real, string)>>)
    requires rows <= |table| && m > 0.0 && TableDefined(table)
    ensures |c| == rows
  {
    seq(rows, a requires 0 <= a < rows =>
      seq(|table[a]|, k requires 0 <= k < |table[a]| => (table[a][k].r, cmap(ColourIndex(table[a][k].r, m)))))
  }

  /** Lines 207-217 (and lines 253-258 of plotting_functions.py): one row per
      entry of `interval`, each value with its colour. */
  method ColourRows(table: seq<seq<Coefficient>>, interval: seq<int>, m: real, cmap: int -> string)
    returns (res: Result<seq<seq<(real, string)>>>)
    requires m > 0.0 && TableDefined(table)
    ensures res.Ok? <==> |interval| <= |table|
    ensures res.Fail? ==> res.error == IndexError
    ensures res.Ok? ==> res.value == Coloured(table, |interval|, m, cmap)
  {
    var correlation: seq<seq<(real, string)>> := [];
    for a := 0 to |interval|
      invariant a <= |table|
      invariant correlation == Coloured(table, a, m, cmap)
    {
      if a >= |table| {
        return Fail(IndexError);
      }
      var lCol: seq<(real, string)> := [];
      for k := 0 to |table[a]|
        invariant |lCol| == k
        invariant forall j :: 0 <= j < k ==> lCol[j] == (table[a][j].r, cmap(ColourIndex(table[a][j].r, m)))
      {
        var y := table[a][k].r;
        lCol := lCol + [(y, cmap(ColourIndex(y, m)))];
      }
      assert lCol == Coloured(table, a + 1, m, cmap)[a];
      assert Coloured(table, a + 1, m, cmap) == Coloured(table, a, m, cmap) + [lCol];
      correlation := correlation + [lCol];
    }
    return Ok(correlation);
  }

  /** What `correlation(val, flow, interval)` returns or raises: the loops'
      exception; ValueError from `np.array` on ragged rows or from `np.amax`
      on an empty batch; IndexError at line 204 when no range was bound (a NaN
      coefficient makes both comparisons false, as does a tie); IndexError
      at `all_corr[a]` for too many intervals. */
  function CorrelationOutcome(val: seq<seq<Trace>>, flow: seq<seq<Trace>>, interval: seq<int>,
                              pearson: (Trace, Trace) -> Coefficient, cmap: int -> string)
    : (r: Result<seq<seq<(real, string)>>>)
    ensures r.Fail? ==> r.error in {IndexError, ValueError}
    ensures r.Ok? ==> CorrTable(val, flow, pearson).Ok? && |r.value| == |interval|
  {
    var table :- CorrTable(val, flow, pearson);
    if !Rectangular(table) then Fail(ValueError)
    else
      var flat := Flatten(table);
      if |flat| == 0 then Fail(ValueError)
      else if !AllDefined(flat) then Fail(IndexError)
      else match SymmetricRange(Values(flat))
        case None => Fail(IndexError)
        case Some(m) =>
          if |interval| > |table| then Fail(IndexError)
          else
            DefinedOfFlat(table);
            Ok(Coloured(table, |interval|, m, cmap))
  }

  /** `correlation(val, flow, interval)`. */
  method Correlation(val: seq<seq<Trace>>, flow: seq<seq<Trace>>, interval: seq<int>,
                     pearson: (Trace, Trace) -> Coefficient, cmap: int -> string)
    returns (res: Result<seq<seq<(real, string)>>>)
    ensures res == CorrelationOutcome(val, flow, interval, pearson, cmap)
  {
    var table :- PearsonTable(val, flow, pearson);
    if !Rectangular(table) {
      return Fail(ValueError);
    }
    var flat: seq<Coefficient> := Flatten(table);
    if |flat| == 0 {
      return Fail(ValueError);
    }
    if !AllDefined(flat) {
      return Fail(IndexError);
    }
    var range := SymmetricRange(Values(flat));
    if range.None? {
      return Fail(IndexError);
    }
    DefinedOfFlat(table);
    res := ColourRows(table, interval, range.value, cmap);
  }

  /** A batch whose largest value equals the magnitude of its smallest (an
      all-zero batch among them) has no colour range and raises. */
  lemma CorrelationTieRaises(val: seq<seq<Trace>>, flow: seq<seq<Trace>>, interval: seq<int>,
                             pearson: (Trace, Trace) -> Coefficient, cmap: int -> string)
    requires CorrTable(val, flow, pearson).Ok? && Rectangular(CorrTable(val, flow, pearson).value)
    requires var flat := Flatten(CorrTable(val, flow, pearson).value);
      |flat| > 0 && AllDefined(flat) && Max(Values(flat)) == RAbs(Min(Values(flat)))
    ensures CorrelationOutcome(val, flow, interval, pearson, cmap) == Fail(IndexError)
  {
  }

  /** A NaN coefficient anywhere in a rectangular batch leaves `corr_range`
      empty, so line 204 raises IndexError. */
  lemma CorrelationNaNRaises(val: seq<seq<Trace>>, flow: seq<seq<Trace>>, interval: seq<int>,
                             pearson: (Trace, Trace) -> Coefficient, cmap: int -> string, a: nat, k: nat)
    requires CorrTable(val, flow, pearson).Ok? && Rectangular(CorrTable(val, flow, pearson).value)
    requires a < |flow| && a < |val| && k < |val[a]| && |flow[a]| > 0
    requires pearson(val[a][k], flow[a][0]).Undefined?
    ensures CorrelationOutcome(val, flow, interval, pearson, cmap) == Fail(IndexError)
  {
    CorrTableSpec(val, flow, pearson);
    var table: seq<seq<Coefficient>> := CorrTable(val, flow, pearson).value;
    var flat: seq<Coefficient> := Flatten(table);
    assert table[a][k] in flat;
    var i :| 0 <= i < |flat| && flat[i] == table[a][k];
    assert !AllDefined(flat);
  }

  /** A compound series of fewer than two values (the empty differential of
      a trace no longer than two windows among them) or of another length
      than its flow series makes `correlation` raise. */
  lemma CorrelationShortRaises(val: seq<seq<Trace>>, flow: seq<seq<Trace>>, interval: seq<int>,
                               pearson: (Trace, Trace) -> Coefficient, cmap: int -> string, a: nat, k: nat)
    requires a < |flow| && a < |val| && k < |val[a]| && |flow[a]| > 0
    requires |val[a][k]| < 2 || |val[a][k]| != |flow[a][0]|
    ensures CorrelationOutcome(val, flow, interval, pearson, cmap).Fail?
  {
    CorrTableSpec(val, flow, pearson);
    assert !RowCorrelatable(val[a], flow[a]);
  }

  /** A success passed every check of `correlation`. */
  lemma CorrelationOk(val: seq<seq<Trace>>, flow: seq<seq<Trace>>, interval: seq<int>,
                      pearson: (Trace, Trace) -> Coefficient, cmap: int -> string)
    requires CorrelationOutcome(val, flow, interval, pearson, cmap).Ok?
    ensures CorrTable(val, flow, pearson).Ok?
    ensures var table := CorrTable(val, flow, pearson).value; var flat := Flatten(table);
      Rectangular(table) && |flat| > 0 && AllDefined(flat) && TableDefined(table) &&
      SymmetricRange(Values(flat)).Some? && |interval| <= |table| &&
      CorrelationOutcome(val, flow, interval, pearson, cmap).value ==
        Coloured(table, |interval|, SymmetricRange(Values(flat)).value, cmap)
  {
    DefinedOfFlat(CorrTable(val, flow, pearson).value);
  }

  /** An output pair holds the coefficient `c` and the colour of an index in
      [0, 360]. */
  predicate ColouredAs(entry: (real, string), c: Coefficient, cmap: int -> string)
  {
    c == Coef(entry.0) && exists i :: 0 <= i <= 360 && entry.1 == cmap(i)
  }

  /** On success there is one list per interval; list `a` pairs each value
      of `all_corr[a]`, in order, with the colour of an index in [0, 360]. */
  lemma CorrelationShape(val: seq<seq<Trace>>, flow: seq<seq<Trace>>, interval: seq<int>,
                         pearson: (Trace, Trace) -> Coefficient, cmap: int -> string)
    requires CorrelationOutcome(val, flow, interval, pearson, cmap).Ok?
    ensures Correlatable(val, flow) && |interval| <= |flow|
    ensures var out := CorrelationOutcome(val, flow, interval, pearson, cmap).value;
      |out| == |interval| &&
      forall a :: 0 <= a < |interval| ==>
        |out[a]| == |val[a]| &&
        forall k :: 0 <= k < |val[a]| ==> ColouredAs(out[a][k], pearson(val[a][k], flow[a][0]), cmap)
  {
    CorrelationOk(val, flow, interval, pearson, cmap);
    CorrTableSpec(val, flow, pearson);
    var table: seq<seq<Coefficient>> := CorrTable(val, flow, pearson).value;
    var vals := Values(Flatten(table));
    ColouredShape(val, flow, table, |interval|, vals, SymmetricRange(vals).value, pearson, cmap);
  }

  /** The coloured rows of a correlated batch, entry by entry. */
  lemma ColouredShape(val: seq<seq<Trace>>, flow: seq<seq<Trace>>, table: seq<seq<Coefficient>>, rows: nat,
                      vals: seq<real>, m: real, pearson: (Trace, Trace) -> Coefficient, cmap: int -> string)
    requires Correlatable(val, flow)
    requires rows <= |table| == |flow| && m > 0.0 && TableDefined(table)
    requires AllDefined(Flatten(table)) && vals == Values(Flatten(table))
    requires forall i :: 0 <= i < |vals| ==> -m <= vals[i] <= m
    requires forall a :: 0 <= a < |flow| ==>
      |table[a]| == |val[a]| && forall k :: 0 <= k < |val[a]| ==> table[a][k] == pearson(val[a][k], flow[a][0])
    ensures var out := Coloured(table, rows, m, cmap);
      forall a :: 0 <= a < rows ==>
        |out[a]| == |val[a]| &&
        forall k :: 0 <= k < |val[a]| ==> ColouredAs(out[a][k], pearson(val[a][k], flow[a][0]), cmap)
  {
    var out: seq<seq<(real, string)>> := Coloured(table, rows, m, cmap);
    forall a | 0 <= a < rows
      ensures |out[a]| == |val[a]|
      ensures forall k :: 0 <= k < |val[a]| ==> ColouredAs(out[a][k], pearson(val[a][k], flow[a][0]), cmap)
    {
      forall k | 0 <= k < |val[a]|
        ensures ColouredAs(out[a][k], pearson(val[a][k], flow[a][0]), cmap)
      {
        ColouredEntry(table, rows, vals, m, cmap, a, k);
        var i := ColourIndex(table[a][k].r, m);
        assert out[a][k].1 == cmap(i);
      }
    }
  }

  /** Entry `k` of row `a` is the coefficient with the colour of an index in
      [0, 360], when the range covers the batch. */
  lemma ColouredEntry(table: seq<seq<Coefficient>>, rows: nat, vals: seq<real>, m: real, cmap: int -> string, a: nat, k: nat)
    requires rows <= |table| && m > 0.0 && TableDefined(table)
    requires AllDefined(Flatten(table)) && vals == Values(Flatten(table))
    requires forall i :: 0 <= i < |vals| ==> -m <= vals[i] <= m
    requires a < rows && k < |table[a]|
    ensures Coloured(table, rows, m, cmap)[a][k] == (table[a][k].r, cmap(ColourIndex(table[a][k].r, m)))
    ensures 0 <= ColourIndex(table[a][k].r, m) <= 360
  {
    var flat := Flatten(table);
    var y := table[a][k];
    assert y in flat;
    var i :| 0 <= i < |flat| && flat[i] == y;
    assert vals[i] == y.r;
    ColourIndexBounds(y.r, m);
  }

  /** Some coefficient of a defined table has the table's largest magnitude,
      so it gets colour index 0 or 360. */
  lemma TableRangeReached(table: seq<seq<Coefficient>>)
    requires AllDefined(Flatten(table)) && |Flatten(table)| > 0
    requires SymmetricRange(Values(Flatten(table))).Some?
    ensures var m := SymmetricRange(Values(Flatten(table))).value;
      exists a, k :: 0 <= a < |table| && 0 <= k < |table[a]| && table[a][k].Coef? &&
        (ColourIndex(table[a][k].r, m) == 0 || ColourIndex(table[a][k].r, m) == 360)
  {
    var flat: seq<Coefficient> := Flatten(table);
    var vals := Values(flat);
    SymmetricRangeReached(vals);
    var m := SymmetricRange(vals).value;
    var i :| 0 <= i < |vals| && (ColourIndex(vals[i], m) == 0 || ColourIndex(vals[i], m) == 360);
    assert flat[i] in flat;
    var a, k :| 0 <= a < |table| && 0 <= k < |table[a]| && table[a][k] == flat[i];
    assert table[a][k].Coef? && table[a][k].r == vals[i];
  }

  /** On success the colour range is the batch's largest magnitude: some
      coefficient of `all_corr` gets colour index 0 or 360. */
  lemma CorrelationRangeReached(val: seq<seq<Trace>>, flow: seq<seq<Trace>>, interval: seq<int>,
                                pearson: (Trace, Trace) -> Coefficient, cmap: int -> string)
    requires CorrelationOutcome(val, flow, interval, pearson, cmap).Ok?
    ensures var table := CorrTable(val, flow, pearson).value; var vals := Values(Flatten(table));
      exists a, k :: 0 <= a < |table| && 0 <= k < |table[a]| && table[a][k].Coef? &&
        (ColourIndex(table[a][k].r, SymmetricRange(vals).value) == 0 ||
         ColourIndex(table[a][k].r, SymmetricRange(vals).value) == 360)
  {
    CorrelationOk(val, flow, interval, pearson, cmap);
    TableRangeReached(CorrTable(val, flow, pearson).value);
  }
}
