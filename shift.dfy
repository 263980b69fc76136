/** Compound-key lookup and compositional-shift bookkeeping
    (`data_averages`, `data_standard_deviations`, `data_p_values`,
    `difference_average` and `normalized_difference` in
    processing_scripts_formose/data_analysis_functions.py).

    A compound is looked up in a data report by the last key that contains its
    token; a compound with no such key is replaced by a default series. The
    t-test (`stats.ttest_ind`) and the sample standard deviation are parameters. */
module CompositionalShift {
  import opened Wrappers
  import opened ExtReals
  import opened Series
  import opened Dicts
  import opened Strings
  import opened Differencing

  /** The token the search starts from (lines 75, 249 and 261). */
  const NoComp: string := "no_comp"

  /** Lines 76-79: the last key containing `compound`, or "no_comp". */
  function Token(keys: seq<string>, compound: string): (tok: string)
    ensures tok == NoComp || tok in keys
    ensures tok != NoComp ==> Contains(tok, compound)
  {
    match LastMatch(keys, compound)
    case Some(i) => keys[i]
    case None => NoComp
  }

  method FindToken<V>(report: Dict<V>, compound: string) returns (token: string)
    ensures token == Token(Keys(report), compound)
  {
    var found, idx := FindLastKey(report, compound);
    token := if found then report[idx].0 else NoComp;
  }

  /** `averages[compound] = np.average(data[compound])` for every key (lines 20-25). */
  method DataAverages(data: Dict<seq<real>>) returns (averages: Dict<ExtReal>)
    requires DistinctKeys(data)
    ensures Keys(averages) == Keys(data)
    ensures forall i :: 0 <= i < |data| ==> averages[i].1 == MeanOrNaN(data[i].1)
  {
    averages := [];
    for i := 0 to |data|
      invariant Keys(averages) == Keys(data[..i])
      invariant forall j :: 0 <= j < i ==> averages[j].1 == MeanOrNaN(data[j].1)
    {
      assert data[i].0 !in Keys(averages);
      ghost var before := averages;
      averages := Put(averages, data[i].0, MeanOrNaN(data[i].1));
      assert averages == before + [(data[i].0, MeanOrNaN(data[i].1))];
      assert data[..i + 1] == data[..i] + [data[i]];
    }
    assert data[..|data|] == data;
  }

  /** `st_devs[compound] = np.std(data[compound], ddof=1)` for every key (lines 40-45). */
  method DataStandardDeviations(data: Dict<seq<real>>, stdev: seq<real> -> ExtReal)
    returns (stDevs: Dict<ExtReal>)
    requires DistinctKeys(data)
    ensures Keys(stDevs) == Keys(data)
    ensures forall i :: 0 <= i < |data| ==> stDevs[i].1 == stdev(data[i].1)
  {
    stDevs := [];
    for i := 0 to |data|
      invariant Keys(stDevs) == Keys(data[..i])
      invariant forall j :: 0 <= j < i ==> stDevs[j].1 == stdev(data[j].1)
    {
      assert data[i].0 !in Keys(stDevs);
      ghost var before := stDevs;
      stDevs := Put(stDevs, data[i].0, stdev(data[i].1));
      assert stDevs == before + [(data[i].0, stdev(data[i].1))];
      assert data[..i + 1] == data[..i] + [data[i]];
    }
    assert data[..|data|] == data;
  }

  /** The series of `token` in a report, or `[0]` when the token is not a key. */
  function SeriesOrZero(report: Dict<seq<real>>, token: string): (s: seq<real>)
    ensures token in Keys(report) ==> exists i :: 0 <= i < |report| && report[i] == (token, s)
    ensures token !in Keys(report) ==> s == [0.0]
  {
    if token in Keys(report) then Get(report, token) else [0.0]
  }

  /** `data_p_values` (lines 61-98): each compound stores the p-value under its
      token in the perturbed report, so compounds missing there share "no_comp". */
  function PValues(steady: Dict<seq<real>>, perturbed: Dict<seq<real>>, listComp: seq<(string, string)>,
                   ttest: (seq<real>, seq<real>) -> real): (p: Dict<real>)
    ensures DistinctKeys(p)
    ensures forall k :: k in Keys(p) ==> k == NoComp || k in Keys(perturbed)
    ensures |p| <= |listComp|
  {
    if |listComp| == 0 then []
    else
      var prev := PValues(steady, perturbed, listComp[..|listComp| - 1], ttest);
      var compound := listComp[|listComp| - 1].1;
      var tok1 := Token(Keys(steady), compound);
      var tok2 := Token(Keys(perturbed), compound);
      Put(prev, tok2, ttest(SeriesOrZero(steady, tok1), SeriesOrZero(perturbed, tok2)))
  }

  /** One more compound stores its p-value under its perturbed token. */
  lemma PValuesSnoc(steady: Dict<seq<real>>, perturbed: Dict<seq<real>>, listComp: seq<(string, string)>,
                    ttest: (seq<real>, seq<real>) -> real, c: nat)
    requires c < |listComp|
    ensures var tok1 := Token(Keys(steady), listComp[c].1);
      var tok2 := Token(Keys(perturbed), listComp[c].1);
      PValues(steady, perturbed, listComp[..c + 1], ttest) ==
        Put(PValues(steady, perturbed, listComp[..c], ttest), tok2,
            ttest(SeriesOrZero(steady, tok1), SeriesOrZero(perturbed, tok2)))
  {
    assert listComp[..c + 1][..c] == listComp[..c];
  }

  method DataPValues(steady: Dict<seq<real>>, perturbed: Dict<seq<real>>, listComp: seq<(string, string)>,
                     ttest: (seq<real>, seq<real>) -> real) returns (pValues: Dict<real>)
    ensures pValues == PValues(steady, perturbed, listComp, ttest)
  {
    pValues := [];
    for c := 0 to |listComp|
      invariant pValues == PValues(steady, perturbed, listComp[..c], ttest)
    {
      PValuesSnoc(steady, perturbed, listComp, ttest, c);
      var compound := listComp[c].1;
      var tok1 := FindToken(steady, compound);
      var dist1 := if tok1 in Keys(steady) then Get(steady, tok1) else [0.0];
      var tok2 := FindToken(perturbed, compound);
      var dist2 := if tok2 in Keys(perturbed) then Get(perturbed, tok2) else [0.0];
      pValues := Put(pValues, tok2, ttest(dist1, dist2));
    }
    assert listComp[..|listComp|] == listComp;
  }

  /** `[i for i in s if i != 0]` */
  function NonZero(s: seq<real>): (r: seq<real>)
    ensures forall i :: 0 <= i < |r| ==> r[i] != 0.0 && r[i] in s
    ensures forall x :: x in s && x != 0.0 ==> x in r
  {
    if |s| == 0 then []
    else
      var rest := NonZero(s[..|s| - 1]);
      assert forall x :: x in s[..|s| - 1] ==> x in s;
      assert forall x :: x in s ==> x in s[..|s| - 1] || x == s[|s| - 1];
      if s[|s| - 1] != 0.0 then rest + [s[|s| - 1]] else rest
  }

  /** Lines 249-274: relative difference of the perturbed mean from the steady
      mean, zeros removed; a compound absent from the steady report has steady
      series `[0]`, one absent from the perturbed report has mean NaN, and a
      NaN result is replaced by 0. */
  function RelativeDifference(steady: Dict<seq<real>>, perturbed: Dict<seq<real>>, compound: string): (r: ExtReal)
    ensures !r.NaN?
  {
    var tok1 := Token(Keys(steady), compound);
    var mean1 := if tok1 in Keys(steady) then MeanOrNaN(NonZero(Get(steady, tok1))) else Finite(0.0);
    var tok2 := Token(Keys(perturbed), compound);
    var mean2 := if tok2 in Keys(perturbed) then MeanOrNaN(NonZero(Get(perturbed, tok2))) else NaN;
    var result := Div(Sub(mean2, mean1), mean1);
    if result.NaN? then Finite(0.0) else result
  }

  /** A compound absent from the perturbed report contributes 0. */
  lemma AbsentFromPerturbedIsZero(steady: Dict<seq<real>>, perturbed: Dict<seq<real>>, compound: string)
    requires Token(Keys(perturbed), compound) !in Keys(perturbed)
    ensures RelativeDifference(steady, perturbed, compound) == Finite(0.0)
  {
  }

  /** A compound absent from the steady report but present with a positive
      mean in the perturbed one gives +inf (the value later normalised to 1). */
  lemma AbsentFromSteadyIsInfinite(steady: Dict<seq<real>>, perturbed: Dict<seq<real>>, compound: string)
    requires Token(Keys(steady), compound) !in Keys(steady)
    requires Token(Keys(perturbed), compound) in Keys(perturbed)
    requires var s := NonZero(Get(perturbed, Token(Keys(perturbed), compound))); |s| > 0 && Mean(s) > 0.0
    ensures RelativeDifference(steady, perturbed, compound) == PosInf
  {
  }

  /** The state after `difference_average` and whether it completed: one value
      appended per entry of `listComp`, stopping at the first index that is
      not a key of the table (KeyError at line 276). */
  function AppendDifferences(table: Dict<seq<ExtReal>>, steady: Dict<seq<real>>, perturbed: Dict<seq<real>>,
                             listComp: seq<(string, string)>): (Dict<seq<ExtReal>>, bool)
  {
    if |listComp| == 0 then (table, true)
    else
      var prev := AppendDifferences(table, steady, perturbed, listComp[..|listComp| - 1]);
      var ind := listComp[|listComp| - 1].0;
      if !prev.1 || ind !in Keys(prev.0) then (prev.0, false)
      else (Put(prev.0, ind, Get(prev.0, ind) + [RelativeDifference(steady, perturbed, listComp[|listComp| - 1].1)]), true)
  }

  /** Once an index is missing, the rest of `listComp` changes nothing. */
  lemma {:induction false} AppendDifferencesStops(table: Dict<seq<ExtReal>>, steady: Dict<seq<real>>,
                                                  perturbed: Dict<seq<real>>, listComp: seq<(string, string)>, c: nat)
    requires c <= |listComp| && !AppendDifferences(table, steady, perturbed, listComp[..c]).1
    ensures AppendDifferences(table, steady, perturbed, listComp) == AppendDifferences(table, steady, perturbed, listComp[..c])
    decreases |listComp|
  {
    if c < |listComp| {
      var pre := listComp[..|listComp| - 1];
      assert pre[..c] == listComp[..c];
      AppendDifferencesStops(table, steady, perturbed, pre, c);
    } else {
      assert listComp[..c] == listComp;
    }
  }

  /** The values appended for key `k`, in order. */
  function AppendedFor(steady: Dict<seq<real>>, perturbed: Dict<seq<real>>, listComp: seq<(string, string)>,
                       k: string): seq<ExtReal>
  {
    if |listComp| == 0 then []
    else
      var prev := AppendedFor(steady, perturbed, listComp[..|listComp| - 1], k);
      if listComp[|listComp| - 1].0 == k then prev + [RelativeDifference(steady, perturbed, listComp[|listComp| - 1].1)]
      else prev
  }

  /** `difference_average` keeps the keys of the table. */
  lemma {:induction false} AppendDifferencesKeys(table: Dict<seq<ExtReal>>, steady: Dict<seq<real>>,
                                                 perturbed: Dict<seq<real>>, listComp: seq<(string, string)>)
    requires DistinctKeys(table)
    ensures Keys(AppendDifferences(table, steady, perturbed, listComp).0) == Keys(table)
    ensures DistinctKeys(AppendDifferences(table, steady, perturbed, listComp).0)
  {
    if |listComp| > 0 {
      AppendDifferencesKeys(table, steady, perturbed, listComp[..|listComp| - 1]);
    }
  }

  /** Every index of a non-empty list is a key exactly when every index but
      the last is and the last one is too. */
  lemma AllKeysSnoc(listComp: seq<(string, string)>, keys: seq<string>)
    requires |listComp| > 0
    ensures var pre := listComp[..|listComp| - 1];
      (forall j :: 0 <= j < |listComp| ==> listComp[j].0 in keys) <==>
      (forall j :: 0 <= j < |pre| ==> pre[j].0 in keys) && listComp[|listComp| - 1].0 in keys
  {
    var pre := listComp[..|listComp| - 1];
    assert forall j :: 0 <= j < |pre| ==> pre[j] == listComp[j];
  }

  /** `difference_average` completes exactly when every index is a key. */
  lemma {:induction false} AppendDifferencesCompletes(table: Dict<seq<ExtReal>>, steady: Dict<seq<real>>,
                                                      perturbed: Dict<seq<real>>, listComp: seq<(string, string)>)
    requires DistinctKeys(table)
    ensures AppendDifferences(table, steady, perturbed, listComp).1 <==>
      forall j :: 0 <= j < |listComp| ==> listComp[j].0 in Keys(table)
  {
    if |listComp| > 0 {
      var pre := listComp[..|listComp| - 1];
      AppendDifferencesCompletes(table, steady, perturbed, pre);
      AppendDifferencesKeys(table, steady, perturbed, pre);
      var prev := AppendDifferences(table, steady, perturbed, pre);
      var ind := listComp[|listComp| - 1].0;
      assert AppendDifferences(table, steady, perturbed, listComp).1 == (prev.1 && ind in Keys(prev.0));
      AllKeysSnoc(listComp, Keys(table));
    }
  }

  /** When it completes, each list is extended by exactly the values of its
      own compounds, in order, and lists of other keys are unchanged. */
  lemma {:induction false} AppendDifferencesValues(table: Dict<seq<ExtReal>>, steady: Dict<seq<real>>,
                                                   perturbed: Dict<seq<real>>, listComp: seq<(string, string)>)
    requires DistinctKeys(table)
    requires AppendDifferences(table, steady, perturbed, listComp).1
    ensures forall k :: k in Keys(table) ==>
      k in Keys(AppendDifferences(table, steady, perturbed, listComp).0) &&
      Get(AppendDifferences(table, steady, perturbed, listComp).0, k) ==
        Get(table, k) + AppendedFor(steady, perturbed, listComp, k)
  {
    AppendDifferencesKeys(table, steady, perturbed, listComp);
    if |listComp| > 0 {
      var pre := listComp[..|listComp| - 1];
      AppendDifferencesValues(table, steady, perturbed, pre);
      AppendDifferencesKeys(table, steady, perturbed, pre);
      var prev := AppendDifferences(table, steady, perturbed, pre).0;
      var ind := listComp[|listComp| - 1].0;
      var v := RelativeDifference(steady, perturbed, listComp[|listComp| - 1].1);
      var r := Put(prev, ind, Get(prev, ind) + [v]);
      assert r == AppendDifferences(table, steady, perturbed, listComp).0;
      forall k | k in Keys(table)
        ensures Get(r, k) == Get(table, k) + AppendedFor(steady, perturbed, listComp, k)
      {
        if k != ind {
          PutOther(prev, ind, Get(prev, ind) + [v], k);
        }
      }
    }
  }

  /** The entries `np.isinf` rejects are dropped (lines 297-301). */
  function NonInf(c: seq<ExtReal>): (r: seq<ExtReal>)
    ensures forall i :: 0 <= i < |r| ==> !r[i].IsInf() && r[i] in c
    ensures forall x :: x in c && !x.IsInf() ==> x in r
  {
    if |c| == 0 then []
    else
      var rest := NonInf(c[..|c| - 1]);
      assert forall x :: x in c[..|c| - 1] ==> x in c;
      assert forall x :: x in c ==> x in c[..|c| - 1] || x == c[|c| - 1];
      if !c[|c| - 1].IsInf() then rest + [c[|c| - 1]] else rest
  }

  predicate NoInf(s: seq<ExtReal>) { forall i :: 0 <= i < |s| ==> !s[i].IsInf() }

  predicate HasNaN(s: seq<ExtReal>) { exists i :: 0 <= i < |s| && s[i].NaN? }

  function FiniteValues(s: seq<ExtReal>): (r: seq<real>)
    requires forall i :: 0 <= i < |s| ==> s[i].Finite?
    ensures |r| == |s|
  {
    seq(|s|, i requires 0 <= i < |s| => s[i].r)
  }

  /** `np.amax` on a non-empty list without infinities: NaN as soon as one
      entry is NaN. */
  function Amax(s: seq<ExtReal>): (m: ExtReal)
    requires |s| > 0 && NoInf(s)
    ensures m.NaN? <==> HasNaN(s)
    ensures !m.IsInf()
    ensures m.Finite? ==> forall i :: 0 <= i < |s| ==> s[i].Finite? && s[i].r <= m.r
    ensures m.Finite? ==> exists i :: 0 <= i < |s| && s[i] == m
  {
    if HasNaN(s) then NaN
    else
      var vals := FiniteValues(s);
      assert forall i :: 0 <= i < |s| ==> vals[i] == s[i].r;
      var i :| 0 <= i < |vals| && vals[i] == Max(vals);
      assert s[i] == Finite(Max(vals));
      Finite(Max(vals))
  }

  /** `np.amin`, likewise. */
  function Amin(s: seq<ExtReal>): (m: ExtReal)
    requires |s| > 0 && NoInf(s)
    ensures m.NaN? <==> HasNaN(s)
    ensures !m.IsInf()
    ensures m.Finite? ==> forall i :: 0 <= i < |s| ==> s[i].Finite? && m.r <= s[i].r
    ensures m.Finite? ==> exists i :: 0 <= i < |s| && s[i] == m
  {
    if HasNaN(s) then NaN
    else
      var vals := FiniteValues(s);
      assert forall i :: 0 <= i < |s| ==> vals[i] == s[i].r;
      var i :| 0 <= i < |vals| && vals[i] == Min(vals);
      assert s[i] == Finite(Min(vals));
      Finite(Min(vals))
  }

  /** Lines 305-306: the larger of the largest value and the magnitude of the
      smallest; NaN when a value is NaN. */
  function Scale(num: seq<ExtReal>): (s: ExtReal)
    requires |num| > 0 && NoInf(num)
    ensures s.NaN? <==> HasNaN(num)
    ensures !s.IsInf()
    ensures s.Finite? ==> forall i :: 0 <= i < |num| ==> num[i].Finite? && -s.r <= num[i].r <= s.r
    ensures s.Finite? ==> exists i :: 0 <= i < |num| && (num[i] == s || num[i] == Finite(-s.r))
  {
    var lMax := Amax(num);
    var lMin := Amin(num);
    if Gt(Abs(lMin), lMax) then Abs(lMin) else lMax
  }

  /** Lines 296-317 for one list: infinities become 1, every other value is
      divided by the scale; a list with no non-infinite value makes `np.amax`
      raise ValueError. */
  function NormalizedList(c: seq<ExtReal>): (r: Result<seq<ExtReal>>)
    ensures r.Fail? <==> forall i :: 0 <= i < |c| ==> c[i].IsInf()
    ensures r.Fail? ==> r.error == ValueError
    ensures r.Ok? ==> |r.value| == |c|
  {
    var num := NonInf(c);
    if |num| == 0 then
      assert forall i :: 0 <= i < |c| && !c[i].IsInf() ==> c[i] in num;
      Fail(ValueError)
    else
      assert num[0] in c;
      var scale := Scale(num);
      Ok(seq(|c|, i requires 0 <= i < |c| => if c[i].IsInf() then Finite(1.0) else Div(c[i], scale)))
  }

  lemma DivBound(x: real, s: real)
    requires s > 0.0 && -s <= x <= s
    ensures -1.0 <= x / s <= 1.0
  {
    assert x / s * s == x;
  }

  /** Infinities become 1 and every finite output lies in [-1, 1]. */
  lemma NormalizedListBounds(c: seq<ExtReal>)
    requires NormalizedList(c).Ok?
    ensures forall i :: 0 <= i < |c| && c[i].IsInf() ==> NormalizedList(c).value[i] == Finite(1.0)
    ensures forall i :: 0 <= i < |c| && NormalizedList(c).value[i].Finite? ==>
      -1.0 <= NormalizedList(c).value[i].r <= 1.0
  {
    var num := NonInf(c);
    var scale := Scale(num);
    var out := NormalizedList(c).value;
    forall i | 0 <= i < |c| && out[i].Finite?
      ensures -1.0 <= out[i].r <= 1.0
    {
      if !c[i].IsInf() {
        assert out[i] == Div(c[i], scale);
        assert c[i].Finite? && scale.Finite?;
        assert c[i] in num;
        var j :| 0 <= j < |num| && num[j] == c[i];
        DivBound(c[i].r, scale.r);
      }
    }
  }

  /** Without NaN and with some non-zero finite entry, the entry of largest
      magnitude is normalised to 1 or -1: the scale is attained, not merely
      a bound. */
  lemma NormalizedListReachesOne(c: seq<ExtReal>)
    requires !HasNaN(c)
    requires exists i :: 0 <= i < |c| && c[i].Finite? && c[i].r != 0.0
    ensures NormalizedList(c).Ok?
    ensures exists i :: 0 <= i < |c| && c[i].Finite? && NormalizedList(c).value[i].Finite? &&
                        (NormalizedList(c).value[i].r == 1.0 || NormalizedList(c).value[i].r == -1.0)
  {
    var i0 :| 0 <= i0 < |c| && c[i0].Finite? && c[i0].r != 0.0;
    var num := NonInf(c);
    assert c[i0] in num;
    NonInfNoNaN(c);
    ScalePositive(num, c[i0]);
    var scale := Scale(num);
    var j :| 0 <= j < |num| && (num[j] == scale || num[j] == Finite(-scale.r));
    assert num[j] in c;
    var i :| 0 <= i < |c| && c[i] == num[j];
    UnitRatio(c[i], scale);
    assert NormalizedList(c).value[i] == Div(c[i], scale);
  }

  /** A finite value of the same magnitude as a positive scale divides to 1 or -1. */
  lemma UnitRatio(x: ExtReal, scale: ExtReal)
    requires scale.Finite? && scale.r > 0.0 && (x == scale || x == Finite(-scale.r))
    ensures Div(x, scale) == Finite(1.0) || Div(x, scale) == Finite(-1.0)
  {
    if x == scale {
      assert Div(x, scale) == Finite(scale.r / scale.r);
      assert scale.r / scale.r == 1.0;
    } else {
      assert Div(x, scale) == Finite(-scale.r / scale.r);
      assert -scale.r / scale.r == -(scale.r / scale.r) == -1.0;
    }
  }

  /** Without NaN and with some non-zero finite entry, no output is NaN or
      infinite. */
  lemma NormalizedListFinite(c: seq<ExtReal>)
    requires !HasNaN(c)
    requires exists i :: 0 <= i < |c| && c[i].Finite? && c[i].r != 0.0
    ensures NormalizedList(c).Ok?
    ensures forall i :: 0 <= i < |c| ==> NormalizedList(c).value[i].Finite?
  {
    var i0 :| 0 <= i0 < |c| && c[i0].Finite? && c[i0].r != 0.0;
    var num := NonInf(c);
    assert c[i0] in num;
    NonInfNoNaN(c);
    ScalePositive(num, c[i0]);
    var scale := Scale(num);
    FiniteDivisions(c, scale);
    var r := NormalizedList(c).value;
    forall i | 0 <= i < |c|
      ensures r[i].Finite?
    {
      assert r[i] == (if c[i].IsInf() then Finite(1.0) else Div(c[i], scale));
    }
  }

  /** Dropping infinities from a list without NaN leaves no NaN. */
  lemma NonInfNoNaN(c: seq<ExtReal>)
    requires !HasNaN(c)
    ensures !HasNaN(NonInf(c))
  {
    var num := NonInf(c);
    forall j | 0 <= j < |num|
      ensures !num[j].NaN?
    {
      assert num[j] in c;
    }
  }

  /** A list without infinities or NaN that holds a non-zero value has a
      positive finite scale. */
  lemma ScalePositive(num: seq<ExtReal>, x: ExtReal)
    requires |num| > 0 && NoInf(num) && !HasNaN(num)
    requires x in num && x.Finite? && x.r != 0.0
    ensures Scale(num).Finite? && Scale(num).r > 0.0
  {
    var j :| 0 <= j < |num| && num[j] == x;
  }

  /** Dividing the finite entries of a list without NaN by a finite non-zero
      scale, and mapping infinities to 1, gives finite values only. */
  lemma FiniteDivisions(c: seq<ExtReal>, scale: ExtReal)
    requires !HasNaN(c) && scale.Finite? && scale.r != 0.0
    ensures forall i :: 0 <= i < |c| ==> (if c[i].IsInf() then Finite(1.0) else Div(c[i], scale)).Finite?
  {
    forall i | 0 <= i < |c|
      ensures (if c[i].IsInf() then Finite(1.0) else Div(c[i], scale)).Finite?
    {
      assert !c[i].NaN?;
    }
  }

  /** The state after `normalized_difference` and the exception, if any. */
  function NormalizeAll(table: Dict<seq<ExtReal>>, listComp: seq<(string, string)>): (Dict<seq<ExtReal>>, Option<PyError>)
  {
    if |listComp| == 0 then (table, None)
    else
      var prev := NormalizeAll(table, listComp[..|listComp| - 1]);
      var ind := listComp[|listComp| - 1].0;
      if prev.1.Some? then prev
      else if ind !in Keys(prev.0) then (prev.0, Some(KeyError))
      else match NormalizedList(Get(prev.0, ind))
        case Fail(e) => (prev.0, Some(e))
        case Ok(norm) => (Put(prev.0, ind, norm), None)
  }

  /** Once an exception is raised, the rest of `listComp` changes nothing. */
  lemma {:induction false} NormalizeAllStops(table: Dict<seq<ExtReal>>, listComp: seq<(string, string)>, c: nat)
    requires c <= |listComp| && NormalizeAll(table, listComp[..c]).1.Some?
    ensures NormalizeAll(table, listComp) == NormalizeAll(table, listComp[..c])
    decreases |listComp|
  {
    if c < |listComp| {
      var pre := listComp[..|listComp| - 1];
      assert pre[..c] == listComp[..c];
      NormalizeAllStops(table, pre, c);
    } else {
      assert listComp[..c] == listComp;
    }
  }

  /** Normalisation keeps every key and every list's length. */
  lemma {:induction false} NormalizeAllShape(table: Dict<seq<ExtReal>>, listComp: seq<(string, string)>)
    requires DistinctKeys(table)
    ensures Keys(NormalizeAll(table, listComp).0) == Keys(table)
    ensures DistinctKeys(NormalizeAll(table, listComp).0)
    ensures forall k :: k in Keys(table) ==> |Get(NormalizeAll(table, listComp).0, k)| == |Get(table, k)|
  {
    if |listComp| > 0 {
      var pre := listComp[..|listComp| - 1];
      NormalizeAllShape(table, pre);
      var prev := NormalizeAll(table, pre).0;
      var ind := listComp[|listComp| - 1].0;
      if NormalizeAll(table, pre).1.None? && ind in Keys(prev) && NormalizedList(Get(prev, ind)).Ok? {
        var norm := NormalizedList(Get(prev, ind)).value;
        forall k | k in Keys(table)
          ensures |Get(Put(prev, ind, norm), k)| == |Get(table, k)|
        {
          if k != ind {
            PutOther(prev, ind, norm, k);
          }
        }
      }
    }
  }

  /** No infinity, and every finite value in [-1, 1]. */
  predicate WithinUnit(v: seq<ExtReal>)
  {
    forall j :: 0 <= j < |v| ==> !v[j].IsInf() && (v[j].Finite? ==> -1.0 <= v[j].r <= 1.0)
  }

  /** Some entry of `listComp` names the key `k`. */
  predicate Listed(listComp: seq<(string, string)>, k: string)
  {
    exists i :: 0 <= i < |listComp| && listComp[i].0 == k
  }

  /** A normalised list holds no infinity: the scale bounds every finite
      entry, so a zero scale only meets zeros, and 0/0 is NaN. */
  lemma NormalizedListNoInf(c: seq<ExtReal>)
    requires NormalizedList(c).Ok?
    ensures forall i :: 0 <= i < |c| ==> !NormalizedList(c).value[i].IsInf()
  {
    var num := NonInf(c);
    var scale := Scale(num);
    var out := NormalizedList(c).value;
    forall i | 0 <= i < |c|
      ensures !out[i].IsInf()
    {
      if !c[i].IsInf() {
        assert out[i] == Div(c[i], scale);
        if c[i].Finite? && scale == Finite(0.0) {
          assert c[i] in num;
          var j :| 0 <= j < |num| && num[j] == c[i];
          assert c[i].r == 0.0;
        }
      }
    }
  }

  /** The lists of `table` after the entries of `listComp` are normalised:
      every key is kept, a key `listComp` names is within [-1, 1], and any
      other key keeps its list. */
  predicate NormalizedFor(table: Dict<seq<ExtReal>>, out: Dict<seq<ExtReal>>, listComp: seq<(string, string)>)
  {
    forall k :: k in Keys(table) ==>
      k in Keys(out) &&
      (Listed(listComp, k) ==> WithinUnit(Get(out, k))) &&
      (!Listed(listComp, k) ==> Get(out, k) == Get(table, k))
  }

  /** Storing one more normalised list keeps `NormalizedFor`. */
  lemma NormalizedForPut(table: Dict<seq<ExtReal>>, prev: Dict<seq<ExtReal>>, listComp: seq<(string, string)>,
                         norm: seq<ExtReal>)
    requires |listComp| > 0 && Keys(prev) == Keys(table)
    requires NormalizedFor(table, prev, listComp[..|listComp| - 1])
    requires WithinUnit(norm)
    ensures NormalizedFor(table, Put(prev, listComp[|listComp| - 1].0, norm), listComp)
  {
    var pre := listComp[..|listComp| - 1];
    var ind := listComp[|listComp| - 1].0;
    var r := Put(prev, ind, norm);
    forall k | k in Keys(table)
      ensures k in Keys(r)
      ensures Listed(listComp, k) ==> WithinUnit(Get(r, k))
      ensures !Listed(listComp, k) ==> Get(r, k) == Get(table, k)
    {
      if k != ind {
        PutOther(prev, ind, norm, k);
        if Listed(listComp, k) {
          var i :| 0 <= i < |listComp| && listComp[i].0 == k;
          assert pre[i] == listComp[i];
        }
      } else {
        assert listComp[|listComp| - 1].0 == k;
      }
    }
  }

  /** When `normalized_difference` completes, every key it names holds a list
      without infinities whose finite values lie in [-1, 1], and every other
      key keeps its list. */
  lemma {:induction false} NormalizeAllValues(table: Dict<seq<ExtReal>>, listComp: seq<(string, string)>)
    requires DistinctKeys(table)
    requires NormalizeAll(table, listComp).1.None?
    ensures NormalizedFor(table, NormalizeAll(table, listComp).0, listComp)
  {
    if |listComp| > 0 {
      var pre := listComp[..|listComp| - 1];
      NormalizeAllValues(table, pre);
      NormalizeAllShape(table, pre);
      var prev := NormalizeAll(table, pre).0;
      var ind := listComp[|listComp| - 1].0;
      var norm := NormalizedList(Get(prev, ind)).value;
      NormalizedListBounds(Get(prev, ind));
      NormalizedListNoInf(Get(prev, ind));
      assert WithinUnit(norm);
      NormalizedForPut(table, prev, listComp, norm);
    }
  }

  /** Lines 296-317 for one list. */
  method NormalizeList(cList: seq<ExtReal>) returns (res: Result<seq<ExtReal>>)
    ensures res == NormalizedList(cList)
  {
    var numList := NonInf(cList);
    if |numList| == 0 {
      return Fail(ValueError);
    }
    var lMax := Amax(numList);
    var lMin := Amin(numList);
    if Gt(Abs(lMin), lMax) {
      lMax := Abs(lMin);
    }
    assert lMax == Scale(numList);
    var norm := DivideAll(cList, lMax);
    assert norm == NormalizedList(cList).value;
    return Ok(norm);
  }

  /** Lines 311-317: infinities become 1, every other value is divided by
      `scale`. */
  method DivideAll(cList: seq<ExtReal>, scale: ExtReal) returns (norm: seq<ExtReal>)
    ensures |norm| == |cList|
    ensures forall j :: 0 <= j < |cList| ==>
      norm[j] == if cList[j].IsInf() then Finite(1.0) else Div(cList[j], scale)
  {
    norm := [];
    for i := 0 to |cList|
      invariant |norm| == i
      invariant forall j :: 0 <= j < i ==>
        norm[j] == if cList[j].IsInf() then Finite(1.0) else Div(cList[j], scale)
    {
      if cList[i].IsInf() {
        norm := norm + [Finite(1.0)];
      } else {
        norm := norm + [Div(cList[i], scale)];
      }
    }
  }

  /** `dic_rel_diff`, the accumulator the compositional-shift script passes to
      `difference_average` and `normalized_difference`, which update it in place. */
  class RelativeDifferences {
    var table: Dict<seq<ExtReal>>

    constructor (initial: Dict<seq<ExtReal>>)
      ensures table == initial
    {
      table := initial;
    }

    /** `difference_average(data_report_1, data_report_2, list_comp, dic_rel_diff)`;
        `ok` is false when it raised KeyError, with the earlier appends kept. */
    method DifferenceAverage(steady: Dict<seq<real>>, perturbed: Dict<seq<real>>, listComp: seq<(string, string)>)
      returns (ok: bool)
      modifies this
      ensures (table, ok) == AppendDifferences(old(table), steady, perturbed, listComp)
    {
      ok := true;
      for c := 0 to |listComp|
        invariant (table, ok) == AppendDifferences(old(table), steady, perturbed, listComp[..c])
        invariant ok
      {
        assert listComp[..c + 1][..c] == listComp[..c];
        var ind := listComp[c].0;
        var compound := listComp[c].1;
        var tok1 := FindToken(steady, compound);
        var mean1 := if tok1 in Keys(steady) then MeanOrNaN(NonZero(Get(steady, tok1))) else Finite(0.0);
        var tok2 := FindToken(perturbed, compound);
        var mean2 := if tok2 in Keys(perturbed) then MeanOrNaN(NonZero(Get(perturbed, tok2))) else NaN;
        var result := Div(Sub(mean2, mean1), mean1);
        if result.NaN? {
          result := Finite(0.0);
        }
        assert result == RelativeDifference(steady, perturbed, compound);
        if ind !in Keys(table) {
          ok := false;
          AppendDifferencesStops(old(table), steady, perturbed, listComp, c + 1);
          return;
        }
        table := Put(table, ind, Get(table, ind) + [result]);
      }
      assert listComp[..|listComp|] == listComp;
    }

    /** `normalized_difference(dic_rel_diff, list_comp)`; `err` is the
        exception raised, with the lists normalised before it kept. */
    method NormalizedDifference(listComp: seq<(string, string)>) returns (err: Option<PyError>)
      modifies this
      ensures (table, err) == NormalizeAll(old(table), listComp)
    {
      err := None;
      for c := 0 to |listComp|
        invariant (table, err) == NormalizeAll(old(table), listComp[..c])
        invariant err.None?
      {
        assert listComp[..c + 1][..c] == listComp[..c];
        var ind := listComp[c].0;
        if ind !in Keys(table) {
          err := Some(KeyError);
          NormalizeAllStops(old(table), listComp, c + 1);
          return;
        }
        var res := NormalizeList(Get(table, ind));
        if res.Fail? {
          err := Some(res.error);
          NormalizeAllStops(old(table), listComp, c + 1);
          return;
        }
        var norm := res.value;
        table := Put(table, ind, norm);
      }
      assert listComp[..|listComp|] == listComp;
    }
  }
}
