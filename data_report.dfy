/** The `data_report` class of processing_scripts_formose/data_report.py: a
    tagged CSV file holding an experiment code, conditions, analysis
    details, a series (time) column, data columns and error columns.

    The file is given as its lines; float parsing (`float(x)`) and float
    formatting (`f"{x}"`) are the parameters `parse` and `fmt`. */
module DataReports {
  import opened Wrappers
  import opened Strings
  import opened Dicts
  import opened Series
  import opened ReportSections
  import opened ReportWriter

  /** Everything `read_from_file` sets apart from the file name. */
  datatype Parsed = Parsed(code: string, conditions: Dict<Condition>, table: Table,
                           errors: Dict<seq<real>>, details: Dict<seq<string>>)

  /** Lines 73-88: the experiment code, then the conditions added to those
      already held. */
  function ReadHead(lines: seq<string>, code0: string, conds0: Dict<Condition>, parse: string -> Option<real>)
    : (r: Result<(string, Dict<Condition>)>)
    ensures r.Ok? && DistinctKeys(conds0) ==> DistinctKeys(r.value.1)
  {
    var code :- ExperimentCodeFrom(lines, code0);
    var condRows :- Section(lines, "start_conditions", "end_conditions");
    var conds :- ConditionsFrom(condRows, conds0, parse);
    Ok((code, conds))
  }

  /** Lines 90-116: the data section, then the error section. */
  function ReadTables(lines: seq<string>, parse: string -> Option<real>): (r: Result<(Table, Dict<seq<real>>)>)
    ensures r.Ok? ==> DistinctKeys(r.value.0.data) && DistinctKeys(r.value.1)
  {
    var dataRows :- Section(lines, "start_data", "end_data");
    var table :- DataTable(dataRows, parse);
    var errRows :- Section(lines, "start_errors", "end_errors");
    var errors :- ErrorTable(errRows, table.seriesUnit, |table.seriesValues|, Keys(table.data), parse);
    Ok((table, errors))
  }

  /** Lines 118-122: the analysis details added to those already held. */
  function ReadDetails(lines: seq<string>, details0: Dict<seq<string>>): (r: Result<Dict<seq<string>>>)
    ensures r.Ok? && DistinctKeys(details0) ==> DistinctKeys(r.value)
  {
    var detailRows :- Section(lines, "start_analysis_details", "end_analysis_details");
    AnalysisFrom(detailRows, details0)
  }

  /** Lines 73-122: the experiment code, then the conditions, data, errors
      and analysis-details sections in that order; the first error stops
      the reading. */
  function ParseReport(lines: seq<string>, code0: string, conds0: Dict<Condition>,
                       details0: Dict<seq<string>>, parse: string -> Option<real>): (r: Result<Parsed>)
    ensures r.Ok? && DistinctKeys(conds0) && DistinctKeys(details0) ==>
      DistinctKeys(r.value.conditions) && DistinctKeys(r.value.details) &&
      DistinctKeys(r.value.table.data) && DistinctKeys(r.value.errors)
  {
    var head :- ReadHead(lines, code0, conds0, parse);
    var tables :- ReadTables(lines, parse);
    var details :- ReadDetails(lines, details0);
    Ok(Parsed(head.0, head.1, tables.0, tables.1, details))
  }

  /** The reading part of `read_from_file` (lines 75-122), stage by stage. */
  method ParseReportOf(lines: seq<string>, code0: string, conds0: Dict<Condition>,
                       details0: Dict<seq<string>>, parse: string -> Option<real>) returns (res: Result<Parsed>)
    ensures res == ParseReport(lines, code0, conds0, details0, parse)
  {
    var head := ReadHeadOf(lines, code0, conds0, parse);
    if head.Fail? {
      return Fail(head.error);
    }
    var tables := ReadTablesOf(lines, parse);
    if tables.Fail? {
      return Fail(tables.error);
    }
    var details := ReadDetailsOf(lines, details0);
    if details.Fail? {
      return Fail(details.error);
    }
    return Ok(Parsed(head.value.0, head.value.1, tables.value.0, tables.value.1, details.value));
  }

  method ReadHeadOf(lines: seq<string>, code0: string, conds0: Dict<Condition>, parse: string -> Option<real>)
    returns (res: Result<(string, Dict<Condition>)>)
    ensures res == ReadHead(lines, code0, conds0, parse)
  {
    var code := ScanExperimentCode(lines, code0);
    if code.Fail? {
      return Fail(code.error);
    }
    var condset := ImportFileSection(lines, "start_conditions", "end_conditions");
    if condset.Fail? {
      return Fail(condset.error);
    }
    var conds := ReadConditions(condset.value, conds0, parse);
    if conds.Fail? {
      return Fail(conds.error);
    }
    return Ok((code.value, conds.value));
  }

  method ReadTablesOf(lines: seq<string>, parse: string -> Option<real>) returns (res: Result<(Table, Dict<seq<real>>)>)
    ensures res == ReadTables(lines, parse)
  {
    var dataset := ImportFileSection(lines, "start_data", "end_data");
    if dataset.Fail? {
      return Fail(dataset.error);
    }
    var table := DataTableOf(dataset.value, parse);
    if table.Fail? {
      return Fail(table.error);
    }
    var errorRows := ImportFileSection(lines, "start_errors", "end_errors");
    if errorRows.Fail? {
      return Fail(errorRows.error);
    }
    var t := table.value;
    var errs := ErrorTableOf(errorRows.value, t.seriesUnit, |t.seriesValues|, Keys(t.data), parse);
    if errs.Fail? {
      return Fail(errs.error);
    }
    return Ok((t, errs.value));
  }

  method ReadDetailsOf(lines: seq<string>, details0: Dict<seq<string>>) returns (res: Result<Dict<seq<string>>>)
    ensures res == ReadDetails(lines, details0)
  {
    var analysis := ImportFileSection(lines, "start_analysis_details", "end_analysis_details");
    if analysis.Fail? {
      return Fail(analysis.error);
    }
    res := ReadAnalysisDetails(analysis.value, details0);
  }

  /** A row numpy can assign to a matrix row of length `n`: same length, or a
      single value that is broadcast. */
  predicate Broadcasts(row: seq<real>, n: nat) { |row| == n || |row| == 1 }

  /** Lines 263-266: the requested name, or the report's own name when none
      is given; ".csv" is appended when missing. */
  function OutputName(requested: string, current: string): (name: string)
    ensures requested == "" ==> name == current
    ensures requested != "" ==> EndsWith(name, ".csv") && StartsWith(name, requested)
  {
    if requested == "" then current
    else if EndsWith(requested, ".csv") then requested
    else requested + ".csv"
  }

  /** Naming the output again with the chosen name changes nothing. */
  lemma OutputNameIdempotent(requested: string, current: string, other: string)
    requires requested != ""
    ensures OutputName(OutputName(requested, current), other) == OutputName(requested, current)
  {
    var name := OutputName(requested, current);
    if !EndsWith(requested, ".csv") {
      assert name[|name| - 4..] == ".csv";
    }
  }

  /** Token `t` is the first-space token of two different keys. */
  predicate IsRepeat(d: Dict<seq<real>>, t: string)
  {
    exists i, j :: 0 <= i < j < |d| && FirstToken(d[i].0, ' ') == t && FirstToken(d[j].0, ' ') == t
  }

  /** `np.argmin`: the first position of the smallest value. */
  function ArgMin(s: seq<real>): (i: nat)
    requires |s| > 0
    ensures i < |s| && forall j :: 0 <= j < |s| ==> s[i] <= s[j]
    ensures forall j :: 0 <= j < i ==> s[i] < s[j]
  {
    if |s| == 1 then 0
    else
      var k := ArgMin(s[..|s| - 1]);
      if s[|s| - 1] < s[k] then |s| - 1 else k
  }

  /** Lines 314-317: the keys containing `r`, in order. */
  function CompareKeys(d: Dict<seq<real>>, r: string): (ks: seq<nat>)
    ensures forall c :: 0 <= c < |ks| ==> ks[c] < |d| && Contains(d[ks[c]].0, r)
    ensures forall i :: 0 <= i < |d| && Contains(d[i].0, r) ==> i in ks
    ensures forall a, b :: 0 <= a < b < |ks| ==> ks[a] < ks[b]
  {
    if |d| == 0 then []
    else
      var prev := CompareKeys(d[..|d| - 1], r);
      if Contains(d[|d| - 1].0, r) then prev + [|d| - 1] else prev
  }

  function Sums(d: Dict<seq<real>>, ks: seq<nat>): (sums: seq<real>)
    requires forall c :: 0 <= c < |ks| ==> ks[c] < |d|
    ensures |sums| == |ks|
  {
    seq(|ks|, c requires 0 <= c < |ks| => Sum(d[ks[c]].1))
  }

  /** Position of the key `remove_repeat_entries` deletes for token `r`:
      the first smallest sum among the keys containing `r`. */
  function ChosenIndex(d: Dict<seq<real>>, r: string): (k: nat)
    requires |CompareKeys(d, r)| > 0
    ensures k < |d| && Contains(d[k].0, r)
  {
    var ks := CompareKeys(d, r);
    ks[ArgMin(Sums(d, ks))]
  }

  /** The chosen key has the smallest sum of all keys containing the token,
      and a strictly smaller sum than those before it. */
  lemma ChosenIndexMinimal(d: Dict<seq<real>>, r: string)
    requires |CompareKeys(d, r)| > 0
    ensures var k := ChosenIndex(d, r);
      forall i :: 0 <= i < |d| && Contains(d[i].0, r) ==>
        Sum(d[k].1) <= Sum(d[i].1) && (i < k ==> Sum(d[k].1) < Sum(d[i].1))
  {
    var ks := CompareKeys(d, r);
    var sums := Sums(d, ks);
    var m := ArgMin(sums);
    var k := ks[m];
    forall i | 0 <= i < |d| && Contains(d[i].0, r)
      ensures Sum(d[k].1) <= Sum(d[i].1)
      ensures i < k ==> Sum(d[k].1) < Sum(d[i].1)
    {
      var c :| 0 <= c < |ks| && ks[c] == i;
      assert sums[c] == Sum(d[i].1);
      if i < k {
        assert c < m;
      }
    }
  }

  /** Lines 313-325 for one token: among the keys containing `r`, the first
      one with the smallest sum is deleted; with no such key `np.argmin`
      raises ValueError. */
  function RemoveRepeat(d: Dict<seq<real>>, r: string): (res: Result<Dict<seq<real>>>)
    ensures res.Fail? <==> forall i :: 0 <= i < |d| ==> !Contains(d[i].0, r)
    ensures res.Fail? ==> res.error == ValueError
    ensures res.Ok? ==> |res.value| == |d| - 1
    ensures res.Ok? && DistinctKeys(d) ==> DistinctKeys(res.value)
  {
    if |CompareKeys(d, r)| == 0 then Fail(ValueError)
    else Ok(Delete(d, d[ChosenIndex(d, r)].0).value)
  }

  /** Exactly the chosen entry is removed. */
  lemma RemoveRepeatWithout(d: Dict<seq<real>>, r: string)
    requires DistinctKeys(d) && RemoveRepeat(d, r).Ok?
    ensures RemoveRepeat(d, r).value == Without(d, {d[ChosenIndex(d, r)].0})
  {
    DeleteIsWithout(d, d[ChosenIndex(d, r)].0);
  }

  /** The tokens processed so far, in the order chosen: stops at the first
      failure with the dictionary as it was then. */
  function RemoveInOrder(d: Dict<seq<real>>, order: seq<string>): (res: (Dict<seq<real>>, Option<PyError>))
    ensures DistinctKeys(d) ==> DistinctKeys(res.0)
    ensures res.1.None? ==> |res.0| == |d| - |order|
    ensures res.1.Some? ==> res.1 == Some(ValueError)
  {
    if |order| == 0 then (d, None)
    else
      var prev := RemoveInOrder(d, order[..|order| - 1]);
      if prev.1.Some? then prev
      else match RemoveRepeat(prev.0, order[|order| - 1])
        case Fail(e) => (prev.0, Some(e))
        case Ok(next) => (next, None)
  }

  /** One more token continues the removal from where it stands. */
  lemma RemoveInOrderStep(d: Dict<seq<real>>, order: seq<string>, r: string)
    requires RemoveInOrder(d, order).1.None?
    ensures var prev := RemoveInOrder(d, order).0;
      RemoveInOrder(d, order + [r]) ==
        match RemoveRepeat(prev, r)
        case Fail(e) => (prev, Some(e))
        case Ok(next) => (next, None)
  {
    assert (order + [r])[..|order|] == order;
  }

  /** The tokens handled so far are those of `all` no longer `remaining`,
      each handled once. */
  ghost predicate Handled(order: seq<string>, all: set<string>, remaining: set<string>)
  {
    remaining <= all &&
    (forall t :: t in order <==> t in all && t !in remaining) &&
    forall i, j :: 0 <= i < j < |order| ==> order[i] != order[j]
  }

  /** Handling one more remaining token keeps the bookkeeping. */
  lemma HandledStep(order: seq<string>, all: set<string>, remaining: set<string>, r: string)
    requires Handled(order, all, remaining) && r in remaining
    ensures Handled(order + [r], all, remaining - {r})
  {
    var o := order + [r];
    forall i, j | 0 <= i < j < |o|
      ensures o[i] != o[j]
    {
      if j == |order| {
        assert o[i] == order[i] && o[i] in order;
      } else {
        assert o[i] == order[i] && o[j] == order[j];
      }
    }
  }

  function KeySet(ks: seq<string>): set<string> { set k | k in ks }

  lemma KeySetSnoc(ks: seq<string>)
    requires |ks| > 0
    ensures KeySet(ks) == KeySet(ks[..|ks| - 1]) + {ks[|ks| - 1]}
  {
    assert ks == ks[..|ks| - 1] + [ks[|ks| - 1]];
  }

  /** The keys a successful removal deleted, one per token. */
  function Removed(d: Dict<seq<real>>, order: seq<string>): (ks: seq<string>)
    requires RemoveInOrder(d, order).1.None?
    ensures |ks| == |order|
  {
    if |order| == 0 then []
    else
      var p := RemoveInOrder(d, order[..|order| - 1]).0;
      Removed(d, order[..|order| - 1]) + [p[ChosenIndex(p, order[|order| - 1])].0]
  }

  /** A successful removal deletes exactly the keys `Removed` lists and
      nothing else. */
  lemma {:induction false} RemoveInOrderDeletes(d: Dict<seq<real>>, order: seq<string>)
    requires DistinctKeys(d) && RemoveInOrder(d, order).1.None?
    ensures RemoveInOrder(d, order).0 == Without(d, KeySet(Removed(d, order)))
  {
    if |order| == 0 {
      WithoutNone(d, {});
      assert KeySet([]) == {};
    } else {
      var pre := order[..|order| - 1];
      var r := order[|order| - 1];
      RemoveInOrderDeletes(d, pre);
      var ksPre := Removed(d, pre);
      var p := RemoveInOrder(d, pre).0;
      var key := p[ChosenIndex(p, r)].0;
      assert Removed(d, order) == ksPre + [key];
      RemoveRepeatWithout(p, r);
      WithoutWithout(d, KeySet(ksPre), {key});
      KeySetSnoc(Removed(d, order));
    }
  }

  /** The deleted keys are distinct keys of the original dictionary, one per
      token, each containing its token. */
  lemma {:induction false} RemovedKeys(d: Dict<seq<real>>, order: seq<string>)
    requires DistinctKeys(d) && RemoveInOrder(d, order).1.None?
    ensures var ks := Removed(d, order);
      (forall i :: 0 <= i < |order| ==> Contains(ks[i], order[i])) &&
      (forall i :: 0 <= i < |ks| ==> ks[i] in Keys(d)) &&
      (forall i, j :: 0 <= i < j < |ks| ==> ks[i] != ks[j])
  {
    if |order| > 0 {
      var pre := order[..|order| - 1];
      var r := order[|order| - 1];
      RemovedKeys(d, pre);
      RemoveInOrderDeletes(d, pre);
      var ksPre := Removed(d, pre);
      var ks := Removed(d, order);
      var p := RemoveInOrder(d, pre).0;
      var key := p[ChosenIndex(p, r)].0;
      assert ks == ksPre + [key];
      assert ks[..|ks| - 1] == ksPre;
      WithoutKeys(d, KeySet(ksPre));
      assert key in Keys(p);
      SnocDistinct(ks, ksPre, Keys(d));
      forall i | 0 <= i < |order|
        ensures Contains(ks[i], order[i])
      {
        if i < |pre| {
          assert ks[i] == ksPre[i] && order[i] == pre[i];
        }
      }
    }
  }

  /** Lines 340-341: keys deleted one after the other; an absent key raises
      KeyError and stops, the earlier deletions stay. */
  function RemoveAll(d: Dict<seq<real>>, ks: seq<string>): (res: (Dict<seq<real>>, Option<PyError>))
    ensures res.1.Some? ==> res.1 == Some(KeyError)
  {
    if |ks| == 0 then (d, None)
    else
      var prev := RemoveAll(d, ks[..|ks| - 1]);
      if prev.1.Some? then prev
      else match Delete(prev.0, ks[|ks| - 1])
        case Fail(e) => (prev.0, Some(e))
        case Ok(next) => (next, None)
  }

  /** A successful removal removed exactly the listed keys. */
  lemma {:induction false} RemoveAllOk(d: Dict<seq<real>>, ks: seq<string>)
    requires DistinctKeys(d) && RemoveAll(d, ks).1.None?
    ensures RemoveAll(d, ks).0 == Without(d, KeySet(ks))
  {
    if |ks| == 0 {
      WithoutNone(d, {});
      assert KeySet(ks) == {};
    } else {
      var pre := ks[..|ks| - 1];
      var last := ks[|ks| - 1];
      assert RemoveAll(d, pre).1.None?;
      RemoveAllOk(d, pre);
      var prev := RemoveAll(d, pre).0;
      assert Delete(prev, last).Ok?;
      var s := KeySet(pre);
      WithoutDistinct(d, s);
      DeleteIsWithout(prev, last);
      WithoutWithout(d, s, {last});
      KeySetSnoc(ks);
    }
  }

  /** A successful removal had present, distinct keys. */
  lemma {:induction false} RemoveAllValid(d: Dict<seq<real>>, ks: seq<string>)
    requires DistinctKeys(d) && RemoveAll(d, ks).1.None?
    ensures forall i :: 0 <= i < |ks| ==> ks[i] in Keys(d)
    ensures forall i, j :: 0 <= i < j < |ks| ==> ks[i] != ks[j]
  {
    if |ks| > 0 {
      var pre := ks[..|ks| - 1];
      var last := ks[|ks| - 1];
      assert RemoveAll(d, pre).1.None?;
      RemoveAllValid(d, pre);
      RemoveAllOk(d, pre);
      var prev := RemoveAll(d, pre).0;
      assert Delete(prev, last).Ok?;
      var s := KeySet(pre);
      WithoutKeys(d, s);
      assert last in Keys(prev);
      assert last !in pre;
      SnocDistinct(ks, pre, Keys(d));
    }
  }

  /** A new last element keeps a list distinct and inside `keys`. */
  lemma SnocDistinct(ks: seq<string>, pre: seq<string>, keys: seq<string>)
    requires |ks| > 0 && pre == ks[..|ks| - 1] && ks[|ks| - 1] in keys && ks[|ks| - 1] !in pre
    requires forall i :: 0 <= i < |pre| ==> pre[i] in keys
    requires forall i, j :: 0 <= i < j < |pre| ==> pre[i] != pre[j]
    ensures forall i :: 0 <= i < |ks| ==> ks[i] in keys
    ensures forall i, j :: 0 <= i < j < |ks| ==> ks[i] != ks[j]
  {
    forall i, j | 0 <= i < j < |ks|
      ensures ks[i] != ks[j]
    {
      assert ks[i] == pre[i];
      if j < |pre| {
        assert ks[j] == pre[j];
      }
    }
  }

  /** Removing present, distinct keys succeeds. */
  lemma {:induction false} RemoveAllSucceeds(d: Dict<seq<real>>, ks: seq<string>)
    requires DistinctKeys(d)
    requires forall i :: 0 <= i < |ks| ==> ks[i] in Keys(d)
    requires forall i, j :: 0 <= i < j < |ks| ==> ks[i] != ks[j]
    ensures RemoveAll(d, ks).1.None?
  {
    if |ks| > 0 {
      var pre := ks[..|ks| - 1];
      var last := ks[|ks| - 1];
      RemoveAllSucceeds(d, pre);
      RemoveAllOk(d, pre);
      var s := KeySet(pre);
      WithoutKeys(d, s);
      assert last !in s;
    }
  }

  /** The keys whose series stay below `threshold`, in order; an empty
      series makes `np.amax` raise ValueError. */
  function BelowKeys(d: Dict<seq<real>>, threshold: real): (r: Result<seq<string>>)
    ensures r.Fail? <==> exists i :: 0 <= i < |d| && |d[i].1| == 0
    ensures r.Fail? ==> r.error == ValueError
    ensures r.Ok? ==> forall k :: k in r.value <==>
      exists i :: 0 <= i < |d| && d[i].0 == k && Max(d[i].1) < threshold
    ensures r.Ok? && DistinctKeys(d) ==> forall i, j :: 0 <= i < j < |r.value| ==> r.value[i] != r.value[j]
  {
    if |d| == 0 then Ok([])
    else
      var pre := d[..|d| - 1];
      assert forall i :: 0 <= i < |pre| ==> pre[i] == d[i];
      var prev :- BelowKeys(pre, threshold);
      var last := d[|d| - 1];
      if |last.1| == 0 then Fail(ValueError)
      else if Max(last.1) < threshold then
        assert DistinctKeys(d) ==> last.0 !in prev;
        Ok(prev + [last.0])
      else Ok(prev)
  }

  /** A data report. The dictionaries keep their keys distinct. */
  class DataReport {
    var filename: string
    var experimentCode: string
    var conditions: Dict<Condition>
    var analysisDetails: Dict<seq<string>>
    var seriesValues: seq<real>
    var seriesUnit: string
    var data: Dict<seq<real>>
    var errors: Dict<seq<real>>

    predicate Valid()
      reads this
    {
      DistinctKeys(conditions) && DistinctKeys(analysisDetails) && DistinctKeys(data) && DistinctKeys(errors)
    }

    /** `data_report()` with no file: placeholders and empty tables. */
    constructor()
      ensures Valid()
      ensures filename == "not specified" && experimentCode == "not specified" && seriesUnit == "not specified"
      ensures conditions == [] && analysisDetails == [] && seriesValues == [] && data == [] && errors == []
    {
      filename := "not specified";
      experimentCode := "not specified";
      conditions := [];
      analysisDetails := [];
      seriesValues := [];
      seriesUnit := "not specified";
      data := [];
      errors := [];
    }

    /** `read_from_file(file)` given the file's name and lines. On success
        every field holds what `ParseReport` reads; on failure the error is
        reported. */
    method ReadFromFile(name: string, lines: seq<string>, parse: string -> Option<real>) returns (err: Option<PyError>)
      requires Valid()
      modifies this
      ensures Valid() && filename == name
      ensures ParseReport(lines, old(experimentCode), old(conditions), old(analysisDetails), parse) ==
        if err.None? then Ok(Parsed(experimentCode, conditions, Table(seriesUnit, seriesValues, data), errors, analysisDetails))
        else Fail(err.value)
    {
      filename := name;
      var parsed := ParseReportOf(lines, experimentCode, conditions, analysisDetails, parse);
      if parsed.Fail? {
        return Some(parsed.error);
      }
      Store(parsed.value);
      return None;
    }

    /** Keeps what a successful read produced. */
    method Store(p: Parsed)
      requires DistinctKeys(p.conditions) && DistinctKeys(p.details)
      requires DistinctKeys(p.table.data) && DistinctKeys(p.errors)
      modifies this
      ensures Valid() && filename == old(filename)
      ensures Parsed(experimentCode, conditions, Table(seriesUnit, seriesValues, data), errors, analysisDetails) == p
    {
      experimentCode := p.code;
      conditions := p.conditions;
      seriesUnit := p.table.seriesUnit;
      seriesValues := p.table.seriesValues;
      data := p.table.data;
      errors := p.errors;
      analysisDetails := p.details;
    }

    /** `to_numpy()`: one row per data entry, each of the series length; an
        entry of one value is broadcast, any other length mismatch raises
        ValueError. */
    method ToNumpy() returns (res: Result<seq<seq<real>>>)
      ensures res.Ok? <==> forall c :: 0 <= c < |data| ==> Broadcasts(data[c].1, |seriesValues|)
      ensures res.Fail? ==> res.error == ValueError
      ensures res.Ok? ==> |res.value| == |data|
      ensures res.Ok? ==> forall c :: 0 <= c < |data| ==> (|res.value[c]| == |seriesValues| &&
        (|data[c].1| == |seriesValues| ==> res.value[c] == data[c].1) &&
        (|data[c].1| == 1 ==> forall t :: 0 <= t < |seriesValues| ==> res.value[c][t] == data[c].1[0]))
    {
      var n := |seriesValues|;
      var matrix: seq<seq<real>> := seq(|data|, _ => seq(n, _ => 0.0));
      for c := 0 to |data|
        invariant |matrix| == |data|
        invariant forall k :: 0 <= k < |data| ==> |matrix[k]| == n
        invariant forall k :: 0 <= k < c ==> Broadcasts(data[k].1, n)
        invariant forall k :: 0 <= k < c ==>
          (|data[k].1| == n ==> matrix[k] == data[k].1) &&
          (|data[k].1| == 1 ==> forall t :: 0 <= t < n ==> matrix[k][t] == data[k].1[0])
      {
        var row := data[c].1;
        if |row| == n {
          matrix := matrix[c := row];
        } else if |row| == 1 {
          matrix := matrix[c := seq(n, _ => row[0])];
        } else {
          return Fail(ValueError);
        }
      }
      return Ok(matrix);
    }

    /** `to_string()`: the text of `ReportText` for the report's fields. */
    method ToString(fmt: real -> string) returns (res: Result<string>)
      ensures res == ReportText(experimentCode, conditions, analysisDetails, seriesUnit, seriesValues,
                                data, errors, fmt)
    {
      var dataSection := SectionOf(seriesUnit, seriesValues, data);
      var errorSection := SectionOf(seriesUnit, seriesValues, errors);
      var condLines := RowsFromDict(ConditionRows(conditions, fmt), fmt);
      var detailLines := RowsFromDict(DetailRows(analysisDetails), fmt);
      var dataLines := ColumnsFromDict(dataSection, fmt);
      if dataLines.Fail? {
        return Fail(dataLines.error);
      }
      var errLines := ColumnsFromDict(errorSection, fmt);
      if errLines.Fail? {
        return Fail(errLines.error);
      }
      assert condLines == RowLinesOf(ConditionRows(conditions, fmt), fmt);
      assert detailLines == RowLinesOf(DetailRows(analysisDetails), fmt);
      var outputLines := ["Dataset," + experimentCode, "start_conditions"] + condLines
        + ["end_conditions", "start_analysis_details"] + detailLines
        + ["end_analysis_details", "start_data"] + dataLines.value
        + ["end_data", "start_errors"] + errLines.value + ["end_errors"];
      return Ok(Join(outputLines, "\n"));
    }

    /** `write_to_file(filename)`: the name written to and the text written. */
    method WriteToFile(requested: string, fmt: real -> string) returns (fname: string, text: Result<string>)
      ensures fname == OutputName(requested, filename)
      ensures text == ReportText(experimentCode, conditions, analysisDetails, seriesUnit, seriesValues,
                                 data, errors, fmt)
    {
      fname := requested;
      if requested == "" {
        fname := filename;
      } else if !EndsWith(requested, ".csv") {
        fname := requested + ".csv";
      }
      text := ToString(fmt);
    }

    /** `find_repeat_data_entries()`: the first-space tokens shared by two
        or more keys. */
    method FindRepeatDataEntries() returns (repeats: set<string>)
      ensures forall t :: t in repeats <==> IsRepeat(data, t)
    {
      var entries: seq<string> := [];
      repeats := {};
      for i := 0 to |data|
        invariant |entries| == i && forall k :: 0 <= k < i ==> entries[k] == FirstToken(data[k].0, ' ')
        invariant forall t :: t in repeats <==>
          exists a, b :: 0 <= a < b < i && FirstToken(data[a].0, ' ') == t && FirstToken(data[b].0, ' ') == t
      {
        var token := FirstToken(data[i].0, ' ');
        if token in entries {
          var a :| 0 <= a < i && entries[a] == token;
          repeats := repeats + {token};
        }
        entries := entries + [token];
      }
    }

    /** `remove_repeat_entries()`: one key is deleted per repeated token, in
        an order the method chooses (Python iterates a set); `order` records
        the tokens handled. */
    method RemoveRepeatEntries() returns (err: Option<PyError>, ghost order: seq<string>)
      requires Valid()
      modifies this`data
      ensures Valid()
      ensures (data, err) == RemoveInOrder(old(data), order)
      ensures forall i, j :: 0 <= i < j < |order| ==> order[i] != order[j]
      ensures forall t :: t in order ==> IsRepeat(old(data), t)
      ensures err.None? ==> forall t :: IsRepeat(old(data), t) ==> t in order
    {
      var repeatEntries := FindRepeatDataEntries();
      var remaining := repeatEntries;
      ghost var d0 := data;
      var d := data;
      order := [];
      err := None;
      while remaining != {}
        invariant remaining <= repeatEntries
        invariant Handled(order, repeatEntries, remaining)
        invariant RemoveInOrder(d0, order) == (d, None)
        decreases remaining
      {
        var r :| r in remaining;
        HandledStep(order, repeatEntries, remaining, r);
        var next := RemoveRepeatOf(d, r);
        RemoveInOrderStep(d0, order, r);
        order := order + [r];
        remaining := remaining - {r};
        if next.Fail? {
          data := d;
          return Some(ValueError), order;
        }
        d := next.value;
      }
      data := d;
    }

    /** `remove_specific_entries(remove_list)` */
    method RemoveSpecificEntries(removeList: seq<string>) returns (err: Option<PyError>)
      requires Valid()
      modifies this`data
      ensures Valid()
      ensures (data, err) == RemoveAll(old(data), removeList)
    {
      err := None;
      for k := 0 to |removeList|
        invariant DistinctKeys(data)
        invariant RemoveAll(old(data), removeList[..k]) == (data, None)
      {
        assert removeList[..k + 1][..k] == removeList[..k];
        var next := Delete(data, removeList[k]);
        if next.Fail? {
          assert RemoveAll(old(data), removeList[..k + 1]) == (data, Some(KeyError));
          RemoveAllStop(old(data), removeList, k + 1);
          return Some(KeyError);
        }
        data := next.value;
      }
      assert removeList[..|removeList|] == removeList;
    }

    /** `remove_entries_below_threshold(threshold)`: deletes exactly the
        keys whose largest value is below `threshold`; an empty series raises
        ValueError before anything is deleted. */
    method RemoveEntriesBelowThreshold(threshold: real) returns (err: Option<PyError>)
      requires Valid()
      modifies this`data
      ensures Valid()
      ensures err.Some? <==> exists i :: 0 <= i < |old(data)| && |old(data)[i].1| == 0
      ensures err.Some? ==> err == Some(ValueError) && data == old(data)
      ensures err.None? ==> data == Without(old(data), KeySet(BelowKeys(old(data), threshold).value))
    {
      var below := BelowKeysOf(data, threshold);
      if below.Fail? {
        return Some(ValueError);
      }
      var delList := below.value;
      forall k | k in delList
        ensures k in Keys(data)
      {
        var i :| 0 <= i < |data| && data[i].0 == k && Max(data[i].1) < threshold;
      }
      RemoveAllSucceeds(data, delList);
      RemoveAllOk(data, delList);
      err := RemoveSpecificEntries(delList);
    }
  }

  /** Lines 313-325 for one token: the keys are scanned, their sums
      compared and the first smallest deleted. */
  method RemoveRepeatOf(d: Dict<seq<real>>, r: string) returns (res: Result<Dict<seq<real>>>)
    ensures res == RemoveRepeat(d, r)
  {
    var compareKeys := CompareKeysOf(d, r);
    if |compareKeys| == 0 {
      return Fail(ValueError);
    }
    var checkline := SumsOf(d, compareKeys);
    var iMin := ArgMin(checkline);
    return Ok(Delete(d, d[compareKeys[iMin]].0).value);
  }

  /** Lines 314-317 */
  method CompareKeysOf(d: Dict<seq<real>>, r: string) returns (compareKeys: seq<nat>)
    ensures compareKeys == CompareKeys(d, r)
  {
    compareKeys := [];
    for i := 0 to |d|
      invariant compareKeys == CompareKeys(d[..i], r)
    {
      assert d[..i + 1][..i] == d[..i];
      if Contains(d[i].0, r) {
        compareKeys := compareKeys + [i];
      }
    }
    assert d[..|d|] == d;
  }

  /** Lines 319-321 */
  method SumsOf(d: Dict<seq<real>>, ks: seq<nat>) returns (checkline: seq<real>)
    requires forall c :: 0 <= c < |ks| ==> ks[c] < |d|
    ensures checkline == Sums(d, ks)
  {
    checkline := [];
    for c := 0 to |ks|
      invariant |checkline| == c && forall k :: 0 <= k < c ==> checkline[k] == Sum(d[ks[k]].1)
    {
      checkline := checkline + [Sum(d[ks[c]].1)];
    }
  }

  /** Lines 358-361: the keys to delete, gathered in order. */
  method BelowKeysOf(d: Dict<seq<real>>, threshold: real) returns (res: Result<seq<string>>)
    ensures res == BelowKeys(d, threshold)
  {
    var delList: seq<string> := [];
    for i := 0 to |d|
      invariant BelowKeys(d[..i], threshold) == Ok(delList)
    {
      assert d[..i + 1][..i] == d[..i];
      if |d[i].1| == 0 {
        BelowKeysStop(d, threshold, i + 1);
        return Fail(ValueError);
      }
      if Max(d[i].1) < threshold {
        delList := delList + [d[i].0];
      }
    }
    assert d[..|d|] == d;
    return Ok(delList);
  }

  lemma {:induction false} RemoveAllStop(d: Dict<seq<real>>, ks: seq<string>, k: nat)
    requires k <= |ks| && RemoveAll(d, ks[..k]).1.Some?
    ensures RemoveAll(d, ks) == RemoveAll(d, ks[..k])
  {
    if k < |ks| {
      var pre := ks[..|ks| - 1];
      assert pre[..k] == ks[..k];
      RemoveAllStop(d, pre, k);
    } else {
      assert ks[..k] == ks;
    }
  }

  lemma {:induction false} BelowKeysStop(d: Dict<seq<real>>, threshold: real, k: nat)
    requires k <= |d| && BelowKeys(d[..k], threshold).Fail?
    ensures BelowKeys(d, threshold) == BelowKeys(d[..k], threshold)
  {
    if k < |d| {
      var pre := d[..|d| - 1];
      assert pre[..k] == d[..k];
      BelowKeysStop(pre, threshold, k);
    } else {
      assert d[..k] == d;
    }
  }

  /** The data or errors section of `to_string` (lines 223-229). */
  method SectionOf(unit: string, values: seq<real>, d: Dict<seq<real>>) returns (section: Dict<seq<real>>)
    ensures section == SectionDict(unit, values, d)
  {
    section := [(unit, values)];
    for i := 0 to |d|
      invariant section == SectionDict(unit, values, d[..i])
    {
      assert d[..i + 1][..i] == d[..i];
      section := Put(section, d[i].0, d[i].1);
    }
    assert d[..|d|] == d;
  }
}
