/** Writing a data report as text (`rows_from_dict`, `columns_from_dict` and
    `to_string` in processing_scripts_formose/data_report.py).

    Float-to-text conversion (`f"{x}"`) is a parameter `fmt`. */
module ReportWriter {
  import opened Wrappers
  import opened Strings
  import opened Dicts
  import opened CsvLines
  import opened ReportSections

  /** A value `rows_from_dict` writes: a float, or an iterable whose items
      are already formatted. */
  datatype RowValue = Number(x: real) | Items(items: seq<string>)

  /** The fields a row holds after its key. */
  function Fields(v: RowValue, fmt: real -> string): seq<string>
  {
    match v
    case Number(x) => [fmt(x)]
    case Items(xs) => xs
  }

  /** Lines 166-173: the key and a comma, then the float, or each item
      followed by a comma; commas are then stripped from both ends. */
  function RowLine(key: string, v: RowValue, fmt: real -> string): string
  {
    match v
    case Number(x) => Strip(key + "," + fmt(x), ',')
    case Items(xs) => Strip(key + "," + Terminated(xs), ',')
  }

  /** With clean fields, a written row reads back as its key followed by its
      fields. */
  lemma RowLineRoundTrip(key: string, v: RowValue, fmt: real -> string)
    requires CleanField(key) && CleanFields(Fields(v, fmt))
    ensures SplitFields(RowLine(key, v, fmt)) == [key] + Fields(v, fmt)
  {
    match v
    case Number(x) =>
      var f := fmt(x);
      assert Fields(v, fmt)[0] == f;
      assert CleanFields([key, f]);
      assert Join([key, f], ",") == key + "," + f;
      JoinEnds([key, f], ",");
      assert key[0] in key && f[|f| - 1] in f;
      StripUnchanged(key + "," + f, ',');
      SplitFieldsJoin([key, f]);
    case Items(xs) =>
      assert ([key] + xs)[1..] == xs;
      assert key + "," + Terminated(xs) == Terminated([key] + xs);
      assert CleanFields([key] + xs);
      SplitFieldsTerminated([key] + xs);
  }

  /** `rows_from_dict(dict_container)` */
  method RowsFromDict(d: Dict<RowValue>, fmt: real -> string) returns (lines: seq<string>)
    ensures |lines| == |d|
    ensures forall i :: 0 <= i < |d| ==> lines[i] == RowLine(d[i].0, d[i].1, fmt)
  {
    lines := [];
    for i := 0 to |d|
      invariant |lines| == i
      invariant forall j :: 0 <= j < i ==> lines[j] == RowLine(d[j].0, d[j].1, fmt)
    {
      var lineStr := d[i].0 + ",";
      match d[i].1 {
        case Number(x) =>
          lineStr := lineStr + fmt(x);
        case Items(xs) =>
          for k := 0 to |xs|
            invariant lineStr == d[i].0 + "," + Terminated(xs[..k])
          {
            TerminatedSnoc(xs[..k], xs[k]);
            assert xs[..k + 1] == xs[..k] + [xs[k]];
            lineStr := lineStr + xs[k] + ",";
          }
          assert xs[..|xs|] == xs;
      }
      lineStr := Strip(lineStr, ',');
      lines := lines + [lineStr];
    }
  }

  /** Row `c` of the columns: the `c`-th value of every column, formatted. */
  function Cells(d: Dict<seq<real>>, c: nat, fmt: real -> string): (cells: seq<string>)
    requires forall h :: 0 <= h < |d| ==> c < |d[h].1|
    ensures |cells| == |d|
  {
    seq(|d|, h requires 0 <= h < |d| => fmt(d[h].1[c]))
  }

  /** Line `c + 1` of the columns: their `c`-th values, comma-terminated and
      stripped. */
  function ColumnRow(d: Dict<seq<real>>, c: nat, fmt: real -> string): string
    requires forall h :: 0 <= h < |d| ==> c < |d[h].1|
  {
    Strip(Terminated(Cells(d, c, fmt)), ',')
  }

  /** Some column is shorter than the first one. */
  predicate Ragged(d: Dict<seq<real>>)
    requires |d| > 0
  {
    exists h :: 0 <= h < |d| && |d[h].1| < |d[0].1|
  }

  /** Lines 196-209: the joined header, then one line per value of the first
      column; an empty dictionary, or a column shorter than the first, raises
      IndexError. */
  function ColumnLines(d: Dict<seq<real>>, fmt: real -> string): (r: Result<seq<string>>)
    ensures r.Ok? <==> |d| > 0 && forall h :: 0 <= h < |d| ==> |d[h].1| >= |d[0].1|
    ensures r.Fail? ==> r.error == IndexError
    ensures r.Ok? ==> |r.value| == 1 + |d[0].1|
  {
    if |d| == 0 || Ragged(d) then Fail(IndexError)
    else Ok([Join(Keys(d), ",")] + seq(|d[0].1|, c requires 0 <= c < |d[0].1| => ColumnRow(d, c, fmt)))
  }

  lemma ColumnLinesAt(d: Dict<seq<real>>, fmt: real -> string, c: nat)
    requires ColumnLines(d, fmt).Ok? && c < |d[0].1|
    ensures ColumnLines(d, fmt).value[0] == Join(Keys(d), ",")
    ensures ColumnLines(d, fmt).value[1 + c] == ColumnRow(d, c, fmt)
  {
  }

  /** With clean keys and cells, the header reads back as the keys and line
      `c + 1` as the `c`-th value of every column, in key order. */
  lemma ColumnLinesRoundTrip(d: Dict<seq<real>>, fmt: real -> string)
    requires ColumnLines(d, fmt).Ok?
    requires CleanFields(Keys(d))
    requires forall h, c :: 0 <= h < |d| && 0 <= c < |d[h].1| ==> CleanField(fmt(d[h].1[c]))
    ensures var lines := ColumnLines(d, fmt).value;
      SplitFields(lines[0]) == Keys(d) &&
      forall c :: 0 <= c < |d[0].1| ==> SplitFields(lines[1 + c]) == Cells(d, c, fmt)
  {
    var lines := ColumnLines(d, fmt).value;
    assert lines[0] == Join(Keys(d), ",");
    SplitFieldsJoin(Keys(d));
    forall c | 0 <= c < |d[0].1|
      ensures SplitFields(lines[1 + c]) == Cells(d, c, fmt)
    {
      ColumnLinesAt(d, fmt, c);
      var cells := Cells(d, c, fmt);
      assert forall h :: 0 <= h < |cells| ==> cells[h] == fmt(d[h].1[c]);
      SplitFieldsTerminated(cells);
    }
  }

  /** `columns_from_dict(dict_container)` */
  method ColumnsFromDict(d: Dict<seq<real>>, fmt: real -> string) returns (res: Result<seq<string>>)
    ensures res == ColumnLines(d, fmt)
  {
    if |d| == 0 {
      return Fail(IndexError);
    }
    var header := Keys(d);
    var lines := [Join(header, ",")];
    for c := 0 to |d[0].1|
      invariant forall h :: 0 <= h < |d| ==> |d[h].1| >= c
      invariant |lines| == 1 + c && lines[0] == Join(header, ",")
      invariant forall k :: 0 <= k < c ==> lines[1 + k] == ColumnRow(d, k, fmt)
    {
      var ok, lineStr := CellsLine(d, c, fmt);
      if !ok {
        assert Ragged(d);
        return Fail(IndexError);
      }
      lines := lines + [Strip(lineStr, ',')];
    }
    assert !Ragged(d);
    res := Ok(lines);
    assert lines == ColumnLines(d, fmt).value;
  }

  /** Lines 202-206: the `c`-th value of every column, each followed by a
      comma; IndexError (`ok` false) when some column has no `c`-th value. */
  method CellsLine(d: Dict<seq<real>>, c: nat, fmt: real -> string) returns (ok: bool, lineStr: string)
    ensures ok <==> forall h :: 0 <= h < |d| ==> c < |d[h].1|
    ensures ok ==> lineStr == Terminated(Cells(d, c, fmt))
  {
    lineStr := "";
    ghost var cells: seq<string> := [];
    for h := 0 to |d|
      invariant forall hh :: 0 <= hh < h ==> c < |d[hh].1|
      invariant |cells| == h && forall hh :: 0 <= hh < h ==> cells[hh] == fmt(d[hh].1[c])
      invariant lineStr == Terminated(cells)
    {
      if c >= |d[h].1| {
        return false, lineStr;
      }
      TerminatedSnoc(cells, fmt(d[h].1[c]));
      cells := cells + [fmt(d[h].1[c])];
      lineStr := lineStr + fmt(d[h].1[c]) + ",";
    }
    assert cells == Cells(d, c, fmt);
    return true, lineStr;
  }

  /** Lines 223-229: the series column first, then every entry of `d`; an
      entry named like the series overwrites its values in first place. */
  function SectionDict(unit: string, values: seq<real>, d: Dict<seq<real>>): (r: Dict<seq<real>>)
    ensures |r| > 0 && r[0].0 == unit
  {
    if |d| == 0 then [(unit, values)]
    else Put(SectionDict(unit, values, d[..|d| - 1]), d[|d| - 1].0, d[|d| - 1].1)
  }

  /** When no entry is named like the series, the section is the series
      column followed by the entries. */
  lemma {:induction false} SectionDictFresh(unit: string, values: seq<real>, d: Dict<seq<real>>)
    requires DistinctKeys(d) && unit !in Keys(d)
    ensures SectionDict(unit, values, d) == [(unit, values)] + d
  {
    if |d| > 0 {
      var pre := d[..|d| - 1];
      assert Keys(pre) == Keys(d)[..|d| - 1];
      SectionDictFresh(unit, values, pre);
      assert d[|d| - 1].0 !in Keys([(unit, values)] + pre);
      assert [(unit, values)] + pre + [d[|d| - 1]] == [(unit, values)] + d;
    }
  }

  /** A condition as `rows_from_dict` sees it: a float, or an array whose
      items are formatted one by one. */
  function ConditionValue(c: Condition, fmt: real -> string): RowValue
  {
    match c
    case Scalar(x) => Number(x)
    case Vector(xs) => Items(seq(|xs|, i requires 0 <= i < |xs| => fmt(xs[i])))
  }

  function RowLinesOf(d: Dict<RowValue>, fmt: real -> string): (lines: seq<string>)
    ensures |lines| == |d|
  {
    seq(|d|, i requires 0 <= i < |d| => RowLine(d[i].0, d[i].1, fmt))
  }

  function ConditionRows(conds: Dict<Condition>, fmt: real -> string): (rows: Dict<RowValue>)
    ensures |rows| == |conds|
  {
    seq(|conds|, i requires 0 <= i < |conds| => (conds[i].0, ConditionValue(conds[i].1, fmt)))
  }

  function DetailRows(details: Dict<seq<string>>): (rows: Dict<RowValue>)
    ensures |rows| == |details|
  {
    seq(|details|, i requires 0 <= i < |details| => (details[i].0, Items(details[i].1)))
  }

  /** Lines 231-245: the line sequence `to_string` joins. */
  function ReportLines(code: string, condLines: seq<string>, detailLines: seq<string>,
                       dataLines: seq<string>, errLines: seq<string>): seq<string>
  {
    ["Dataset," + code, "start_conditions"] + condLines + ["end_conditions", "start_analysis_details"]
      + detailLines + ["end_analysis_details", "start_data"] + dataLines + ["end_data", "start_errors"]
      + errLines + ["end_errors"]
  }

  /** Each part of the report sits between the markers the reader looks for. */
  lemma ReportLinesLayout(code: string, condLines: seq<string>, detailLines: seq<string>,
                          dataLines: seq<string>, errLines: seq<string>)
    ensures var lines := ReportLines(code, condLines, detailLines, dataLines, errLines);
      var c := |condLines|;
      var a := |detailLines|;
      var n := |dataLines|;
      var e := |errLines|;
      |lines| == 9 + c + a + n + e &&
      lines[0] == "Dataset," + code && lines[1] == "start_conditions" &&
      lines[2..2 + c] == condLines && lines[2 + c] == "end_conditions" &&
      lines[3 + c] == "start_analysis_details" && lines[4 + c..4 + c + a] == detailLines &&
      lines[4 + c + a] == "end_analysis_details" && lines[5 + c + a] == "start_data" &&
      lines[6 + c + a..6 + c + a + n] == dataLines && lines[6 + c + a + n] == "end_data" &&
      lines[7 + c + a + n] == "start_errors" && lines[8 + c + a + n..8 + c + a + n + e] == errLines &&
      lines[8 + c + a + n + e] == "end_errors"
  {
  }

  /** `to_string()`: the report's lines joined by newlines; fails only where
      `columns_from_dict` fails. */
  function ReportText(code: string, conds: Dict<Condition>, details: Dict<seq<string>>, unit: string,
                      values: seq<real>, data: Dict<seq<real>>, errors: Dict<seq<real>>,
                      fmt: real -> string): (r: Result<string>)
    ensures r.Fail? ==> r.error == IndexError
  {
    var dataLines :- ColumnLines(SectionDict(unit, values, data), fmt);
    var errLines :- ColumnLines(SectionDict(unit, values, errors), fmt);
    Ok(Join(ReportLines(code, RowLinesOf(ConditionRows(conds, fmt), fmt), RowLinesOf(DetailRows(details), fmt),
                        dataLines, errLines), "\n"))
  }

  /** Splitting the text on newlines gives back the report's lines when none
      of them holds a newline. */
  lemma ReportTextLines(code: string, conds: Dict<Condition>, details: Dict<seq<string>>, unit: string,
                        values: seq<real>, data: Dict<seq<real>>, errors: Dict<seq<real>>, fmt: real -> string)
    requires ReportText(code, conds, details, unit, values, data, errors, fmt).Ok?
    ensures var dataLines := ColumnLines(SectionDict(unit, values, data), fmt).value;
      var errLines := ColumnLines(SectionDict(unit, values, errors), fmt).value;
      var lines := ReportLines(code, RowLinesOf(ConditionRows(conds, fmt), fmt), RowLinesOf(DetailRows(details), fmt),
                               dataLines, errLines);
      (forall i :: 0 <= i < |lines| ==> '\n' !in lines[i]) ==>
        Split(ReportText(code, conds, details, unit, values, data, errors, fmt).value, "\n") == lines
  {
    var dataLines := ColumnLines(SectionDict(unit, values, data), fmt).value;
    var errLines := ColumnLines(SectionDict(unit, values, errors), fmt).value;
    var lines := ReportLines(code, RowLinesOf(ConditionRows(conds, fmt), fmt), RowLinesOf(DetailRows(details), fmt),
                             dataLines, errLines);
    if forall i :: 0 <= i < |lines| ==> '\n' !in lines[i] {
      SplitJoin(lines, '\n');
    }
  }
}
