/** The CSV text built by processing_scripts_formose/file_writers.py. Each
    writer accumulates one string and writes it in one go; the model returns
    that string. Float text is the formatter `fmt` (see `ExtReals.Format`).

    Every writer's output is a run of rows of fields. The average/deviation
    writer joins a row's fields with commas; the other two follow every field
    with a comma. */
module FileWriters {
  import opened Wrappers
  import opened Strings
  import opened Dicts
  import opened ExtReals
  import opened CsvLines

  /** The text of `lines`, each followed by a newline. */
  function Text(lines: seq<string>): string
  {
    if |lines| == 0 then "" else Text(lines[..|lines| - 1]) + lines[|lines| - 1] + "\n"
  }

  /** Rows whose fields are joined by commas. */
  function Joined(rows: seq<seq<string>>): (lines: seq<string>)
    ensures |lines| == |rows|
  {
    seq(|rows|, a requires 0 <= a < |rows| => Join(rows[a], ","))
  }

  /** Rows whose fields are each followed by a comma. */
  function Terminate(rows: seq<seq<string>>): (lines: seq<string>)
    ensures |lines| == |rows|
  {
    seq(|rows|, a requires 0 <= a < |rows| => Terminated(rows[a]))
  }

  predicate CleanRows(rows: seq<seq<string>>)
  {
    forall a :: 0 <= a < |rows| ==> |rows[a]| > 0 && CleanFields(rows[a])
  }

  lemma {:induction false} JoinSnoc(parts: seq<string>, p: string, sep: string)
    requires |parts| > 0
    ensures Join(parts + [p], sep) == Join(parts, sep) + sep + p
  {
    if |parts| > 1 {
      assert (parts + [p])[1..] == parts[1..] + [p];
      JoinSnoc(parts[1..], p, sep);
    }
  }

  lemma {:induction false} TextIsJoin(lines: seq<string>)
    ensures Text(lines) == Join(lines + [""], "\n")
  {
    if |lines| > 0 {
      var pre := lines[..|lines| - 1];
      var l := lines[|lines| - 1];
      TextIsJoin(pre);
      assert lines == pre + [l];
      if |pre| > 0 {
        JoinSnoc(pre, "", "\n");
        JoinSnoc(pre, l, "\n");
        JoinSnoc(pre + [l], "", "\n");
      } else {
        assert lines + [""] == [l, ""];
      }
    }
  }

  /** Splitting the text on newlines gives the lines back, and an empty
      piece after the final newline. */
  lemma TextSplit(lines: seq<string>)
    requires forall i :: 0 <= i < |lines| ==> '\n' !in lines[i]
    ensures Split(Text(lines), "\n") == lines + [""]
  {
    var parts := lines + [""];
    forall i | 0 <= i < |parts|
      ensures '\n' !in parts[i]
    {
      if i < |lines| {
        assert parts[i] == lines[i];
      }
    }
    TextIsJoin(lines);
    assert "\n" == ['\n'];
    SplitJoin(parts, '\n');
  }

  /** Text of two runs of lines is the text of each. */
  lemma {:induction false} TextAppend(a: seq<string>, b: seq<string>)
    ensures Text(a + b) == Text(a) + Text(b)
    decreases |b|
  {
    if |b| == 0 {
      assert a + b == a;
    } else {
      var pre := b[..|b| - 1];
      TextAppend(a, pre);
      assert (a + b)[..|a + b| - 1] == a + pre;
    }
  }

  lemma {:induction false} NonEmptyTrailing(fs: seq<string>)
    requires forall i :: 0 <= i < |fs| ==> fs[i] != ""
    ensures NonEmpty(fs + [""]) == fs
  {
    if |fs| > 0 {
      assert (fs + [""])[1..] == fs[1..] + [""];
      NonEmptyTrailing(fs[1..]);
      assert fs == [fs[0]] + fs[1..];
    }
  }

  /** A line of fields each followed by a comma is the fields and an empty
      last piece joined by commas. */
  lemma TerminatedIsJoinEmpty(fs: seq<string>)
    requires |fs| > 0
    ensures Terminated(fs) == Join(fs + [""], ",")
  {
    TerminatedIsJoin(fs);
    JoinSnoc(fs, "", ",");
  }

  /** Clean fields and an empty last piece hold neither separator. */
  lemma CleanTrailing(fs: seq<string>)
    requires CleanFields(fs)
    ensures forall i :: 0 <= i < |fs + [""]| ==> ',' !in (fs + [""])[i] && '\n' !in (fs + [""])[i]
  {
    forall i | 0 <= i < |fs + [""]|
      ensures ',' !in (fs + [""])[i] && '\n' !in (fs + [""])[i]
    {
      if i < |fs| {
        assert (fs + [""])[i] == fs[i] && CleanField(fs[i]);
      }
    }
  }

  /** A line of clean fields each followed by a comma ends with a comma and
      holds no newline. */
  lemma TerminatedShape(fs: seq<string>)
    requires |fs| > 0 && CleanFields(fs)
    ensures var line := Terminated(fs); |line| > 0 && line[|line| - 1] == ',' && '\n' !in line
  {
    var parts := fs + [""];
    TerminatedIsJoin(fs);
    CleanTrailing(fs);
    TerminatedIsJoinEmpty(fs);
    JoinLacks(parts, ",", '\n');
  }

  /** The line splitter reads a line of clean fields, each followed by a
      comma, back as the fields. */
  lemma TerminatedReadBack(fs: seq<string>)
    requires |fs| > 0 && CleanFields(fs)
    ensures SplitFields(Terminated(fs)) == fs
  {
    var line := Terminated(fs);
    var parts := fs + [""];
    TerminatedShape(fs);
    assert line[0] in line;
    StripUnchanged(line, '\n');
    assert Strip(line, '\n') == line;
    CleanTrailing(fs);
    TerminatedIsJoinEmpty(fs);
    assert "," == [','];
    SplitJoin(parts, ',');
    assert Split(line, ",") == parts;
    NonEmptyTrailing(fs);
  }

  /** Rows of clean fields, each field followed by a comma: every line ends
      with a comma, the text splits back into the lines, and each line into
      its row's fields. */
  lemma TerminatedRowsReadBack(rows: seq<seq<string>>)
    requires CleanRows(rows)
    ensures var lines := Terminate(rows);
      Split(Text(lines), "\n") == lines + [""] &&
      forall a :: 0 <= a < |rows| ==>
        |lines[a]| > 0 && lines[a][|lines[a]| - 1] == ',' && SplitFields(lines[a]) == rows[a]
  {
    var lines := Terminate(rows);
    forall a | 0 <= a < |rows|
      ensures '\n' !in lines[a] && lines[a][|lines[a]| - 1] == ',' && SplitFields(lines[a]) == rows[a]
    {
      TerminatedShape(rows[a]);
      TerminatedReadBack(rows[a]);
    }
    TextSplit(lines);
  }

  /** Rows of clean fields joined by commas: the text splits back into the
      lines, and each line into its row's fields. */
  lemma JoinedRowsReadBack(rows: seq<seq<string>>)
    requires CleanRows(rows)
    ensures var lines := Joined(rows);
      Split(Text(lines), "\n") == lines + [""] &&
      forall a :: 0 <= a < |rows| ==> SplitFields(lines[a]) == rows[a]
  {
    var lines := Joined(rows);
    forall a | 0 <= a < |rows|
      ensures '\n' !in lines[a] && SplitFields(lines[a]) == rows[a]
    {
      JoinLacks(rows[a], ",", '\n');
      SplitFieldsJoin(rows[a]);
    }
    TextSplit(lines);
  }

  /** Appends the fields of `fs`, each followed by a comma, as lines 32-33,
      38-39, 44-45, 69 and 74-75 do. */
  method AppendTerminated(s: string, fs: seq<string>) returns (r: string)
    ensures r == s + Terminated(fs)
  {
    r := s;
    for k := 0 to |fs|
      invariant r == s + Terminated(fs[..k])
    {
      TerminatedSnoc(fs[..k], fs[k]);
      assert fs[..k + 1] == fs[..k] + [fs[k]];
      r := r + fs[k] + ",";
    }
    assert fs[..|fs|] == fs;
  }

  /** Appends each row as a line of fields followed by commas. */
  method AppendRows(s: string, rows: seq<seq<string>>) returns (r: string)
    ensures r == s + Text(Terminate(rows))
  {
    r := s;
    for a := 0 to |rows|
      invariant r == s + Text(Terminate(rows[..a]))
    {
      r := AppendTerminated(r, rows[a]);
      r := r + "\n";
      TerminateTextSnoc(rows, a);
    }
    assert rows[..|rows|] == rows;
  }

  /** One more row adds its line to the text. */
  lemma TerminateTextSnoc(rows: seq<seq<string>>, a: int)
    requires 0 <= a < |rows|
    ensures Text(Terminate(rows[..a + 1])) == Text(Terminate(rows[..a])) + Terminated(rows[a]) + "\n"
  {
    assert Terminate(rows[..a + 1])[..a] == Terminate(rows[..a]);
  }

  // write_average_stdev_csv

  const AverageStdevHeader: seq<string> := ["index", "compound", "average/ M", "standard deviation/ M"]

  /** Four fields joined by commas. */
  lemma JoinFour(a: string, b: string, c: string, d: string)
    ensures Join([a, b, c, d], ",") == a + "," + b + "," + c + "," + d
  {
    assert [a, b, c, d][1..] == [b, c, d];
    assert [b, c, d][1..] == [c, d];
    assert [c, d][1..] == [d];
    assert Join([c, d], ",") == c + "," + d;
    assert Join([b, c, d], ",") == b + "," + (c + "," + d);
  }

  /** The header fields are clean. */
  lemma AverageStdevHeaderClean()
    ensures CleanFields(AverageStdevHeader)
  {
    assert CleanField("index") && CleanField("compound");
    assert CleanField("average/ M");
    DeviationHeaderClean();
  }

  lemma DeviationHeaderClean()
    ensures CleanField("standard deviation/ M")
  {
    assert "standard deviation/ M" == "standard " + "deviation/ M";
    assert ',' !in "standard " && '\n' !in "standard ";
    assert ',' !in "deviation/ M" && '\n' !in "deviation/ M";
  }

  /** Lines 19-22 for one compound: its index looked up by the key prefix
      before "/", the prefix, its average and its standard deviation. */
  function AverageStdevFields(compound: string, average: ExtReal, stDevs: Dict<ExtReal>,
                              compInd: Dict<string>, fmt: real -> string): (r: Result<seq<string>>)
    ensures r.Fail? <==> FirstToken(compound, '/') !in Keys(compInd) || compound !in Keys(stDevs)
    ensures r.Fail? ==> r.error == KeyError
    ensures r.Ok? ==> (|r.value| == 4 && r.value[1] == FirstToken(compound, '/') &&
      r.value[0] == Get(compInd, FirstToken(compound, '/')))
  {
    var token := FirstToken(compound, '/');
    var ind :- Lookup(compInd, token);
    var sd :- Lookup(stDevs, compound);
    Ok([ind, token, Format(average, fmt), Format(sd, fmt)])
  }

  /** The row of one (compound, average) entry. */
  function AverageStdevRow(stDevs: Dict<ExtReal>, compInd: Dict<string>, fmt: real -> string):
    ((string, ExtReal)) -> Result<seq<string>>
  {
    (e: (string, ExtReal)) => AverageStdevFields(e.0, e.1, stDevs, compInd, fmt)
  }

  /** The rows after the header, one per compound of `averages` in order;
      a missing prefix or deviation raises KeyError. */
  function AverageStdevRows(averages: Dict<ExtReal>, stDevs: Dict<ExtReal>, compInd: Dict<string>,
                            fmt: real -> string): (r: Result<seq<seq<string>>>)
    ensures r.Fail? ==> r.error == KeyError
    ensures r.Ok? ==> |r.value| == |averages|
  {
    var f := AverageStdevRow(stDevs, compInd, fmt);
    var r := MapResult(averages, f);
    if r.Fail? then
      var i :| 0 <= i < |averages| && f(averages[i]) == Fail(r.error);
      assert f(averages[i]) == AverageStdevFields(averages[i].0, averages[i].1, stDevs, compInd, fmt);
      r
    else r
  }

  /** The table raises exactly when some compound raises, and otherwise
      holds each compound's row in order. */
  lemma AverageStdevRowsSpec(averages: Dict<ExtReal>, stDevs: Dict<ExtReal>,
                             compInd: Dict<string>, fmt: real -> string)
    ensures var r := AverageStdevRows(averages, stDevs, compInd, fmt);
      (r.Fail? <==> exists i :: (0 <= i < |averages| &&
        AverageStdevFields(averages[i].0, averages[i].1, stDevs, compInd, fmt).Fail?)) &&
      (r.Ok? ==> forall i :: 0 <= i < |averages| ==>
        r.value[i] == AverageStdevFields(averages[i].0, averages[i].1, stDevs, compInd, fmt).value)
  {
    var f := AverageStdevRow(stDevs, compInd, fmt);
    MapResultSpec(averages, f);
    assert forall i :: 0 <= i < |averages| ==>
      f(averages[i]) == AverageStdevFields(averages[i].0, averages[i].1, stDevs, compInd, fmt);
  }

  /** Lines 19-22: the line of one compound, newline included. */
  method AverageStdevLine(compound: string, average: ExtReal, stDevs: Dict<ExtReal>,
                          compInd: Dict<string>, fmt: real -> string) returns (res: Result<string>)
    ensures var fields := AverageStdevFields(compound, average, stDevs, compInd, fmt);
      if fields.Fail? then res == Fail(KeyError) else res == Ok(Join(fields.value, ",") + "\n")
  {
    var compoundToken := FirstToken(compound, '/');
    if compoundToken !in Keys(compInd) {
      return Fail(KeyError);
    }
    var ind := Get(compInd, compoundToken);
    var line := ind + "," + compoundToken + "," + Format(average, fmt) + ",";
    if compound !in Keys(stDevs) {
      return Fail(KeyError);
    }
    var sd := Format(Get(stDevs, compound), fmt);
    JoinFour(ind, compoundToken, Format(average, fmt), sd);
    return Ok(line + sd + "\n");
  }

  /** One more comma-joined row adds its line to the text. */
  lemma JoinedTextSnoc(head: seq<seq<string>>, rows: seq<seq<string>>, fields: seq<string>)
    ensures Text(Joined(head + (rows + [fields]))) == Text(Joined(head + rows)) + Join(fields, ",") + "\n"
  {
    var before := head + rows;
    assert head + (rows + [fields]) == before + [fields];
    var lines := Joined(before + [fields]);
    assert lines[..|before|] == Joined(before);
    assert lines[|before|] == Join(fields, ",");
  }

  /** A compound that raises makes the whole table raise. */
  lemma AverageStdevStop(averages: Dict<ExtReal>, stDevs: Dict<ExtReal>, compInd: Dict<string>,
                         fmt: real -> string, i: nat)
    requires i < |averages| && AverageStdevFields(averages[i].0, averages[i].1, stDevs, compInd, fmt).Fail?
    ensures MapResult(averages, AverageStdevRow(stDevs, compInd, fmt)).Fail?
  {
    var f := AverageStdevRow(stDevs, compInd, fmt);
    assert f(averages[i]) == AverageStdevFields(averages[i].0, averages[i].1, stDevs, compInd, fmt);
    MapResultStop(averages, f, i);
  }

  /** One more compound that does not raise adds its row, and its line to
      the text. */
  lemma AverageStdevStep(averages: Dict<ExtReal>, stDevs: Dict<ExtReal>, compInd: Dict<string>,
                         fmt: real -> string, i: nat, rows: seq<seq<string>>)
    requires i < |averages| && MapResult(averages[..i], AverageStdevRow(stDevs, compInd, fmt)) == Ok(rows)
    requires AverageStdevFields(averages[i].0, averages[i].1, stDevs, compInd, fmt).Ok?
    ensures var fields := AverageStdevFields(averages[i].0, averages[i].1, stDevs, compInd, fmt).value;
      MapResult(averages[..i + 1], AverageStdevRow(stDevs, compInd, fmt)) == Ok(rows + [fields]) &&
      Text(Joined(rows + [fields])) == Text(Joined(rows)) + Join(fields, ",") + "\n"
  {
    var f := AverageStdevRow(stDevs, compInd, fmt);
    var fields := AverageStdevFields(averages[i].0, averages[i].1, stDevs, compInd, fmt).value;
    assert f(averages[i]) == AverageStdevFields(averages[i].0, averages[i].1, stDevs, compInd, fmt);
    MapResultSnoc(averages, f, i, rows);
    JoinedTextSnoc([], rows, fields);
    assert [] + rows == rows && [] + (rows + [fields]) == rows + [fields];
  }

  /** Lines 18-22: the lines after the header, one per compound in order. */
  method AverageStdevBody(averages: Dict<ExtReal>, stDevs: Dict<ExtReal>, compInd: Dict<string>,
                          fmt: real -> string) returns (res: Result<string>)
    ensures res.Fail? <==> AverageStdevRows(averages, stDevs, compInd, fmt).Fail?
    ensures res.Fail? ==> res.error == KeyError
    ensures res.Ok? ==> res.value == Text(Joined(AverageStdevRows(averages, stDevs, compInd, fmt).value))
  {
    var dataString := "";
    ghost var rows: seq<seq<string>> := [];
    ghost var f := AverageStdevRow(stDevs, compInd, fmt);
    for i := 0 to |averages|
      invariant MapResult(averages[..i], f) == Ok(rows)
      invariant dataString == Text(Joined(rows))
    {
      var line := AverageStdevLine(averages[i].0, averages[i].1, stDevs, compInd, fmt);
      if line.Fail? {
        AverageStdevStop(averages, stDevs, compInd, fmt, i);
        return Fail(KeyError);
      }
      ghost var fields := AverageStdevFields(averages[i].0, averages[i].1, stDevs, compInd, fmt).value;
      AverageStdevStep(averages, stDevs, compInd, fmt, i, rows);
      dataString := dataString + line.value;
      rows := rows + [fields];
    }
    assert averages[..|averages|] == averages;
    return Ok(dataString);
  }

  /** The header line and then the given lines. */
  lemma HeaderText(header: seq<string>, rows: seq<seq<string>>)
    ensures Text(Joined([header] + rows)) == Join(header, ",") + "\n" + Text(Joined(rows))
  {
    assert Joined([header] + rows) == [Join(header, ",")] + Joined(rows);
    TextAppend([Join(header, ",")], Joined(rows));
    assert [Join(header, ",")][..0] == [];
  }

  /** `write_average_stdev_csv(averages, st_devs, comp_ind)`: the text written. */
  method WriteAverageStdevCsv(averages: Dict<ExtReal>, stDevs: Dict<ExtReal>, compInd: Dict<string>,
                              fmt: real -> string) returns (res: Result<string>)
    ensures res.Fail? <==> AverageStdevRows(averages, stDevs, compInd, fmt).Fail?
    ensures res.Fail? ==> res.error == KeyError
    ensures res.Ok? ==> res.value == Text(Joined([AverageStdevHeader] + AverageStdevRows(averages, stDevs, compInd, fmt).value))
  {
    var header := Join(AverageStdevHeader, ",") + "\n";
    var body := AverageStdevBody(averages, stDevs, compInd, fmt);
    if body.Fail? {
      return Fail(KeyError);
    }
    HeaderText(AverageStdevHeader, AverageStdevRows(averages, stDevs, compInd, fmt).value);
    return Ok(header + body.value);
  }

  /** A header of clean fields followed by clean rows, joined by commas,
      reads back as the header, the rows in order and a last empty piece. */
  lemma HeaderRowsReadBack(header: seq<string>, body: seq<seq<string>>)
    requires |header| > 0 && CleanFields(header) && CleanRows(body)
    ensures var parts := Split(Text(Joined([header] + body)), "\n");
      |parts| == |body| + 2 && SplitFields(parts[0]) == header && parts[|body| + 1] == "" &&
      forall i :: 0 <= i < |body| ==> SplitFields(parts[i + 1]) == body[i]
  {
    var rows := [header] + body;
    CleanCons(header, body);
    JoinedRowsReadBack(rows);
    ConsReadBack(Split(Text(Joined(rows)), "\n"), header, body);
  }

  /** Pieces that read back as a header row followed by body rows. */
  lemma ConsReadBack(parts: seq<string>, header: seq<string>, body: seq<seq<string>>)
    requires |parts| == |body| + 2 && parts[|body| + 1] == ""
    requires forall a :: 0 <= a < |body| + 1 ==> SplitFields(parts[a]) == ([header] + body)[a]
    ensures SplitFields(parts[0]) == header
    ensures forall i :: 0 <= i < |body| ==> SplitFields(parts[i + 1]) == body[i]
  {
    assert SplitFields(parts[0]) == ([header] + body)[0];
    forall i | 0 <= i < |body|
      ensures SplitFields(parts[i + 1]) == body[i]
    {
      assert SplitFields(parts[i + 1]) == ([header] + body)[i + 1];
    }
  }

  /** A clean header row before clean rows keeps them clean. */
  lemma CleanCons(header: seq<string>, body: seq<seq<string>>)
    requires |header| > 0 && CleanFields(header) && CleanRows(body)
    ensures CleanRows([header] + body)
  {
    var rows := [header] + body;
    forall a | 0 <= a < |rows|
      ensures |rows[a]| > 0 && CleanFields(rows[a])
    {
      if a > 0 {
        assert rows[a] == body[a - 1];
      }
    }
  }

  /** With clean fields, the written text reads back as the header and one
      line per compound of `averages`, in order, holding that compound's
      index (looked up by its prefix), prefix, average and deviation. */
  lemma AverageStdevReadBack(averages: Dict<ExtReal>, stDevs: Dict<ExtReal>, compInd: Dict<string>,
                             fmt: real -> string)
    requires AverageStdevRows(averages, stDevs, compInd, fmt).Ok?
    requires CleanRows(AverageStdevRows(averages, stDevs, compInd, fmt).value)
    ensures var parts := Split(Text(Joined([AverageStdevHeader] + AverageStdevRows(averages, stDevs, compInd, fmt).value)), "\n");
      |parts| == |averages| + 2 && SplitFields(parts[0]) == AverageStdevHeader &&
      parts[|averages| + 1] == "" &&
      forall i :: 0 <= i < |averages| ==>
        AverageStdevFields(averages[i].0, averages[i].1, stDevs, compInd, fmt).Ok? &&
        SplitFields(parts[i + 1]) == AverageStdevFields(averages[i].0, averages[i].1, stDevs, compInd, fmt).value
  {
    AverageStdevHeaderClean();
    AverageStdevRowsSpec(averages, stDevs, compInd, fmt);
    HeaderRowsReadBack(AverageStdevHeader, AverageStdevRows(averages, stDevs, compInd, fmt).value);
  }

  // write_corr_csv

  /** Lines 31-34: "compound_ind" and the compound indices. */
  function CorrHeader(ind: seq<string>): seq<string> { ["compound_ind"] + ind }

  /** Lines 37-39: the interval's label and each entry's correlation. */
  function CorrValueFields(t: int, row: seq<(real, string)>, fmt: real -> string): (fs: seq<string>)
    ensures |fs| == 1 + |row|
  {
    [IntToString(t) + "_s"] + seq(|row|, k requires 0 <= k < |row| => fmt(row[k].0))
  }

  /** Lines 43-45: the interval's label and each entry's colour. */
  function CorrHexFields(t: int, row: seq<(real, string)>): (fs: seq<string>)
    ensures |fs| == 1 + |row|
  {
    [IntToString(t) + "_s_hex_col"] + seq(|row|, k requires 0 <= k < |row| => row[k].1)
  }

  /** The rows of `write_corr_csv`: the header, the correlation rows, then
      the colour rows, both in interval order. An interval list shorter than
      `corr` raises IndexError. */
  function CorrRows(corr: seq<seq<(real, string)>>, tInterval: seq<int>, ind: seq<string>,
                    fmt: real -> string): (r: Result<seq<seq<string>>>)
    ensures r.Fail? <==> |corr| > |tInterval|
    ensures r.Fail? ==> r.error == IndexError
    ensures r.Ok? ==> |r.value| == 1 + 2 * |corr|
  {
    if |corr| > |tInterval| then Fail(IndexError)
    else Ok([CorrHeader(ind)] +
            seq(|corr|, a requires 0 <= a < |corr| => CorrValueFields(tInterval[a], corr[a], fmt)) +
            seq(|corr|, a requires 0 <= a < |corr| => CorrHexFields(tInterval[a], corr[a])))
  }

  /** The text of three runs of rows is the text of each. */
  lemma TerminateText3(a: seq<seq<string>>, b: seq<seq<string>>, c: seq<seq<string>>)
    ensures Text(Terminate(a + b + c)) == Text(Terminate(a)) + Text(Terminate(b)) + Text(Terminate(c))
  {
    assert Terminate(a + b + c) == Terminate(a) + Terminate(b) + Terminate(c);
    TextAppend(Terminate(a) + Terminate(b), Terminate(c));
    TextAppend(Terminate(a), Terminate(b));
  }

  /** `write_corr_csv(corr, t_interval, ind)`: the text written. The
      IndexError of line 37 stops the writer before anything is written, so
      it is checked first. */
  method WriteCorrCsv(corr: seq<seq<(real, string)>>, tInterval: seq<int>, ind: seq<string>,
                      fmt: real -> string) returns (res: Result<string>)
    ensures res.Fail? <==> CorrRows(corr, tInterval, ind, fmt).Fail?
    ensures res.Fail? ==> res.error == IndexError
    ensures res.Ok? ==> res.value == Text(Terminate(CorrRows(corr, tInterval, ind, fmt).value))
  {
    var dataString := AppendTerminated("", CorrHeader(ind));
    dataString := dataString + "\n";
    if |corr| > |tInterval| {
      return Fail(IndexError);
    }
    var valueRows := seq(|corr|, a requires 0 <= a < |corr| => CorrValueFields(tInterval[a], corr[a], fmt));
    var hexRows := seq(|corr|, a requires 0 <= a < |corr| => CorrHexFields(tInterval[a], corr[a]));
    dataString := AppendRows(dataString, valueRows);
    dataString := AppendRows(dataString, hexRows);
    assert CorrRows(corr, tInterval, ind, fmt).value == [CorrHeader(ind)] + valueRows + hexRows;
    TerminateText3([CorrHeader(ind)], valueRows, hexRows);
    return Ok(dataString);
  }

  /** With clean fields, the text reads back as `1 + 2 * |corr|` lines, each
      ending with a comma: the header, then per interval its label and
      correlations, then per interval its label and colours, each row with
      one field per entry after the label. */
  lemma CorrReadBack(corr: seq<seq<(real, string)>>, tInterval: seq<int>, ind: seq<string>, fmt: real -> string)
    requires CorrRows(corr, tInterval, ind, fmt).Ok?
    requires CleanRows(CorrRows(corr, tInterval, ind, fmt).value)
    ensures var lines := Terminate(CorrRows(corr, tInterval, ind, fmt).value);
      |lines| == 1 + 2 * |corr| &&
      Split(Text(lines), "\n") == lines + [""] &&
      (forall i :: 0 <= i < |lines| ==> |lines[i]| > 0 && lines[i][|lines[i]| - 1] == ',') &&
      SplitFields(lines[0]) == CorrHeader(ind) &&
      forall a :: 0 <= a < |corr| ==>
        SplitFields(lines[1 + a]) == CorrValueFields(tInterval[a], corr[a], fmt) &&
        SplitFields(lines[1 + |corr| + a]) == CorrHexFields(tInterval[a], corr[a])
  {
    var rows := CorrRows(corr, tInterval, ind, fmt).value;
    forall a | 0 <= a < |corr|
      ensures rows[1 + a] == CorrValueFields(tInterval[a], corr[a], fmt)
      ensures rows[1 + |corr| + a] == CorrHexFields(tInterval[a], corr[a])
    {
      CorrRowsAt(corr, tInterval, ind, fmt, a);
    }
    TerminatedRowsReadBack(rows);
  }

  /** Row `1 + a` holds interval `a`'s correlations and row `1 + |corr| + a`
      its colours. */
  lemma CorrRowsAt(corr: seq<seq<(real, string)>>, tInterval: seq<int>, ind: seq<string>, fmt: real -> string, a: int)
    requires CorrRows(corr, tInterval, ind, fmt).Ok? && 0 <= a < |corr|
    ensures CorrRows(corr, tInterval, ind, fmt).value[1 + a] == CorrValueFields(tInterval[a], corr[a], fmt)
    ensures CorrRows(corr, tInterval, ind, fmt).value[1 + |corr| + a] == CorrHexFields(tInterval[a], corr[a])
  {
    var v := seq(|corr|, a requires 0 <= a < |corr| => CorrValueFields(tInterval[a], corr[a], fmt));
    var h := seq(|corr|, a requires 0 <= a < |corr| => CorrHexFields(tInterval[a], corr[a]));
    assert CorrRows(corr, tInterval, ind, fmt).value == [CorrHeader(ind)] + v + h;
    ThreeRuns(CorrHeader(ind), v, h, a);
  }

  /** Positions in a row followed by two runs of equal length. */
  lemma ThreeRuns<T>(x: T, v: seq<T>, h: seq<T>, a: nat)
    requires a < |v| == |h|
    ensures ([x] + v + h)[1 + a] == v[a] && ([x] + v + h)[1 + |v| + a] == h[a]
  {
  }

  // write_rel_diff_csv

  /** Lines 73-75 for one compound: its key and each of its values. */
  function RelDiffFields(entry: (string, seq<ExtReal>), fmt: real -> string): (fs: seq<string>)
    ensures |fs| == 1 + |entry.1|
  {
    [entry.0] + seq(|entry.1|, k requires 0 <= k < |entry.1| => Format(entry.1[k], fmt))
  }

  /** The rows of `write_rel_diff_csv`: "compound" and the experiment names,
      then one row per key of the table in order. */
  function RelDiffRows(table: Dict<seq<ExtReal>>, exp: seq<string>, fmt: real -> string): (rows: seq<seq<string>>)
    ensures |rows| == 1 + |table|
  {
    [["compound"] + exp] + seq(|table|, i requires 0 <= i < |table| => RelDiffFields(table[i], fmt))
  }

  /** `write_rel_diff_csv(dic_rel_diff, exp)`: the text written. */
  method WriteRelDiffCsv(table: Dict<seq<ExtReal>>, exp: seq<string>, fmt: real -> string) returns (text: string)
    ensures text == Text(Terminate(RelDiffRows(table, exp, fmt)))
  {
    var dataString := AppendTerminated("compound,", exp);
    assert (["compound"] + exp)[1..] == exp;
    dataString := dataString + "\n";
    var rows := seq(|table|, i requires 0 <= i < |table| => RelDiffFields(table[i], fmt));
    dataString := AppendRows(dataString, rows);
    ghost var head := [["compound"] + exp];
    assert Terminate(head + rows) == Terminate(head) + Terminate(rows);
    TextAppend(Terminate(head), Terminate(rows));
    return dataString;
  }

  /** With clean fields, the text reads back as the header and one line per
      compound of the table, in order, with exactly its values. */
  lemma RelDiffReadBack(table: Dict<seq<ExtReal>>, exp: seq<string>, fmt: real -> string)
    requires CleanRows(RelDiffRows(table, exp, fmt))
    ensures var lines := Terminate(RelDiffRows(table, exp, fmt));
      Split(Text(lines), "\n") == lines + [""] &&
      SplitFields(lines[0]) == ["compound"] + exp &&
      forall i :: 0 <= i < |table| ==>
        SplitFields(lines[1 + i]) == RelDiffFields(table[i], fmt) && |SplitFields(lines[1 + i])| == 1 + |table[i].1|
  {
    var rows := RelDiffRows(table, exp, fmt);
    forall i | 0 <= i < |table|
      ensures rows[1 + i] == RelDiffFields(table[i], fmt)
    {
    }
    TerminatedRowsReadBack(rows);
  }
}
