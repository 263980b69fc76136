/** The configuration readers of processing_scripts_formose/config_file.py.
    The file contents are parameters: `load_config` receives the text of the
    file, `load_exp_info` the lines its file iterator yields. */
module ConfigFile {
  import opened Wrappers
  import opened Strings
  import opened Dicts

  /** Python `s.split(",")[0]` and `[1]` as a pair. */
  lemma SplitTwo(line: string)
    requires |Split(line, ",")| >= 2
    ensures StartsWith(line, Split(line, ",")[0] + "," + Split(line, ",")[1])
  {
    var tokens := Split(line, ",");
    JoinSplit(line, ",");
    var rest := Join(tokens[1..], ",");
    assert line == tokens[0] + "," + rest;
    if |tokens| > 2 {
      assert tokens[1..][1..] == tokens[2..];
      assert rest == tokens[1] + "," + Join(tokens[2..], ",");
      assert line == (tokens[0] + "," + tokens[1]) + ("," + Join(tokens[2..], ","));
    } else {
      assert rest == tokens[1];
    }
  }

  /** Lines 27-28 for one line: its first two comma-separated tokens, key
      and value. A line without a comma has one token, and `tokens[1]`
      raises IndexError. */
  function ConfigEntry(line: string): (r: Result<(string, string)>)
    ensures r.Fail? <==> ',' !in line
    ensures r.Fail? ==> r.error == IndexError
    ensures r.Ok? ==> (r.value.0 == FirstToken(line, ',') && ',' !in r.value.0 && ',' !in r.value.1 &&
      StartsWith(line, r.value.0 + "," + r.value.1))
  {
    var tokens := Split(line, ",");
    assert "," == [','];
    SplitSingleIffAbsent(line, ",");
    ContainsChar(line, ',');
    if |tokens| < 2 then Fail(IndexError)
    else
      SplitTwo(line);
      FirstTokenIsSplit(line, ',');
      SplitPiecesLackSep(line, ",");
      assert tokens[0] in tokens && tokens[1] in tokens;
      ContainsChar(tokens[0], ',');
      ContainsChar(tokens[1], ',');
      Ok((tokens[0], tokens[1]))
  }

  /** `load_config` on the text of the file: each line in turn sets its key
      to its value. */
  function Config(text: string): (r: Result<Dict<string>>)
    ensures r.Fail? ==> r.error == IndexError
  {
    var pairs :- MapResult(TextLines(text), ConfigEntry);
    Ok(PutAll(pairs))
  }

  /** `load_config(filename)`, lines 20-30, on the text the file holds. */
  method LoadConfig(text: string) returns (res: Result<Dict<string>>)
    ensures res == Config(text)
  {
    var lines := TextLines(text);
    var config: Dict<string> := [];
    ghost var pairs: seq<(string, string)> := [];
    for i := 0 to |lines|
      invariant MapResult(lines[..i], ConfigEntry) == Ok(pairs)
      invariant config == PutAll(pairs)
    {
      var tokens := Split(lines[i], ",");
      if |tokens| < 2 {
        MapResultStop(lines, ConfigEntry, i);
        return Fail(IndexError);
      }
      MapResultSnoc(lines, ConfigEntry, i, pairs);
      config := Put(config, tokens[0], tokens[1]);
      PutAllSnoc(pairs, tokens[0], tokens[1]);
      pairs := pairs + [(tokens[0], tokens[1])];
    }
    assert lines[..|lines|] == lines;
    return Ok(config);
  }

  /** The configuration raises exactly when a non-empty line has no comma. */
  lemma ConfigFail(text: string)
    ensures Config(text).Fail? <==> exists i :: 0 <= i < |TextLines(text)| && ',' !in TextLines(text)[i]
  {
    var lines := TextLines(text);
    var f := ConfigEntry;
    MapResultSpec(lines, f);
    if exists i :: 0 <= i < |lines| && ',' !in lines[i] {
      var i :| 0 <= i < |lines| && ',' !in lines[i];
      assert f(lines[i]) == ConfigEntry(lines[i]);
      MapResultStop(lines, f, i);
    }
    if Config(text).Fail? {
      var i :| 0 <= i < |lines| && f(lines[i]).Fail?;
      assert f(lines[i]) == ConfigEntry(lines[i]);
    }
  }

  /** Otherwise line `i` gives the pair keyed by its first token. */
  lemma ConfigPairKeys(text: string)
    requires Config(text).Ok?
    ensures var pairs := MapResult(TextLines(text), ConfigEntry).value;
      |pairs| == |TextLines(text)| &&
      forall i :: 0 <= i < |pairs| ==> pairs[i].0 == FirstToken(TextLines(text)[i], ',')
  {
    var lines := TextLines(text);
    var f := ConfigEntry;
    MapResultSpec(lines, f);
    var pairs := MapResult(lines, f).value;
    forall i | 0 <= i < |pairs|
      ensures pairs[i].0 == FirstToken(lines[i], ',')
    {
      assert f(lines[i]) == ConfigEntry(lines[i]);
    }
  }

  /** So its keys are exactly the lines' first tokens. */
  lemma ConfigKeys(text: string)
    requires Config(text).Ok?
    ensures forall k :: k in Keys(Config(text).value) <==>
      exists i :: 0 <= i < |TextLines(text)| && FirstToken(TextLines(text)[i], ',') == k
  {
    var lines := TextLines(text);
    var pairs := MapResult(lines, ConfigEntry).value;
    ConfigPairKeys(text);
    var ks := seq(|lines|, i requires 0 <= i < |lines| => FirstToken(lines[i], ','));
    PutAllKeysAre(pairs, ks);
    FirstTokensAre(lines, ks);
  }

  /** A token is among the lines' first tokens exactly when some line starts
      with it. */
  lemma FirstTokensAre(lines: seq<string>, ks: seq<string>)
    requires |ks| == |lines| && forall i :: 0 <= i < |lines| ==> ks[i] == FirstToken(lines[i], ',')
    ensures forall k :: k in ks <==> exists i :: 0 <= i < |lines| && FirstToken(lines[i], ',') == k
  {
    forall k | k in ks
      ensures exists i :: 0 <= i < |lines| && FirstToken(lines[i], ',') == k
    {
      var i :| 0 <= i < |ks| && ks[i] == k;
    }
  }

  /** A key holds the value of the last line that sets it: extra tokens are
      ignored and later lines overwrite earlier ones. */
  lemma ConfigLastWins(text: string, i: nat)
    requires Config(text).Ok? && i < |TextLines(text)|
    requires forall j :: i < j < |TextLines(text)| ==> FirstToken(TextLines(text)[j], ',') != FirstToken(TextLines(text)[i], ',')
    ensures |Split(TextLines(text)[i], ",")| >= 2
    ensures var d := Config(text).value; var tokens := Split(TextLines(text)[i], ",");
      tokens[0] in Keys(d) && Get(d, tokens[0]) == tokens[1]
  {
    var lines := TextLines(text);
    MapResultSpec(lines, ConfigEntry);
    var pairs := MapResult(lines, ConfigEntry).value;
    assert ConfigEntry(lines[i]).Ok?;
    forall j | i < j < |pairs|
      ensures pairs[j].0 != pairs[i].0
    {
      assert pairs[j].0 == FirstToken(lines[j], ',');
    }
    PutAllLastWins(pairs, i);
  }

  // load_exp_info

  /** Lines 36-39: the fields of the lines whose first field is one of
      `experiments`, in file order. */
  function Selected(lines: seq<string>, experiments: seq<string>): (rows: seq<seq<string>>)
    ensures |rows| <= |lines|
    ensures forall k :: 0 <= k < |rows| ==> |rows[k]| >= 1 && rows[k][0] in experiments
  {
    if |lines| == 0 then []
    else
      var prev := Selected(lines[..|lines| - 1], experiments);
      var x := LineFields(lines[|lines| - 1]);
      if x[0] in experiments then prev + [x] else prev
  }

  /** Selection keeps file order: the rows of two runs of lines are the rows
      of the first run and then those of the second. */
  lemma {:induction false} SelectedAppend(a: seq<string>, b: seq<string>, experiments: seq<string>)
    ensures Selected(a + b, experiments) == Selected(a, experiments) + Selected(b, experiments)
    decreases |b|
  {
    if |b| == 0 {
      assert a + b == a;
    } else {
      var pre := b[..|b| - 1];
      SelectedAppend(a, pre, experiments);
      assert (a + b)[..|a + b| - 1] == a + pre;
    }
  }

  /** A single line is kept exactly when its first field is an experiment. */
  lemma SelectedOne(line: string, experiments: seq<string>)
    ensures Selected([line], experiments) == if LineFields(line)[0] in experiments then [LineFields(line)] else []
  {
    assert [line][..0] == [];
  }

  /** Lines 43-46 for one row: fields 1 to 5, with "stdev" in field 4
      written as the Greek sigma. A row of fewer than six fields raises
      IndexError. */
  function ExpEntry(x: seq<string>): (r: Result<(string, seq<string>)>)
    ensures r.Fail? <==> |x| < 6
    ensures r.Fail? ==> r.error == IndexError
    ensures r.Ok? ==> r.value.0 == x[0] && |r.value.1| == 5 && r.value.1[..3] == x[1..4] && r.value.1[4] == x[5]
  {
    if |x| < 6 then Fail(IndexError)
    else Ok((x[0], [x[1], x[2], x[3], ReplaceAll(x[4], "stdev", "σ"), x[5]]))
  }

  /** The description keeps a field 4 without "stdev" and writes "stdev"
      alone as sigma. */
  lemma ExpEntryName(x: seq<string>)
    requires |x| >= 6
    ensures !Contains(x[4], "stdev") ==> ExpEntry(x).value.1[3] == x[4]
    ensures x[4] == "stdev" ==> ExpEntry(x).value.1[3] == "σ"
  {
    if !Contains(x[4], "stdev") {
      ReplaceAbsent(x[4], "stdev", "σ");
    }
    if x[4] == "stdev" {
      assert StartsWith(x[4], "stdev") && x[4][5..] == "";
    }
  }

  /** `load_exp_info(paths_folder, experiments)` on the lines of the file:
      the description of each selected experiment by code, and the codes in
      file order. */
  function ExpInfo(lines: seq<string>, experiments: seq<string>): (r: Result<(Dict<seq<string>>, seq<string>)>)
    ensures r.Fail? ==> r.error == IndexError
  {
    var pairs :- MapResult(Selected(lines, experiments), ExpEntry);
    Ok((PutAll(pairs), Keys(pairs)))
  }

  /** Lines 36-39: the selection loop. */
  method SelectRows(lines: seq<string>, experiments: seq<string>) returns (exp: seq<seq<string>>)
    ensures exp == Selected(lines, experiments)
  {
    exp := [];
    for i := 0 to |lines|
      invariant exp == Selected(lines[..i], experiments)
    {
      var line := Split(Strip(lines[i], '\n'), ",");
      assert lines[..i + 1][..i] == lines[..i];
      if line[0] in experiments {
        exp := exp + [line];
      }
    }
    assert lines[..|lines|] == lines;
  }

  /** `load_exp_info(paths_folder, experiments)`, lines 33-48. */
  method LoadExpInfo(lines: seq<string>, experiments: seq<string>)
      returns (res: Result<(Dict<seq<string>>, seq<string>)>)
    ensures res == ExpInfo(lines, experiments)
  {
    var exp := SelectRows(lines, experiments);
    var listExp: Dict<seq<string>> := [];
    var condition: seq<string> := [];
    ghost var pairs: seq<(string, seq<string>)> := [];
    for k := 0 to |exp|
      invariant MapResult(exp[..k], ExpEntry) == Ok(pairs)
      invariant listExp == PutAll(pairs) && condition == Keys(pairs)
    {
      var x := exp[k];
      if |x| < 6 {
        MapResultStop(exp, ExpEntry, k);
        return Fail(IndexError);
      }
      MapResultSnoc(exp, ExpEntry, k, pairs);
      var name := ReplaceAll(x[4], "stdev", "σ");
      // Lines 45-46 bind an empty list to the code and extend it by the
      // five fields: together they set the code to those fields.
      listExp := Put(listExp, x[0], [x[1], x[2], x[3], name, x[5]]);
      condition := condition + [x[0]];
      PutAllSnoc(pairs, x[0], [x[1], x[2], x[3], name, x[5]]);
      pairs := pairs + [(x[0], [x[1], x[2], x[3], name, x[5]])];
    }
    assert exp[..|exp|] == exp;
    return Ok((listExp, condition));
  }

  /** Reading the experiment list raises exactly when a selected row has
      fewer than six fields. */
  lemma ExpInfoFails(lines: seq<string>, experiments: seq<string>)
    ensures ExpInfo(lines, experiments).Fail? <==>
      exists k :: 0 <= k < |Selected(lines, experiments)| && |Selected(lines, experiments)[k]| < 6
  {
    var rows := Selected(lines, experiments);
    MapResultSpec(rows, ExpEntry);
    if exists k :: 0 <= k < |rows| && |rows[k]| < 6 {
      var k :| 0 <= k < |rows| && |rows[k]| < 6;
      MapResultStop(rows, ExpEntry, k);
    }
    if ExpInfo(lines, experiments).Fail? {
      var f := ExpEntry;
      var k :| 0 <= k < |rows| && f(rows[k]).Fail?;
      assert f(rows[k]) == ExpEntry(rows[k]);
      assert |Selected(lines, experiments)[k]| < 6;
    }
  }

  /** Otherwise `condition` is the selected codes in file order, and the
      codes of the description table are exactly those codes. */
  lemma ExpInfoCodes(lines: seq<string>, experiments: seq<string>)
    requires ExpInfo(lines, experiments).Ok?
    ensures var rows := Selected(lines, experiments); var r := ExpInfo(lines, experiments).value;
      |r.1| == |rows| && (forall k :: 0 <= k < |rows| ==> r.1[k] == rows[k][0]) &&
      forall c :: c in Keys(r.0) <==> c in r.1
  {
    var rows := Selected(lines, experiments);
    MapResultSpec(rows, ExpEntry);
    var pairs := MapResult(rows, ExpEntry).value;
    forall k | 0 <= k < |rows|
      ensures Keys(pairs)[k] == rows[k][0]
    {
      assert ExpEntry(rows[k]).Ok? && pairs[k] == ExpEntry(rows[k]).value;
    }
    PutAllKeys(pairs);
    forall c
      ensures (exists i :: 0 <= i < |pairs| && pairs[i].0 == c) <==> c in Keys(pairs)
    {
      if c in Keys(pairs) {
        var i :| 0 <= i < |pairs| && Keys(pairs)[i] == c;
      }
    }
  }

  /** The description of a code is the one of its last selected row. */
  lemma ExpInfoLastWins(lines: seq<string>, experiments: seq<string>, k: nat)
    requires ExpInfo(lines, experiments).Ok? && k < |Selected(lines, experiments)|
    requires var rows := Selected(lines, experiments);
      forall j :: k < j < |rows| ==> rows[j][0] != rows[k][0]
    ensures var rows := Selected(lines, experiments); var d := ExpInfo(lines, experiments).value.0;
      |rows[k]| >= 6 && rows[k][0] in Keys(d) && Get(d, rows[k][0]) == ExpEntry(rows[k]).value.1
  {
    var rows := Selected(lines, experiments);
    MapResultSpec(rows, ExpEntry);
    var pairs := MapResult(rows, ExpEntry).value;
    assert ExpEntry(rows[k]).Ok?;
    forall j | k < j < |pairs|
      ensures pairs[j].0 != pairs[k].0
    {
      assert ExpEntry(rows[j]).Ok?;
    }
    PutAllLastWins(pairs, k);
  }
}
