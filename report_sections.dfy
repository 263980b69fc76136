/** Reading a tagged data-report file (`import_file_section` and the parsing
    part of `read_from_file` in processing_scripts_formose/data_report.py).

    The file is given as its lines, each as read, trailing newline included.
    Text-to-float conversion (`float(x)`) is a parameter `parse` that yields
    `None` where Python raises ValueError. */
module ReportSections {
  import opened Wrappers
  import opened Strings
  import opened Dicts

  /** The section reader from line `i` on, `readstate` being the flag on
      entry (lines 48-56): the positions of the lines it reads. A line
      holding `start` sets the flag and is replaced by the next line
      (`next(f)`), which is then checked only for `end`; a start token on the
      last line raises StopIteration. */
  function SectionFrom(lines: seq<string>, start: string, end: string, i: nat, readstate: bool)
    : Result<seq<nat>>
    decreases |lines| - i, 1
  {
    if i >= |lines| then Ok([])
    else if Contains(lines[i], start) then
      if i + 1 >= |lines| then Fail(StopIteration)
      else ReadLine(lines, start, end, i + 1, true)
    else ReadLine(lines, start, end, i, readstate)
  }

  /** Lines 52-56 for line `j`: the end token clears the flag, and the line
      is read when the flag is still set. */
  function ReadLine(lines: seq<string>, start: string, end: string, j: nat, readstate: bool)
    : Result<seq<nat>>
    requires j < |lines|
    decreases |lines| - j, 0
  {
    var rs := readstate && !Contains(lines[j], end);
    Prepend(if rs then [j] else [], SectionFrom(lines, start, end, j + 1, rs))
  }

  /** Items already read, followed by the outcome of reading the rest. */
  function Prepend<T>(acc: seq<T>, r: Result<seq<T>>): Result<seq<T>>
  {
    if r.Ok? then Ok(acc + r.value) else r
  }

  lemma PrependNil<T>(r: Result<seq<T>>)
    ensures Prepend([], r) == r
  {
    if r.Ok? {
      assert [] + r.value == r.value;
    }
  }

  lemma PrependPrepend<T>(a: seq<T>, b: seq<T>, r: Result<seq<T>>)
    ensures Prepend(a, Prepend(b, r)) == Prepend(a + b, r)
  {
    if r.Ok? {
      assert a + (b + r.value) == (a + b) + r.value;
    }
  }

  /** The split form of the lines at positions `idx`. */
  function RowsAt(lines: seq<string>, idx: seq<nat>): (rows: seq<seq<string>>)
    requires forall k :: 0 <= k < |idx| ==> idx[k] < |lines|
    ensures |rows| == |idx|
  {
    seq(|idx|, k requires 0 <= k < |idx| => SplitFields(lines[idx[k]]))
  }

  lemma {:induction false} SectionFromInRange(lines: seq<string>, start: string, end: string, i: nat, readstate: bool)
    requires SectionFrom(lines, start, end, i, readstate).Ok?
    ensures var idx := SectionFrom(lines, start, end, i, readstate).value;
      forall k :: 0 <= k < |idx| ==> i <= idx[k] < |lines|
    decreases |lines| - i
  {
    if i < |lines| {
      var j := if Contains(lines[i], start) then i + 1 else i;
      var rs := (Contains(lines[i], start) || readstate) && !Contains(lines[j], end);
      SectionFromInRange(lines, start, end, j + 1, rs);
    }
  }

  /** `import_file_section(file, start_token, end_token)`: the split form of
      the lines read. */
  function Section(lines: seq<string>, start: string, end: string): (r: Result<seq<seq<string>>>)
    ensures r.Fail? ==> r.error == StopIteration
  {
    match SectionFrom(lines, start, end, 0, false)
    case Ok(idx) => SectionFromInRange(lines, start, end, 0, false); Ok(RowsAt(lines, idx))
    case Fail(e) => assert e == StopIteration by { SectionFromFails(lines, start, end, 0, false); } Fail(e)
  }

  lemma {:induction false} SectionFromFails(lines: seq<string>, start: string, end: string, i: nat, readstate: bool)
    requires SectionFrom(lines, start, end, i, readstate).Fail?
    ensures SectionFrom(lines, start, end, i, readstate).error == StopIteration
    decreases |lines| - i
  {
    if i < |lines| && !(Contains(lines[i], start) && i + 1 >= |lines|) {
      var j := if Contains(lines[i], start) then i + 1 else i;
      var rs := (Contains(lines[i], start) || readstate) && !Contains(lines[j], end);
      SectionFromFails(lines, start, end, j + 1, rs);
    }
  }

  /** One step of the reader: a start token moves to the next line, the
      end token clears the flag, and the line is read when the flag is set. */
  lemma SectionStep(lines: seq<string>, start: string, end: string, i: nat, readstate: bool)
    requires i < |lines| && !(Contains(lines[i], start) && i + 1 >= |lines|)
    ensures var j := if Contains(lines[i], start) then i + 1 else i;
      var rs := (Contains(lines[i], start) || readstate) && !Contains(lines[j], end);
      SectionFrom(lines, start, end, i, readstate) ==
        Prepend(if rs then [j] else [], SectionFrom(lines, start, end, j + 1, rs))
  {
  }

  lemma RowsAtSnoc(lines: seq<string>, idx: seq<nat>, j: nat)
    requires forall k :: 0 <= k < |idx| ==> idx[k] < |lines|
    requires j < |lines|
    ensures RowsAt(lines, idx + [j]) == RowsAt(lines, idx) + [SplitFields(lines[j])]
  {
    var r := RowsAt(lines, idx + [j]);
    assert forall k :: 0 <= k < |idx| ==> (idx + [j])[k] == idx[k];
  }

  method ImportFileSection(lines: seq<string>, start: string, end: string) returns (res: Result<seq<seq<string>>>)
    ensures res == Section(lines, start, end)
  {
    var readstate := false;
    var cSet: seq<seq<string>> := [];
    ghost var read: seq<nat> := [];
    var i := 0;
    PrependNil(SectionFrom(lines, start, end, 0, false));
    while i < |lines|
      invariant 0 <= i <= |lines|
      invariant forall k :: 0 <= k < |read| ==> read[k] < i
      invariant SectionFrom(lines, start, end, 0, false) == Prepend(read, SectionFrom(lines, start, end, i, readstate))
      invariant cSet == RowsAt(lines, read)
      decreases |lines| - i
    {
      ghost var entry := readstate;
      var j := i;
      if Contains(lines[i], start) {
        readstate := true;
        if i + 1 >= |lines| {
          return Fail(StopIteration);
        }
        j := i + 1;
      }
      if Contains(lines[j], end) {
        readstate := false;
      }
      ghost var now: seq<nat> := if readstate then [j] else [];
      SectionStep(lines, start, end, i, entry);
      PrependPrepend(read, now, SectionFrom(lines, start, end, j + 1, readstate));
      if readstate {
        RowsAtSnoc(lines, read, j);
        cSet := cSet + [SplitFields(lines[j])];
      }
      read := read + now;
      i := j + 1;
    }
    assert read + [] == read;
    return Ok(cSet);
  }

  /** The positions `a` to `b - 1`. */
  function Range(a: nat, b: nat): (r: seq<nat>)
    requires a <= b
    ensures |r| == b - a && forall k :: 0 <= k < b - a ==> r[k] == a + k
  {
    seq(b - a, k requires 0 <= k < b - a => a + k)
  }

  /** Outside a section, lines without the start token are skipped. */
  lemma {:induction false} SectionIdle(lines: seq<string>, start: string, end: string, i: nat, k: nat)
    requires i <= k <= |lines|
    requires forall j :: i <= j < k ==> !Contains(lines[j], start)
    ensures SectionFrom(lines, start, end, i, false) == SectionFrom(lines, start, end, k, false)
    decreases k - i
  {
    if i < k {
      SectionIdle(lines, start, end, i + 1, k);
      PrependNil(SectionFrom(lines, start, end, i + 1, false));
    }
  }

  /** Inside a section, every line up to the end line is read. */
  lemma {:induction false} SectionReading(lines: seq<string>, start: string, end: string, i: nat, e: nat)
    requires i <= e < |lines|
    requires forall j :: i <= j <= e ==> !Contains(lines[j], start)
    requires forall j :: i <= j < e ==> !Contains(lines[j], end)
    requires Contains(lines[e], end)
    ensures SectionFrom(lines, start, end, i, true) ==
      Prepend(Range(i, e), SectionFrom(lines, start, end, e + 1, false))
    decreases e - i
  {
    if i < e {
      SectionReading(lines, start, end, i + 1, e);
      PrependPrepend([i], Range(i + 1, e), SectionFrom(lines, start, end, e + 1, false));
      assert [i] + Range(i + 1, e) == Range(i, e);
    } else {
      PrependNil(SectionFrom(lines, start, end, i + 1, false));
      assert Range(i, e) == [];
    }
  }

  /** The split form of lines `a` to `b - 1`. */
  function Rows(lines: seq<string>, a: nat, b: nat): (rows: seq<seq<string>>)
    requires a <= b <= |lines|
    ensures |rows| == b - a
  {
    seq(b - a, k requires 0 <= k < b - a => SplitFields(lines[a + k]))
  }

  /** A file with one start line at `s` and the first end line after it at
      `e` yields exactly the split lines strictly between them: the start
      line itself is never read, the line after it is read unless it holds
      the end token. */
  lemma SectionBetween(lines: seq<string>, start: string, end: string, s: nat, e: nat)
    requires s < e < |lines|
    requires Contains(lines[s], start) && Contains(lines[e], end)
    requires forall j :: 0 <= j < |lines| && j != s ==> !Contains(lines[j], start)
    requires forall j :: s < j < e ==> !Contains(lines[j], end)
    ensures Section(lines, start, end) == Ok(Rows(lines, s + 1, e))
  {
    SectionIdle(lines, start, end, 0, s);
    SectionIdle(lines, start, end, e + 1, |lines|);
    var tail := SectionFrom(lines, start, end, e + 1, false);
    assert tail == Ok([]);
    if e == s + 1 {
      PrependNil(tail);
      assert SectionFrom(lines, start, end, 0, false) == Ok([]);
    } else {
      SectionReading(lines, start, end, s + 2, e);
      PrependPrepend([s + 1], Range(s + 2, e), tail);
      assert [s + 1] + Range(s + 2, e) == Range(s + 1, e);
      assert Range(s + 1, e) + [] == Range(s + 1, e);
      assert SectionFrom(lines, start, end, 0, false) == Ok(Range(s + 1, e));
    }
    assert RowsAt(lines, Range(s + 1, e)) == Rows(lines, s + 1, e);
  }

  lemma {:induction false} StopFrom(lines: seq<string>, start: string, end: string, i: nat, readstate: bool)
    requires i < |lines| && Contains(lines[|lines| - 1], start)
    requires |lines| == 1 || !Contains(lines[|lines| - 2], start)
    ensures SectionFrom(lines, start, end, i, readstate) == Fail(StopIteration)
    decreases |lines| - i
  {
    if i < |lines| - 1 {
      var j := if Contains(lines[i], start) then i + 1 else i;
      var rs := (Contains(lines[i], start) || readstate) && !Contains(lines[j], end);
      StopFrom(lines, start, end, j + 1, rs);
    }
  }

  /** A start token on the last line, not swallowed by a start line just
      before it, raises StopIteration. */
  lemma SectionStartOnLastLine(lines: seq<string>, start: string, end: string)
    requires |lines| > 0 && Contains(lines[|lines| - 1], start)
    requires |lines| == 1 || !Contains(lines[|lines| - 2], start)
    ensures Section(lines, start, end) == Fail(StopIteration)
  {
    StopFrom(lines, start, end, 0, false);
  }

  /** Every row of a section is the split form of one line of the file, so
      none of its fields is empty or holds a comma. */
  lemma SectionRowsClean(lines: seq<string>, start: string, end: string)
    requires Section(lines, start, end).Ok?
    ensures var rows := Section(lines, start, end).value;
      forall k :: 0 <= k < |rows| ==>
        (exists j :: 0 <= j < |lines| && rows[k] == SplitFields(lines[j])) &&
        forall m :: 0 <= m < |rows[k]| ==> rows[k][m] != "" && ',' !in rows[k][m]
  {
    SectionFromInRange(lines, start, end, 0, false);
    var idx := SectionFrom(lines, start, end, 0, false).value;
    var rows := Section(lines, start, end).value;
    forall k | 0 <= k < |rows|
      ensures (exists j :: 0 <= j < |lines| && rows[k] == SplitFields(lines[j])) &&
        forall m :: 0 <= m < |rows[k]| ==> rows[k][m] != "" && ',' !in rows[k][m]
    {
      assert rows[k] == SplitFields(lines[idx[k]]);
      SplitFieldsClean(lines[idx[k]]);
    }
  }

  /** The length of the shortest row: where `zip` stops. */
  function MinLen(rows: seq<seq<string>>): (n: nat)
    ensures |rows| == 0 ==> n == 0
    ensures forall r :: 0 <= r < |rows| ==> n <= |rows[r]|
    ensures |rows| > 0 ==> exists r :: 0 <= r < |rows| && n == |rows[r]|
  {
    if |rows| == 0 then 0
    else if |rows| == 1 then |rows[0]|
    else
      var m := MinLen(rows[..|rows| - 1]);
      assert forall r :: 0 <= r < |rows| - 1 ==> rows[..|rows| - 1][r] == rows[r];
      if |rows[|rows| - 1]| < m then |rows[|rows| - 1]| else m
  }

  /** `[list(i) for i in zip(*rows)]`: column `j` holds the `j`-th field of
      every row, for as many columns as the shortest row has fields. */
  function Transpose(rows: seq<seq<string>>): (cols: seq<seq<string>>)
    ensures |cols| == MinLen(rows)
    ensures forall j :: 0 <= j < |cols| ==> |cols[j]| == |rows|
  {
    seq(MinLen(rows), j requires 0 <= j < MinLen(rows) =>
      seq(|rows|, r requires 0 <= r < |rows| => rows[r][j]))
  }

  predicate Rectangular(rows: seq<seq<string>>)
  {
    forall r :: 0 <= r < |rows| ==> |rows[r]| == |rows[0]|
  }

  /** Transposing a non-empty rectangular table twice gives it back. */
  lemma TransposeTwice(rows: seq<seq<string>>)
    requires |rows| > 0 && |rows[0]| > 0 && Rectangular(rows)
    ensures Transpose(Transpose(rows)) == rows
  {
    var cols := Transpose(rows);
    assert |cols| == |rows[0]|;
    assert MinLen(cols) == |rows|;
    forall r | 0 <= r < |rows|
      ensures Transpose(cols)[r] == rows[r]
    {
    }
  }

  /** The float value of one field; "nan" reads as 0 where `nanAsZero`. */
  function ParseCell(x: string, parse: string -> Option<real>, nanAsZero: bool): Option<real>
  {
    if nanAsZero && x == "nan" then Some(0.0) else parse(x)
  }

  /** `[float(x) for x in xs]`: `None` as soon as one field does not parse. */
  function ParseAll(xs: seq<string>, parse: string -> Option<real>, nanAsZero: bool): (r: Option<seq<real>>)
    ensures r.None? <==> exists i :: 0 <= i < |xs| && ParseCell(xs[i], parse, nanAsZero).None?
    ensures r.Some? ==> (|r.value| == |xs| &&
      forall i :: 0 <= i < |xs| ==> ParseCell(xs[i], parse, nanAsZero) == Some(r.value[i]))
  {
    if |xs| == 0 then Some([])
    else
      var prev := ParseAll(xs[..|xs| - 1], parse, nanAsZero);
      assert forall i :: 0 <= i < |xs| - 1 ==> xs[..|xs| - 1][i] == xs[i];
      match ParseCell(xs[|xs| - 1], parse, nanAsZero)
      case None => None
      case Some(v) => if prev.None? then None else Some(prev.value + [v])
  }

  /** Lines 93-95 (and 110-114): each column's first field becomes a key
      mapped to the parsed remaining fields; a later column with the same
      first field overwrites the earlier one. */
  function ColumnsDict(cols: seq<seq<string>>, parse: string -> Option<real>): (r: Result<Dict<seq<real>>>)
    requires forall j :: 0 <= j < |cols| ==> |cols[j]| > 0
    ensures r.Fail? ==> r.error == ValueError
    ensures r.Ok? ==> DistinctKeys(r.value)
  {
    if |cols| == 0 then Ok([])
    else
      var prev :- ColumnsDict(cols[..|cols| - 1], parse);
      var s := cols[|cols| - 1];
      match ParseAll(s[1..], parse, true)
      case None => Fail(ValueError)
      case Some(values) => Ok(Put(prev, s[0], values))
  }

  method ColumnsToDict(cols: seq<seq<string>>, parse: string -> Option<real>) returns (res: Result<Dict<seq<real>>>)
    requires forall j :: 0 <= j < |cols| ==> |cols[j]| > 0
    ensures res == ColumnsDict(cols, parse)
  {
    var dOut: Dict<seq<real>> := [];
    for k := 0 to |cols|
      invariant ColumnsDict(cols[..k], parse) == Ok(dOut)
    {
      assert cols[..k + 1][..k] == cols[..k];
      var s := cols[k];
      var values := ParseAll(s[1..], parse, true);
      if values.None? {
        res := Fail(ValueError);
        ColumnsDictStops(cols, parse, k + 1);
        return;
      }
      dOut := Put(dOut, s[0], values.value);
    }
    assert cols[..|cols|] == cols;
    return Ok(dOut);
  }

  lemma {:induction false} ColumnsDictStops(cols: seq<seq<string>>, parse: string -> Option<real>, k: nat)
    requires k <= |cols| && forall j :: 0 <= j < |cols| ==> |cols[j]| > 0
    requires ColumnsDict(cols[..k], parse).Fail?
    ensures ColumnsDict(cols, parse) == ColumnsDict(cols[..k], parse)
    decreases |cols|
  {
    if k < |cols| {
      var pre := cols[..|cols| - 1];
      assert pre[..k] == cols[..k];
      ColumnsDictStops(pre, parse, k);
    } else {
      assert cols[..k] == cols;
    }
  }

  /** With distinct first fields, the keys are the first fields in column
      order and each value is that column's parsed remainder. */
  lemma {:induction false} ColumnsDictDistinct(cols: seq<seq<string>>, parse: string -> Option<real>)
    requires forall j :: 0 <= j < |cols| ==> |cols[j]| > 0
    requires forall i, j :: 0 <= i < j < |cols| ==> cols[i][0] != cols[j][0]
    requires ColumnsDict(cols, parse).Ok?
    ensures var d := ColumnsDict(cols, parse).value;
      |d| == |cols| &&
      forall j :: 0 <= j < |cols| ==>
        d[j].0 == cols[j][0] && ParseAll(cols[j][1..], parse, true) == Some(d[j].1)
  {
    if |cols| > 0 {
      var pre := cols[..|cols| - 1];
      ColumnsDictDistinct(pre, parse);
      var prev := ColumnsDict(pre, parse).value;
      assert cols[|cols| - 1][0] !in Keys(prev);
    }
  }

  /** A data report condition: one value is stored as a float, any other
      number of values as an array (lines 84-88). */
  datatype Condition = Scalar(x: real) | Vector(xs: seq<real>)

  function ConditionOf(entry: seq<real>): (c: Condition)
    ensures c.Scalar? <==> |entry| == 1
    ensures c.Scalar? ==> [c.x] == entry
    ensures c.Vector? ==> c.xs == entry
  {
    if |entry| == 1 then Scalar(entry[0]) else Vector(entry)
  }

  /** Python `c[1:]`, which is empty for an empty list. */
  function Tail<T>(c: seq<T>): seq<T>
  {
    if |c| == 0 then [] else c[1..]
  }

  /** Lines 83-88 applied to `conds`: the values are parsed first (ValueError),
      then an empty row fails at `c[0]` (IndexError). */
  function ConditionsFrom(rows: seq<seq<string>>, conds: Dict<Condition>, parse: string -> Option<real>)
    : (r: Result<Dict<Condition>>)
    ensures r.Ok? && DistinctKeys(conds) ==> DistinctKeys(r.value)
  {
    if |rows| == 0 then Ok(conds)
    else
      var prev :- ConditionsFrom(rows[..|rows| - 1], conds, parse);
      var c := rows[|rows| - 1];
      match ParseAll(Tail(c), parse, false)
      case None => Fail(ValueError)
      case Some(entry) =>
        if |c| == 0 then Fail(IndexError) else Ok(Put(prev, c[0], ConditionOf(entry)))
  }

  /** A condition row that no later row overrides sets its key: a single
      value as a scalar, any other number of values as an array. */
  lemma {:induction false} ConditionsLastRowWins(rows: seq<seq<string>>, conds: Dict<Condition>,
                                                 parse: string -> Option<real>, i: nat)
    requires ConditionsFrom(rows, conds, parse).Ok?
    requires i < |rows| && |rows[i]| > 0
    requires forall j :: i < j < |rows| && |rows[j]| > 0 ==> rows[j][0] != rows[i][0]
    ensures ParseAll(rows[i][1..], parse, false).Some?
    ensures rows[i][0] in Keys(ConditionsFrom(rows, conds, parse).value)
    ensures Get(ConditionsFrom(rows, conds, parse).value, rows[i][0]) ==
      ConditionOf(ParseAll(rows[i][1..], parse, false).value)
  {
    var pre := rows[..|rows| - 1];
    if i < |rows| - 1 {
      ConditionsLastRowWins(pre, conds, parse, i);
      var prev := ConditionsFrom(pre, conds, parse).value;
      var c := rows[|rows| - 1];
      if |c| > 0 {
        var entry := ParseAll(Tail(c), parse, false).value;
        PutOther(prev, c[0], ConditionOf(entry), rows[i][0]);
      }
    }
  }

  lemma {:induction false} ConditionsStop(rows: seq<seq<string>>, conds: Dict<Condition>,
                                          parse: string -> Option<real>, k: nat)
    requires k <= |rows| && ConditionsFrom(rows[..k], conds, parse).Fail?
    ensures ConditionsFrom(rows, conds, parse) == ConditionsFrom(rows[..k], conds, parse)
  {
    if k < |rows| {
      var pre := rows[..|rows| - 1];
      assert pre[..k] == rows[..k];
      ConditionsStop(pre, conds, parse, k);
    } else {
      assert rows[..k] == rows;
    }
  }

  /** The condition loop of `read_from_file` (lines 83-88). */
  method ReadConditions(rows: seq<seq<string>>, conds: Dict<Condition>, parse: string -> Option<real>)
    returns (res: Result<Dict<Condition>>)
    ensures res == ConditionsFrom(rows, conds, parse)
  {
    var out := conds;
    for k := 0 to |rows|
      invariant ConditionsFrom(rows[..k], conds, parse) == Ok(out)
    {
      assert rows[..k + 1][..k] == rows[..k];
      var c := rows[k];
      var entry := ParseAll(Tail(c), parse, false);
      if entry.None? {
        ConditionsStop(rows, conds, parse, k + 1);
        return Fail(ValueError);
      }
      if |c| == 0 {
        ConditionsStop(rows, conds, parse, k + 1);
        return Fail(IndexError);
      }
      out := Put(out, c[0], ConditionOf(entry.value));
    }
    assert rows[..|rows|] == rows;
    return Ok(out);
  }

  /** Lines 121-122 applied to `details`: the first field of each row maps to
      the remaining fields; an empty row fails at `a[0]`. */
  function AnalysisFrom(rows: seq<seq<string>>, details: Dict<seq<string>>): (r: Result<Dict<seq<string>>>)
    ensures r.Fail? <==> exists k :: 0 <= k < |rows| && |rows[k]| == 0
    ensures r.Fail? ==> r.error == IndexError
    ensures r.Ok? && DistinctKeys(details) ==> DistinctKeys(r.value)
  {
    if |rows| == 0 then Ok(details)
    else
      assert forall k :: 0 <= k < |rows| - 1 ==> rows[..|rows| - 1][k] == rows[k];
      var prev :- AnalysisFrom(rows[..|rows| - 1], details);
      var a := rows[|rows| - 1];
      if |a| == 0 then Fail(IndexError) else Ok(Put(prev, a[0], a[1..]))
  }

  /** The analysis-details loop of `read_from_file` (lines 121-122). */
  method ReadAnalysisDetails(rows: seq<seq<string>>, details: Dict<seq<string>>)
    returns (res: Result<Dict<seq<string>>>)
    ensures res == AnalysisFrom(rows, details)
  {
    var out := details;
    for k := 0 to |rows|
      invariant AnalysisFrom(rows[..k], details) == Ok(out)
    {
      assert rows[..k + 1][..k] == rows[..k];
      var a := rows[k];
      if |a| == 0 {
        return Fail(IndexError);
      }
      out := Put(out, a[0], a[1..]);
    }
    assert rows[..|rows|] == rows;
    return Ok(out);
  }

  /** Lines 75-79 applied to `code`: the second field of the last line
      containing "Dataset"; such a line with fewer than two fields raises. */
  function ExperimentCodeFrom(lines: seq<string>, code: string): (r: Result<string>)
    ensures r.Fail? ==> r.error == IndexError
  {
    if |lines| == 0 then Ok(code)
    else
      var prev :- ExperimentCodeFrom(lines[..|lines| - 1], code);
      var line := lines[|lines| - 1];
      if !Contains(line, "Dataset") then Ok(prev)
      else if |SplitFields(line)| < 2 then Fail(IndexError)
      else Ok(SplitFields(line)[1])
  }

  lemma {:induction false} ExperimentCodeStop(lines: seq<string>, code: string, k: nat)
    requires k <= |lines| && ExperimentCodeFrom(lines[..k], code).Fail?
    ensures ExperimentCodeFrom(lines, code) == ExperimentCodeFrom(lines[..k], code)
  {
    if k < |lines| {
      var pre := lines[..|lines| - 1];
      assert pre[..k] == lines[..k];
      ExperimentCodeStop(pre, code, k);
    } else {
      assert lines[..k] == lines;
    }
  }

  /** The first loop of `read_from_file` (lines 75-79). */
  method ScanExperimentCode(lines: seq<string>, code: string) returns (res: Result<string>)
    ensures res == ExperimentCodeFrom(lines, code)
  {
    var current := code;
    for k := 0 to |lines|
      invariant ExperimentCodeFrom(lines[..k], code) == Ok(current)
    {
      assert lines[..k + 1][..k] == lines[..k];
      var ins := SplitFields(lines[k]);
      if Contains(lines[k], "Dataset") {
        if |ins| < 2 {
          ExperimentCodeStop(lines, code, k + 1);
          return Fail(IndexError);
        }
        current := ins[1];
      }
    }
    assert lines[..|lines|] == lines;
    return Ok(current);
  }

  /** The data section once read: the series column and the remaining data. */
  datatype Table = Table(seriesUnit: string, seriesValues: seq<real>, data: Dict<seq<real>>)

  /** Lines 92-102: transpose, parse ("nan" as 0), then move the column named
      by the first field of the first row out of the data. */
  function DataTable(dataset: seq<seq<string>>, parse: string -> Option<real>): (r: Result<Table>)
    ensures r.Ok? ==> |dataset| > 0 && |dataset[0]| > 0 && r.value.seriesUnit == dataset[0][0]
    ensures r.Ok? ==> DistinctKeys(r.value.data) && r.value.seriesUnit !in Keys(r.value.data)
  {
    var dOut :- ColumnsDict(Transpose(dataset), parse);
    if |dataset| == 0 || |dataset[0]| == 0 then Fail(IndexError)
    else
      var unit := dataset[0][0];
      var values :- Lookup(dOut, unit);
      Ok(Table(unit, values, Delete(dOut, unit).value))
  }

  /** A rectangular data section with distinct column names: the first
      column is the series, every other column becomes one data entry, in
      column order, holding its parsed cells. */
  lemma DataTableColumns(dataset: seq<seq<string>>, parse: string -> Option<real>)
    requires |dataset| > 0 && |dataset[0]| > 0 && Rectangular(dataset)
    requires forall i, j :: 0 <= i < j < |dataset[0]| ==> dataset[0][i] != dataset[0][j]
    requires DataTable(dataset, parse).Ok?
    ensures var t := DataTable(dataset, parse).value;
      var cols := Transpose(dataset);
      ParseAll(cols[0][1..], parse, true) == Some(t.seriesValues) &&
      |t.data| == |dataset[0]| - 1 &&
      forall j :: 1 <= j < |dataset[0]| ==>
        t.data[j - 1].0 == dataset[0][j] && ParseAll(cols[j][1..], parse, true) == Some(t.data[j - 1].1)
  {
    var cols := Transpose(dataset);
    TransposeHeads(dataset);
    ColumnsDictDistinct(cols, parse);
    DataTableSplit(dataset, parse);
    var dOut := ColumnsDict(cols, parse).value;
    var t := DataTable(dataset, parse).value;
    assert t.seriesValues == dOut[0].1 && t.data == dOut[1..];
    forall j | 1 <= j < |dataset[0]|
      ensures t.data[j - 1].0 == dataset[0][j] && ParseAll(cols[j][1..], parse, true) == Some(t.data[j - 1].1)
    {
      assert t.data[j - 1] == dOut[j];
    }
  }

  /** The first fields of the columns are the first row. */
  lemma TransposeHeads(rows: seq<seq<string>>)
    requires |rows| > 0 && |rows[0]| > 0 && Rectangular(rows)
    ensures var cols := Transpose(rows);
      |cols| == |rows[0]| && forall j :: 0 <= j < |cols| ==> cols[j][0] == rows[0][j]
  {
    assert MinLen(rows) == |rows[0]|;
  }

  /** When the series column comes first, the table is that column and the
      remaining columns. */
  lemma DataTableSplit(dataset: seq<seq<string>>, parse: string -> Option<real>)
    requires |dataset| > 0 && |dataset[0]| > 0 && DataTable(dataset, parse).Ok?
    requires forall j :: 0 <= j < |Transpose(dataset)| ==> |Transpose(dataset)[j]| > 0
    requires var d := ColumnsDict(Transpose(dataset), parse);
      d.Ok? && |d.value| > 0 && d.value[0].0 == dataset[0][0]
    ensures var dOut := ColumnsDict(Transpose(dataset), parse).value;
      DataTable(dataset, parse).value == Table(dataset[0][0], dOut[0].1, dOut[1..])
  {
    var dOut := ColumnsDict(Transpose(dataset), parse).value;
    LookupDeleteFirst(dOut, dataset[0][0]);
  }

  /** `np.zeros(n)` */
  function Zeros(n: nat): (z: seq<real>)
    ensures |z| == n && forall i :: 0 <= i < n ==> z[i] == 0.0
  {
    seq(n, _ => 0.0)
  }

  /** Lines 106-116: without an error section every data key gets zeros of
      the series length; otherwise the error section is read like the data
      section and the series column, which must be present, is removed. */
  function ErrorTable(errRows: seq<seq<string>>, unit: string, seriesLen: nat, keys: seq<string>,
                      parse: string -> Option<real>): (r: Result<Dict<seq<real>>>)
    ensures |errRows| == 0 ==> (r.Ok? && Keys(r.value) == keys &&
      forall i :: 0 <= i < |keys| ==> r.value[i].1 == Zeros(seriesLen))
    ensures r.Ok? && (forall i, j :: 0 <= i < j < |keys| ==> keys[i] != keys[j]) ==> DistinctKeys(r.value)
  {
    if |errRows| == 0 then Ok(seq(|keys|, i requires 0 <= i < |keys| => (keys[i], Zeros(seriesLen))))
    else
      var eOut :- ColumnsDict(Transpose(errRows), parse);
      Delete(eOut, unit)
  }

  /** The data-section part of `read_from_file` (lines 92-102). */
  method DataTableOf(dataset: seq<seq<string>>, parse: string -> Option<real>) returns (res: Result<Table>)
    ensures res == DataTable(dataset, parse)
  {
    var transposed := Transpose(dataset);
    var dOut := ColumnsToDict(transposed, parse);
    if dOut.Fail? {
      return Fail(dOut.error);
    }
    if |dataset| == 0 || |dataset[0]| == 0 {
      return Fail(IndexError);
    }
    var unit := dataset[0][0];
    var values := Lookup(dOut.value, unit);
    if values.Fail? {
      return Fail(values.error);
    }
    return Ok(Table(unit, values.value, Delete(dOut.value, unit).value));
  }

  /** The error-section part of `read_from_file` (lines 106-116). */
  method ErrorTableOf(errRows: seq<seq<string>>, unit: string, seriesLen: nat, keys: seq<string>,
                      parse: string -> Option<real>) returns (res: Result<Dict<seq<real>>>)
    ensures res == ErrorTable(errRows, unit, seriesLen, keys, parse)
  {
    if |errRows| == 0 {
      var zeros: Dict<seq<real>> := [];
      for i := 0 to |keys|
        invariant zeros == seq(i, k requires 0 <= k < i => (keys[k], Zeros(seriesLen)))
      {
        zeros := zeros + [(keys[i], Zeros(seriesLen))];
      }
      return Ok(zeros);
    }
    var transposed := Transpose(errRows);
    var errorsOut := ColumnsToDict(transposed, parse);
    if errorsOut.Fail? {
      return Fail(errorsOut.error);
    }
    return Delete(errorsOut.value, unit);
  }
}
