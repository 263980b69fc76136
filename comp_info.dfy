/** The compound table readers of processing_scripts_formose/comp_info.py:
    the `information` class, whose constructor reads the compound table
    into five aligned lists, and `load_colours_dict`. The file contents are
    parameters, and so is the colour fader (a matplotlib RGB interpolation,
    which rejects a colour matplotlib does not know). */
module CompInfo {
  import opened Wrappers
  import opened Strings
  import opened Dicts

  /** `colorFader(c1, c2, mix)`: the hex colour a fraction `mix` of the way
      from `c1` to `c2`, or `None` where `mpl.colors.to_rgb` raises
      ValueError on a colour it does not know (lines 11-12). */
  type Fader = (string, string, real) -> Option<string>

  /** Line 44: every compound colour fades toward this grey. */
  const Grey: string := "#c5c9c7"

  /** Line 46: a colour is faded in `ShadeSteps` steps. */
  const ShadeSteps: nat := 3

  /** The mix of shade `k`: `k / n`. */
  function Mix(k: nat): real
  {
    k as real / ShadeSteps as real
  }

  /** The colour list of one compound: `c1` faded toward grey by 0/3, 1/3,
      2/3 and 3/3; ValueError when the fader rejects one of the four. */
  function ShadesOf(c1: string, fade: Fader): (r: Result<seq<string>>)
    ensures r.Fail? <==> exists k :: 0 <= k <= ShadeSteps && fade(c1, Grey, Mix(k)).None?
    ensures r.Fail? ==> r.error == ValueError
    ensures r.Ok? ==> |r.value| == ShadeSteps + 1
    ensures r.Ok? ==> Some(r.value[0]) == fade(c1, Grey, 0.0) && Some(r.value[ShadeSteps]) == fade(c1, Grey, 1.0)
  {
    if exists k :: 0 <= k <= ShadeSteps && fade(c1, Grey, Mix(k)).None? then Fail(ValueError)
    else Ok(seq(ShadeSteps + 1, k requires 0 <= k <= ShadeSteps => fade(c1, Grey, Mix(k)).value))
  }

  /** Lines 43-48: the shade loop, which stops at the first colour the fader
      rejects. */
  method Shades(c1: string, fade: Fader) returns (res: Result<seq<string>>)
    ensures res == ShadesOf(c1, fade)
  {
    var c2 := Grey;
    var c: seq<string> := [];
    var n := ShadeSteps;
    for x := 0 to n + 1
      invariant |c| == x
      invariant forall k :: 0 <= k < x ==> fade(c1, Grey, Mix(k)).Some? && c[k] == fade(c1, Grey, Mix(k)).value
    {
      var shade := fade(c1, c2, x as real / n as real);
      if shade.None? {
        assert fade(c1, Grey, Mix(x)).None?;
        return Fail(ValueError);
      }
      c := c + [shade.value];
    }
    assert forall k :: 0 <= k <= ShadeSteps ==> fade(c1, Grey, Mix(k)).Some?;
    assert c == seq(ShadeSteps + 1, k requires 0 <= k <= ShadeSteps => fade(c1, Grey, Mix(k)).value);
    return Ok(c);
  }

  /** Lines 31-40: the display name of a compound, the working name put
      through a fixed chain of replacements. Greek letters come first, the
      whole "alpha-beta" before its parts; the three-letter stereodescriptors
      come before the two-letter ones. */
  function DisplayName(name: string): string
  {
    var n1 := ReplaceAll(name, "alpha-beta", "α,β");
    var n2 := ReplaceAll(n1, "alpha", "α");
    var n3 := ReplaceAll(n2, "beta", "β");
    var n4 := ReplaceAll(n3, "RRR", "R,R,R");
    var n5 := ReplaceAll(n4, "RRS", "R,R,S");
    var n6 := ReplaceAll(n5, "RSR", "R,S,R");
    var n7 := ReplaceAll(n6, "RSS", "R,S,S");
    var n8 := ReplaceAll(n7, "RR", "R,R");
    ReplaceAll(n8, "RS", "R,S")
  }

  /** A text holding `p + q` holds `p`. */
  lemma {:induction false} ContainsPrefix(s: string, p: string, q: string)
    requires Contains(s, p + q)
    ensures Contains(s, p)
    decreases |s|
  {
    if StartsWith(s, p + q) {
      assert s[..|p|] == (p + q)[..|p|] == p;
    } else {
      ContainsPrefix(s[1..], p, q);
    }
  }

  /** A name without "alpha", "beta", "RR" or "RS" is displayed as it is:
      every pattern of the chain holds one of those four. */
  lemma DisplayNameUnchanged(name: string)
    requires !Contains(name, "alpha") && !Contains(name, "beta")
    requires !Contains(name, "RR") && !Contains(name, "RS")
    ensures DisplayName(name) == name
  {
    assert "alpha-beta" == "alpha" + "-beta";
    assert "RRR" == "RR" + "R" && "RRS" == "RR" + "S";
    assert "RSR" == "RS" + "R" && "RSS" == "RS" + "S";
    if Contains(name, "alpha-beta") { ContainsPrefix(name, "alpha", "-beta"); }
    if Contains(name, "RRR") { ContainsPrefix(name, "RR", "R"); }
    if Contains(name, "RRS") { ContainsPrefix(name, "RR", "S"); }
    if Contains(name, "RSR") { ContainsPrefix(name, "RS", "R"); }
    if Contains(name, "RSS") { ContainsPrefix(name, "RS", "S"); }
    ReplaceAbsent(name, "alpha-beta", "α,β");
    ReplaceAbsent(name, "alpha", "α");
    ReplaceAbsent(name, "beta", "β");
    ReplaceAbsent(name, "RRR", "R,R,R");
    ReplaceAbsent(name, "RRS", "R,R,S");
    ReplaceAbsent(name, "RSR", "R,S,R");
    ReplaceAbsent(name, "RSS", "R,S,S");
    ReplaceAbsent(name, "RR", "R,R");
    ReplaceAbsent(name, "RS", "R,S");
  }

  /** A text in which no two neighbouring characters are the first two of
      `pat` does not hold `pat`. */
  lemma {:induction false} NoPairNoMatch(s: string, pat: string)
    requires |pat| >= 2
    requires forall i :: 0 <= i < |s| - 1 ==> s[i] != pat[0] || s[i + 1] != pat[1]
    ensures !Contains(s, pat)
    decreases |s|
  {
    if |s| > 0 {
      if |pat| <= |s| {
        var pre := s[..|pat|];
        assert pre[0] == s[0] && pre[1] == s[1];
      }
      var t := s[1..];
      forall i | 0 <= i < |t| - 1
        ensures t[i] != pat[0] || t[i + 1] != pat[1]
      {
        assert t[i] == s[i + 1] && t[i + 1] == s[i + 2];
      }
      NoPairNoMatch(t, pat);
    }
  }

  /** The text "R,R,S" holds none of the last four patterns of the chain. */
  lemma SplitDescriptorStays()
    ensures var t := "R,R,S";
      ReplaceAll(ReplaceAll(ReplaceAll(ReplaceAll(t, "RSR", "R,S,R"), "RSS", "R,S,S"), "RR", "R,R"), "RS", "R,S") == t
  {
    var t := "R,R,S";
    assert forall i :: 0 <= i < |t| - 1 ==> t[i] == ',' || t[i + 1] == ',';
    NoPairNoMatch(t, "RSR");
    NoPairNoMatch(t, "RSS");
    NoPairNoMatch(t, "RR");
    NoPairNoMatch(t, "RS");
    ReplaceAbsent(t, "RSR", "R,S,R");
    ReplaceAbsent(t, "RSS", "R,S,S");
    ReplaceAbsent(t, "RR", "R,R");
    ReplaceAbsent(t, "RS", "R,S");
  }

  /** "RRS" is displayed "R,R,S": the three-letter rule applies before the
      two-letter ones could split it as "R,RS". */
  lemma DisplayNameRRS()
    ensures DisplayName("RRS") == "R,R,S"
  {
    NotContainsShort("RRS", "alpha-beta");
    NotContainsShort("RRS", "alpha");
    NotContainsShort("RRS", "beta");
    ReplaceAbsent("RRS", "alpha-beta", "α,β");
    ReplaceAbsent("RRS", "alpha", "α");
    ReplaceAbsent("RRS", "beta", "β");
    assert "RRS"[1..] == "RS";
    assert "RRS"[2] != "RRR"[2];
    assert !StartsWith("RRS", "RRR");
    NotContainsShort("RS", "RRR");
    ReplaceAbsent("RRS", "RRR", "R,R,R");
    assert ReplaceAll("RRS", "RRS", "R,R,S") == "R,R,S";
    SplitDescriptorStays();
  }

  /** "alpha-beta" is displayed as the two Greek letters joined by a comma,
      not as "alpha" and "beta" replaced one by one around the hyphen. */
  lemma DisplayNameAlphaBeta()
    ensures DisplayName("alpha-beta") == "α,β"
  {
    var g := "α,β";
    assert ReplaceAll("alpha-beta", "alpha-beta", g) == g;
    NotContainsShort(g, "alpha");
    NotContainsShort(g, "beta");
    ReplaceAbsent(g, "alpha", "α");
    ReplaceAbsent(g, "beta", "β");
    assert ReplaceAll(g, "RRR", "R,R,R") == g;
    assert ReplaceAll(g, "RRS", "R,R,S") == g;
    assert ReplaceAll(g, "RSR", "R,S,R") == g;
    assert ReplaceAll(g, "RSS", "R,S,S") == g;
    assert ReplaceAll(g, "RR", "R,R") == g;
    assert ReplaceAll(g, "RS", "R,S") == g;
  }

  /** One row of the compound table. */
  datatype Compound = Compound(ind: string, workingName: string, name: string, smiles: string,
                               colour: seq<string>)

  /** Lines 29-49 for one row: index, working name, display name, SMILES
      and the shades of the row's colour. A row of fewer than five fields
      raises IndexError; a colour the fader rejects raises ValueError. */
  function CompoundOf(x: seq<string>, fade: Fader): (r: Result<Compound>)
    ensures r.Fail? <==> |x| < 5 || ShadesOf(x[4], fade).Fail?
    ensures r.Fail? ==> r.error == (if |x| < 5 then IndexError else ValueError)
    ensures r.Ok? ==> (r.value.ind == x[0] && r.value.workingName == x[1] && r.value.smiles == x[3] &&
      r.value.colour == ShadesOf(x[4], fade).value && |r.value.colour| == ShadeSteps + 1)
  {
    if |x| < 5 then Fail(IndexError)
    else
      var colour :- ShadesOf(x[4], fade);
      Ok(Compound(x[0], x[1], DisplayName(x[2]), x[3], colour))
  }

  /** The fields of every line. */
  function FieldRows(lines: seq<string>): (rows: seq<seq<string>>)
    ensures |rows| == |lines|
  {
    seq(|lines|, a requires 0 <= a < |lines| => LineFields(lines[a]))
  }

  /** The rows after the header, each with its fields. */
  function BodyRows(lines: seq<string>): (rows: seq<seq<string>>)
    ensures |rows| == if |lines| == 0 then 0 else |lines| - 1
  {
    if |lines| == 0 then [] else FieldRows(lines)[1..]
  }

  /** Row `a` of the file is row `a - 1` after the header. */
  lemma BodyRow(lines: seq<string>, a: nat)
    requires 1 <= a < |lines|
    ensures BodyRows(lines)[a - 1] == LineFields(lines[a])
  {
    assert FieldRows(lines)[1..][a - 1] == FieldRows(lines)[a];
  }

  /** The row reader of one compound, for a given fader. */
  function CompoundReader(fade: Fader): seq<string> -> Result<Compound>
  {
    x => CompoundOf(x, fade)
  }

  lemma ReaderApply(fade: Fader, x: seq<string>)
    ensures CompoundReader(fade)(x) == CompoundOf(x, fade)
  {
  }

  /** `information(comp_info)` on the lines of compound_information.csv:
      one compound per row after the header, in file order. */
  function Compounds(lines: seq<string>, fade: Fader): (r: Result<seq<Compound>>)
    ensures r.Fail? ==> r.error in {IndexError, ValueError}
  {
    var r := MapResult(BodyRows(lines), CompoundReader(fade));
    if r.Fail? then
      var k :| 0 <= k < |BodyRows(lines)| && CompoundReader(fade)(BodyRows(lines)[k]) == Fail(r.error);
      ReaderApply(fade, BodyRows(lines)[k]);
      r
    else r
  }

  /** A row the constructor rejects: fewer than five fields, or a colour
      the fader rejects. */
  predicate BadRow(x: seq<string>, fade: Fader)
  {
    |x| < 5 || ShadesOf(x[4], fade).Fail?
  }

  /** Reading the table raises exactly when a row after the header is bad. */
  lemma CompoundsFail(lines: seq<string>, fade: Fader)
    ensures Compounds(lines, fade).Fail? <==>
      exists a :: 1 <= a < |lines| && BadRow(LineFields(lines[a]), fade)
  {
    var rows := BodyRows(lines);
    CompoundsFailRows(lines, fade);
    if exists a :: 1 <= a < |lines| && BadRow(LineFields(lines[a]), fade) {
      var a :| 1 <= a < |lines| && BadRow(LineFields(lines[a]), fade);
      BodyRow(lines, a);
      assert BadRow(rows[a - 1], fade);
    }
    if Compounds(lines, fade).Fail? {
      var k :| 0 <= k < |rows| && BadRow(rows[k], fade);
      BodyRow(lines, k + 1);
      assert BadRow(LineFields(lines[k + 1]), fade);
    }
  }

  /** The same in terms of the rows after the header. */
  lemma CompoundsFailRows(lines: seq<string>, fade: Fader)
    ensures var rows := BodyRows(lines);
      Compounds(lines, fade).Fail? <==> exists k :: 0 <= k < |rows| && BadRow(rows[k], fade)
  {
    var rows := BodyRows(lines);
    var f := CompoundReader(fade);
    MapResultSpec(rows, f);
    if exists k :: 0 <= k < |rows| && BadRow(rows[k], fade) {
      var k :| 0 <= k < |rows| && BadRow(rows[k], fade);
      ReaderApply(fade, rows[k]);
      MapResultStop(rows, f, k);
    }
    if Compounds(lines, fade).Fail? {
      var k :| 0 <= k < |rows| && f(rows[k]).Fail?;
      ReaderApply(fade, rows[k]);
    }
  }

  /** Reading rows with the constructor raises the exception of the first
      bad row. */
  lemma RowsFirstBad(rows: seq<seq<string>>, fade: Fader)
    requires MapResult(rows, CompoundReader(fade)).Fail?
    ensures exists k ::
              0 <= k < |rows| && BadRow(rows[k], fade) &&
              (forall j :: 0 <= j < k ==> !BadRow(rows[j], fade)) &&
              MapResult(rows, CompoundReader(fade)).error == (if |rows[k]| < 5 then IndexError else ValueError)
  {
    var f := CompoundReader(fade);
    var e := MapResult(rows, f).error;
    MapResultFirst(rows, f);
    var i :| 0 <= i < |rows| && MapResult(rows[..i], f).Ok? && f(rows[i]) == Fail(e);
    ReaderApply(fade, rows[i]);
    assert BadRow(rows[i], fade) && e == (if |rows[i]| < 5 then IndexError else ValueError);
    MapResultSpec(rows[..i], f);
    forall j | 0 <= j < i
      ensures !BadRow(rows[j], fade)
    {
      assert rows[..i][j] == rows[j];
      ReaderApply(fade, rows[j]);
    }
  }

  /** The exception is the one of the first bad row: IndexError for a short
      row, ValueError for a rejected colour. */
  lemma CompoundsFirstBad(lines: seq<string>, fade: Fader)
    requires Compounds(lines, fade).Fail?
    ensures var rows := BodyRows(lines);
      exists k :: 0 <= k < |rows| && BadRow(rows[k], fade) &&
        (forall j :: 0 <= j < k ==> !BadRow(rows[j], fade)) &&
        Compounds(lines, fade).error == (if |rows[k]| < 5 then IndexError else ValueError)
  {
    assert Compounds(lines, fade) == MapResult(BodyRows(lines), CompoundReader(fade));
    RowsFirstBad(BodyRows(lines), fade);
  }

  /** Otherwise row `a` of the file gives compound `a - 1`. */
  lemma CompoundsRow(lines: seq<string>, fade: Fader, a: nat)
    requires Compounds(lines, fade).Ok? && 1 <= a < |lines|
    ensures |Compounds(lines, fade).value| == |lines| - 1
    ensures CompoundOf(LineFields(lines[a]), fade).Ok?
    ensures Compounds(lines, fade).value[a - 1] == CompoundOf(LineFields(lines[a]), fade).value
  {
    var rows := BodyRows(lines);
    var f := CompoundReader(fade);
    MapResultSpec(rows, f);
    BodyRow(lines, a);
    ReaderApply(fade, rows[a - 1]);
  }

  /** So it holds one compound per row after the header, in order. */
  lemma CompoundsRows(lines: seq<string>, fade: Fader)
    requires Compounds(lines, fade).Ok?
    ensures |Compounds(lines, fade).value| == (if |lines| == 0 then 0 else |lines| - 1)
    ensures forall a :: 1 <= a < |lines| ==>
      (CompoundOf(LineFields(lines[a]), fade).Ok? &&
       Compounds(lines, fade).value[a - 1] == CompoundOf(LineFields(lines[a]), fade).value)
  {
    forall a | 1 <= a < |lines|
      ensures CompoundOf(LineFields(lines[a]), fade).Ok?
      ensures Compounds(lines, fade).value[a - 1] == CompoundOf(LineFields(lines[a]), fade).value
    {
      CompoundsRow(lines, fade, a);
    }
  }

  function Inds(cs: seq<Compound>): seq<string> { seq(|cs|, i requires 0 <= i < |cs| => cs[i].ind) }
  function WorkingNames(cs: seq<Compound>): seq<string> { seq(|cs|, i requires 0 <= i < |cs| => cs[i].workingName) }
  function Names(cs: seq<Compound>): seq<string> { seq(|cs|, i requires 0 <= i < |cs| => cs[i].name) }
  function Smiles(cs: seq<Compound>): seq<string> { seq(|cs|, i requires 0 <= i < |cs| => cs[i].smiles) }
  function Colours(cs: seq<Compound>): seq<seq<string>> { seq(|cs|, i requires 0 <= i < |cs| => cs[i].colour) }

  /** Lines 18-20: the fields of every line of the file, header included. */
  method ReadRows(lines: seq<string>) returns (fN: seq<seq<string>>)
    ensures fN == FieldRows(lines)
  {
    fN := [];
    for a := 0 to |lines|
      invariant fN == FieldRows(lines)[..a]
    {
      assert FieldRows(lines)[..a + 1] == FieldRows(lines)[..a] + [LineFields(lines[a])];
      fN := fN + [Split(Strip(lines[a], '\n'), ",")];
    }
  }

  /** The compound table as the class stores it: five aligned lists. */
  class Information {
    var ind: seq<string>
    var workingName: seq<string>
    var name: seq<string>
    var smiles: seq<string>
    var colour: seq<seq<string>>

    /** Every list has one entry per compound. */
    predicate Aligned()
      reads this
    {
      |workingName| == |ind| && |name| == |ind| && |smiles| == |ind| && |colour| == |ind|
    }

    /** Lines 51-55: the lists are stored as read. */
    constructor (ind: seq<string>, workingName: seq<string>, name: seq<string>, smiles: seq<string>,
                 colour: seq<seq<string>>)
      ensures this.ind == ind && this.workingName == workingName && this.name == name
      ensures this.smiles == smiles && this.colour == colour
    {
      this.ind := ind;
      this.workingName := workingName;
      this.name := name;
      this.smiles := smiles;
      this.colour := colour;
    }
  }

  /** Lines 29-49 for one row. */
  method ReadCompound(x: seq<string>, fade: Fader) returns (res: Result<Compound>)
    ensures res == CompoundOf(x, fade)
  {
    if |x| < 5 {
      return Fail(IndexError);
    }
    var name := x[2];
    name := ReplaceAll(name, "alpha-beta", "α,β");
    name := ReplaceAll(name, "alpha", "α");
    name := ReplaceAll(name, "beta", "β");
    name := ReplaceAll(name, "RRR", "R,R,R");
    name := ReplaceAll(name, "RRS", "R,R,S");
    name := ReplaceAll(name, "RSR", "R,S,R");
    name := ReplaceAll(name, "RSS", "R,S,S");
    name := ReplaceAll(name, "RR", "R,R");
    name := ReplaceAll(name, "RS", "R,S");
    var shades :- Shades(x[4], fade);
    return Ok(Compound(x[0], x[1], name, x[3], shades));
  }

  /** One more compound adds one entry to each list. */
  lemma ColumnsSnoc(cs: seq<Compound>, c: Compound)
    ensures Inds(cs + [c]) == Inds(cs) + [c.ind] && WorkingNames(cs + [c]) == WorkingNames(cs) + [c.workingName]
    ensures Names(cs + [c]) == Names(cs) + [c.name] && Smiles(cs + [c]) == Smiles(cs) + [c.smiles]
    ensures Colours(cs + [c]) == Colours(cs) + [c.colour]
  {
  }

  /** Lines 27-49: the row loop, skipping the header row. */
  method ReadCompounds(lines: seq<string>, fade: Fader)
      returns (res: Result<(seq<string>, seq<string>, seq<string>, seq<string>, seq<seq<string>>)>)
    ensures res.Fail? <==> Compounds(lines, fade).Fail?
    ensures res.Fail? ==> res.error == Compounds(lines, fade).error
    ensures res.Ok? ==> var cs := Compounds(lines, fade).value;
      res.value == (Inds(cs), WorkingNames(cs), Names(cs), Smiles(cs), Colours(cs))
  {
    var fN := ReadRows(lines);
    var ind: seq<string> := [];
    var workingName: seq<string> := [];
    var names: seq<string> := [];
    var smiles: seq<string> := [];
    var colour: seq<seq<string>> := [];
    ghost var rows := BodyRows(lines);
    ghost var f := CompoundReader(fade);
    ghost var cs: seq<Compound> := [];
    for a := 0 to |fN|
      invariant a > 0 ==> MapResult(rows[..a - 1], f) == Ok(cs)
      invariant a == 0 ==> cs == []
      invariant ind == Inds(cs) && workingName == WorkingNames(cs) && names == Names(cs)
      invariant smiles == Smiles(cs) && colour == Colours(cs)
    {
      if a > 0 {
        var x := fN[a];
        assert x == rows[a - 1];
        ReaderApply(fade, x);
        var read := ReadCompound(x, fade);
        if read.Fail? {
          MapResultFirstFail(rows, f, a - 1);
          return Fail(read.error);
        }
        var c := read.value;
        assert f(rows[a - 1]) == Ok(c);
        MapResultSnoc(rows, f, a - 1, cs);
        ColumnsSnoc(cs, c);
        ind := ind + [c.ind];
        workingName := workingName + [c.workingName];
        names := names + [c.name];
        smiles := smiles + [c.smiles];
        colour := colour + [c.colour];
        cs := cs + [c];
      }
    }
    if |fN| > 0 {
      assert rows[..|fN| - 1] == rows;
    }
    return Ok((ind, workingName, names, smiles, colour));
  }

  /** `information(comp_info)`, lines 7-55, on the lines of
      compound_information.csv. */
  method NewInformation(lines: seq<string>, fade: Fader) returns (res: Result<Information>)
    ensures res.Fail? <==> Compounds(lines, fade).Fail?
    ensures res.Fail? ==> res.error == Compounds(lines, fade).error
    ensures res.Ok? ==> var cs := Compounds(lines, fade).value;
      fresh(res.value) && res.value.Aligned() && res.value.ind == Inds(cs) &&
      res.value.workingName == WorkingNames(cs) && res.value.name == Names(cs) &&
      res.value.smiles == Smiles(cs) && res.value.colour == Colours(cs)
  {
    var cols := ReadCompounds(lines, fade);
    if cols.Fail? {
      return Fail(cols.error);
    }
    var (ind, workingName, names, smiles, colour) := cols.value;
    var info := new Information(ind, workingName, names, smiles, colour);
    return Ok(info);
  }

  /** The lists of the table line up with the rows after the header: entry
      `a - 1` of each list comes from row `a`, fields 0, 1 and 3 verbatim,
      field 2 as its display name and field 4 as its four shades. */
  lemma InformationRows(lines: seq<string>, fade: Fader, a: nat)
    requires Compounds(lines, fade).Ok? && 1 <= a < |lines|
    ensures var cs := Compounds(lines, fade).value; var x := LineFields(lines[a]);
      |x| >= 5 && |cs| == |lines| - 1 &&
      Inds(cs)[a - 1] == x[0] && WorkingNames(cs)[a - 1] == x[1] && Names(cs)[a - 1] == DisplayName(x[2]) &&
      ShadesOf(x[4], fade).Ok? && Smiles(cs)[a - 1] == x[3] && Colours(cs)[a - 1] == ShadesOf(x[4], fade).value
  {
    CompoundsRow(lines, fade, a);
    var cs := Compounds(lines, fade).value;
    var x := LineFields(lines[a]);
    assert cs[a - 1] == Compound(x[0], x[1], DisplayName(x[2]), x[3], ShadesOf(x[4], fade).value);
  }

  // load_colours_dict

  /** Lines 81-82 for one line: field 3 is the key and field 4 the colour.
      A line of fewer than five fields raises IndexError. */
  function ColourEntry(line: string): (r: Result<(string, string)>)
    ensures r.Fail? <==> |Split(line, ",")| < 5
    ensures r.Fail? ==> r.error == IndexError
    ensures r.Ok? ==> r.value == (Split(line, ",")[3], Split(line, ",")[4])
  {
    var entries := Split(line, ",");
    if |entries| < 5 then Fail(IndexError) else Ok((entries[3], entries[4]))
  }

  /** The non-empty lines after the first. */
  function ColourLines(text: string): (lines: seq<string>)
    ensures |lines| == if |TextLines(text)| == 0 then 0 else |TextLines(text)| - 1
  {
    var lines := TextLines(text);
    if |lines| == 0 then [] else lines[1..]
  }

  /** `load_colours_dict(filename)` on the text of the file. */
  function ColoursDict(text: string): (r: Result<Dict<string>>)
    ensures r.Fail? ==> r.error == IndexError
  {
    var pairs :- MapResult(ColourLines(text), ColourEntry);
    Ok(PutAll(pairs))
  }

  /** `load_colours_dict(filename)`, lines 74-84, on the text the file
      holds. */
  method LoadColoursDict(text: string) returns (res: Result<Dict<string>>)
    ensures res == ColoursDict(text)
  {
    var all := TextLines(text);
    var lines := if |all| == 0 then [] else all[1..];
    var colours: Dict<string> := [];
    ghost var pairs: seq<(string, string)> := [];
    for i := 0 to |lines|
      invariant MapResult(lines[..i], ColourEntry) == Ok(pairs)
      invariant colours == PutAll(pairs)
    {
      var entries := Split(lines[i], ",");
      if |entries| < 5 {
        MapResultStop(lines, ColourEntry, i);
        return Fail(IndexError);
      }
      MapResultSnoc(lines, ColourEntry, i, pairs);
      colours := Put(colours, entries[3], entries[4]);
      PutAllSnoc(pairs, entries[3], entries[4]);
      pairs := pairs + [(entries[3], entries[4])];
    }
    assert lines[..|lines|] == lines;
    return Ok(colours);
  }

  /** Reading the colours raises exactly when a non-empty line after the
      first has fewer than five fields. */
  lemma ColoursFail(text: string)
    ensures ColoursDict(text).Fail? <==>
      exists i :: 0 <= i < |ColourLines(text)| && |Split(ColourLines(text)[i], ",")| < 5
  {
    var lines := ColourLines(text);
    var f := ColourEntry;
    MapResultSpec(lines, f);
    if exists i :: 0 <= i < |lines| && |Split(lines[i], ",")| < 5 {
      var i :| 0 <= i < |lines| && |Split(lines[i], ",")| < 5;
      MapResultStop(lines, f, i);
    }
    if ColoursDict(text).Fail? {
      var i :| 0 <= i < |lines| && f(lines[i]).Fail?;
      assert f(lines[i]) == ColourEntry(lines[i]);
    }
  }

  /** Otherwise the keys are exactly the fourth fields of those lines. */
  lemma ColoursKeys(text: string)
    requires ColoursDict(text).Ok?
    ensures forall k :: k in Keys(ColoursDict(text).value) <==>
      exists i :: 0 <= i < |ColourLines(text)| && |Split(ColourLines(text)[i], ",")| > 3 &&
        Split(ColourLines(text)[i], ",")[3] == k
  {
    var lines := ColourLines(text);
    var f := ColourEntry;
    MapResultSpec(lines, f);
    var pairs := MapResult(lines, f).value;
    var d := PutAll(pairs);
    PutAllKeys(pairs);
    forall k | k in Keys(d)
      ensures exists i :: 0 <= i < |lines| && |Split(lines[i], ",")| > 3 && Split(lines[i], ",")[3] == k
    {
      var i :| 0 <= i < |pairs| && pairs[i].0 == k;
      assert f(lines[i]) == ColourEntry(lines[i]);
      assert Split(lines[i], ",")[3] == k;
    }
    forall i | 0 <= i < |lines| && |Split(lines[i], ",")| > 3
      ensures Split(lines[i], ",")[3] in Keys(d)
    {
      assert f(lines[i]) == ColourEntry(lines[i]);
      assert pairs[i].0 == Split(lines[i], ",")[3];
    }
  }

  /** A compound's colour is field 4 of the last line naming it in field 3. */
  lemma ColoursLastWins(text: string, i: nat)
    requires ColoursDict(text).Ok? && i < |ColourLines(text)|
    requires forall j :: (i < j < |ColourLines(text)| && |Split(ColourLines(text)[j], ",")| > 3 &&
      |Split(ColourLines(text)[i], ",")| > 3) ==>
      Split(ColourLines(text)[j], ",")[3] != Split(ColourLines(text)[i], ",")[3]
    ensures |Split(ColourLines(text)[i], ",")| >= 5
    ensures var d := ColoursDict(text).value; var entries := Split(ColourLines(text)[i], ",");
      entries[3] in Keys(d) && Get(d, entries[3]) == entries[4]
  {
    var lines := ColourLines(text);
    var f := ColourEntry;
    MapResultSpec(lines, f);
    var pairs := MapResult(lines, f).value;
    assert f(lines[i]) == ColourEntry(lines[i]);
    assert pairs[i] == ColourEntry(lines[i]).value;
    forall j | i < j < |pairs|
      ensures pairs[j].0 != pairs[i].0
    {
      assert f(lines[j]) == ColourEntry(lines[j]);
      assert ColourEntry(lines[j]).Ok? && pairs[j] == ColourEntry(lines[j]).value;
    }
    PutAllLastWins(pairs, i);
  }
}
