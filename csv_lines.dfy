/** Comma-separated lines as the data-report writer builds them and the line
    splitter `spl_lin` reads them back. */
module CsvLines {
  import opened Strings

  /** A field the line splitter returns unchanged: non-empty, with neither a
      comma nor a newline. */
  predicate CleanField(f: string) { f != "" && ',' !in f && '\n' !in f }

  predicate CleanFields(fs: seq<string>) { forall i :: 0 <= i < |fs| ==> CleanField(fs[i]) }

  /** Every field followed by a comma: the text a `line_str += f"{x},"` loop builds. */
  function Terminated(fs: seq<string>): (s: string)
    ensures |fs| > 0 ==> |s| > 0
  {
    if |fs| == 0 then "" else fs[0] + "," + Terminated(fs[1..])
  }

  lemma {:induction false} TerminatedSnoc(fs: seq<string>, f: string)
    ensures Terminated(fs + [f]) == Terminated(fs) + f + ","
  {
    if |fs| > 0 {
      assert (fs + [f])[1..] == fs[1..] + [f];
      TerminatedSnoc(fs[1..], f);
    }
  }

  lemma {:induction false} TerminatedIsJoin(fs: seq<string>)
    requires |fs| > 0
    ensures Terminated(fs) == Join(fs, ",") + ","
  {
    if |fs| > 1 {
      TerminatedIsJoin(fs[1..]);
    }
  }

  /** The joined text starts with the first field's first character and ends
      with the last field's last character. */
  lemma {:induction false} JoinEnds(fs: seq<string>, sep: string)
    requires |fs| > 0 && forall i :: 0 <= i < |fs| ==> fs[i] != ""
    ensures var j := Join(fs, sep);
      |j| > 0 && j[0] == fs[0][0] && j[|j| - 1] == fs[|fs| - 1][|fs[|fs| - 1]| - 1]
  {
    if |fs| > 1 {
      var rest := fs[1..];
      JoinEnds(rest, sep);
      var r := Join(rest, sep);
      var head := fs[0] + sep;
      assert Join(fs, sep) == head + r;
      assert rest[|rest| - 1] == fs[|fs| - 1];
      assert (head + r)[0] == fs[0][0];
      assert (head + r)[|head + r| - 1] == r[|r| - 1];
    }
  }

  /** Stripping the commas off a terminated line of clean fields leaves the
      fields joined by commas. */
  lemma StripTerminated(fs: seq<string>)
    requires CleanFields(fs)
    ensures Strip(Terminated(fs), ',') == Join(fs, ",")
  {
    if |fs| > 0 {
      TerminatedIsJoin(fs);
      JoinEnds(fs, ",");
      var j := Join(fs, ",");
      var t := Terminated(fs);
      assert fs[0][0] in fs[0];
      assert fs[|fs| - 1][|fs[|fs| - 1]| - 1] in fs[|fs| - 1];
      assert StripLeft(t, ',') == t;
      assert t[..|t| - 1] == j;
      assert StripRight(t, ',') == StripRight(j, ',');
    }
  }

  lemma {:induction false} SplitNoSep(p: string, c: char)
    requires c !in p
    ensures Split(p, [c]) == [p]
    decreases |p|
  {
    if |p| >= 1 {
      SplitNoSep(p[1..], c);
      assert p == [p[0]] + p[1..];
    }
  }

  lemma {:induction false} SplitPrefixSep(p: string, c: char, x: string)
    requires c !in p
    ensures Split(p + [c] + x, [c]) == [p] + Split(x, [c])
    decreases |p|
  {
    var s := p + [c] + x;
    if |p| == 0 {
      assert s[1..] == x;
    } else {
      assert s[1..] == p[1..] + [c] + x;
      SplitPrefixSep(p[1..], c, x);
      assert p == [p[0]] + p[1..];
    }
  }

  /** Splitting pieces free of the separator character, joined by it, gives
      them back. */
  lemma {:induction false} SplitJoin(fs: seq<string>, c: char)
    requires |fs| > 0 && forall i :: 0 <= i < |fs| ==> c !in fs[i]
    ensures Split(Join(fs, [c]), [c]) == fs
  {
    if |fs| == 1 {
      SplitNoSep(fs[0], c);
    } else {
      SplitPrefixSep(fs[0], c, Join(fs[1..], [c]));
      SplitJoin(fs[1..], c);
    }
  }

  lemma {:induction false} JoinLacks(fs: seq<string>, sep: string, c: char)
    requires c !in sep && forall i :: 0 <= i < |fs| ==> c !in fs[i]
    ensures c !in Join(fs, sep)
  {
    if |fs| > 1 {
      JoinLacks(fs[1..], sep, c);
    }
  }

  /** The line splitter reads clean fields joined by commas back exactly. */
  lemma SplitFieldsJoin(fs: seq<string>)
    requires CleanFields(fs)
    ensures SplitFields(Join(fs, ",")) == fs
  {
    var j := Join(fs, ",");
    JoinLacks(fs, ",", '\n');
    if |j| > 0 {
      assert j[0] in j && j[|j| - 1] in j;
    }
    StripUnchanged(j, '\n');
    if |fs| > 0 {
      SplitJoin(fs, ',');
      NonEmptyKeepsAll(fs);
    }
  }

  /** The line splitter reads a terminated line of clean fields back exactly. */
  lemma SplitFieldsTerminated(fs: seq<string>)
    requires CleanFields(fs)
    ensures SplitFields(Strip(Terminated(fs), ',')) == fs
  {
    StripTerminated(fs);
    SplitFieldsJoin(fs);
  }
}
