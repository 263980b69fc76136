/** The Python string operations the scripts rely on: `in` on strings,
    `str.split(sep)`, `sep.join`, `str.strip(c)`, `str.replace` and the
    decimal text of an `int`. */
module Strings {

  /** Python `s.startswith(p)`. */
  predicate StartsWith(s: string, p: string) {
    |p| <= |s| && s[..|p|] == p
  }

  /** Python `s.endswith(p)`. */
  predicate EndsWith(s: string, p: string) {
    |p| <= |s| && s[|s| - |p|..] == p
  }

  /** Python `sub in s`: `sub` occurs somewhere in `s`. */
  predicate Contains(s: string, sub: string)
    decreases |s|
  {
    StartsWith(s, sub) || (|s| > 0 && Contains(s[1..], sub))
  }

  lemma {:induction false} ContainsAt(s: string, sub: string, i: nat)
    requires i + |sub| <= |s| && s[i..i + |sub|] == sub
    ensures Contains(s, sub)
    decreases i
  {
    if i > 0 {
      assert s[1..][i - 1..i - 1 + |sub|] == sub;
      ContainsAt(s[1..], sub, i - 1);
    }
  }

  lemma {:induction false} ContainsChar(s: string, c: char)
    ensures Contains(s, [c]) <==> c in s
    decreases |s|
  {
    if |s| > 0 {
      ContainsChar(s[1..], c);
      assert s == [s[0]] + s[1..];
    }
  }

  /** Python `s.split(sep)` for a non-empty separator: the pieces between
      the non-overlapping occurrences of `sep`, scanning from the left. */
  function Split(s: string, sep: string): (parts: seq<string>)
    requires |sep| > 0
    ensures |parts| >= 1
    decreases |s|
  {
    if |s| < |sep| then [s]
    else if StartsWith(s, sep) then [""] + Split(s[|sep|..], sep)
    else
      var rest := Split(s[1..], sep);
      [[s[0]] + rest[0]] + rest[1..]
  }

  /** Python `sep.join(parts)`. */
  function Join(parts: seq<string>, sep: string): string
  {
    if |parts| == 0 then ""
    else if |parts| == 1 then parts[0]
    else parts[0] + sep + Join(parts[1..], sep)
  }

  /** Python `s.replace(pat, rep)`: every non-overlapping occurrence of
      `pat`, scanning from the left, is replaced by `rep`. */
  function ReplaceAll(s: string, pat: string, rep: string): string
    requires |pat| > 0
    decreases |s|
  {
    if |s| < |pat| then s
    else if StartsWith(s, pat) then rep + ReplaceAll(s[|pat|..], pat, rep)
    else [s[0]] + ReplaceAll(s[1..], pat, rep)
  }

  lemma JoinConsHead(c: char, parts: seq<string>, sep: string)
    requires |parts| >= 1
    ensures Join([[c] + parts[0]] + parts[1..], sep) == [c] + Join(parts, sep)
  {
    var q := [[c] + parts[0]] + parts[1..];
    if |parts| > 1 {
      assert q[1..] == parts[1..];
    }
  }

  /** `s.replace(pat, rep)` is `rep.join(s.split(pat))`. */
  lemma {:induction false} ReplaceIsSplitJoin(s: string, pat: string, rep: string)
    requires |pat| > 0
    ensures ReplaceAll(s, pat, rep) == Join(Split(s, pat), rep)
    decreases |s|
  {
    if |s| < |pat| {
    } else if StartsWith(s, pat) {
      ReplaceIsSplitJoin(s[|pat|..], pat, rep);
      var rest := Split(s[|pat|..], pat);
      assert ([""] + rest)[1..] == rest;
    } else {
      ReplaceIsSplitJoin(s[1..], pat, rep);
      JoinConsHead(s[0], Split(s[1..], pat), rep);
    }
  }

  /** Replacing a pattern by itself changes nothing. */
  lemma {:induction false} ReplaceBySelf(s: string, pat: string)
    requires |pat| > 0
    ensures ReplaceAll(s, pat, pat) == s
    decreases |s|
  {
    if |s| < |pat| {
    } else if StartsWith(s, pat) {
      ReplaceBySelf(s[|pat|..], pat);
      assert s == s[..|pat|] + s[|pat|..];
    } else {
      ReplaceBySelf(s[1..], pat);
      assert s == [s[0]] + s[1..];
    }
  }

  /** Splitting and joining with the same separator gives back the text. */
  lemma JoinSplit(s: string, sep: string)
    requires |sep| > 0
    ensures Join(Split(s, sep), sep) == s
  {
    ReplaceIsSplitJoin(s, sep, sep);
    ReplaceBySelf(s, sep);
  }

  /** A text without the pattern is left unchanged by `replace`. */
  lemma {:induction false} ReplaceAbsent(s: string, pat: string, rep: string)
    requires |pat| > 0 && !Contains(s, pat)
    ensures ReplaceAll(s, pat, rep) == s
    decreases |s|
  {
    if |s| >= |pat| {
      ReplaceAbsent(s[1..], pat, rep);
      assert s == [s[0]] + s[1..];
    }
  }

  lemma {:induction false} SplitHeadIsPrefix(s: string, sep: string)
    requires |sep| > 0
    ensures StartsWith(s, Split(s, sep)[0])
    decreases |s|
  {
    if |s| >= |sep| && !StartsWith(s, sep) {
      SplitHeadIsPrefix(s[1..], sep);
    }
  }

  /** No piece returned by `split` contains the separator. */
  lemma {:induction false} SplitPiecesLackSep(s: string, sep: string)
    requires |sep| > 0
    ensures forall p :: p in Split(s, sep) ==> !Contains(p, sep)
    decreases |s|
  {
    if |s| < |sep| {
      NotContainsShort(s, sep);
    } else if StartsWith(s, sep) {
      SplitPiecesLackSep(s[|sep|..], sep);
    } else {
      var rest := Split(s[1..], sep);
      SplitPiecesLackSep(s[1..], sep);
      SplitHeadIsPrefix(s[1..], sep);
      var head := [s[0]] + rest[0];
      assert head[1..] == rest[0];
      assert !Contains(head, sep);
    }
  }

  lemma {:induction false} NotContainsShort(s: string, sub: string)
    requires |s| < |sub|
    ensures !Contains(s, sub)
    decreases |s|
  {
    if |s| > 0 {
      NotContainsShort(s[1..], sub);
    }
  }

  /** `split` returns a single piece exactly when the separator is absent. */
  lemma {:induction false} SplitSingleIffAbsent(s: string, sep: string)
    requires |sep| > 0
    ensures |Split(s, sep)| == 1 <==> !Contains(s, sep)
    decreases |s|
  {
    if |s| < |sep| {
      NotContainsShort(s, sep);
    } else if !StartsWith(s, sep) {
      SplitSingleIffAbsent(s[1..], sep);
    }
  }

  /** Python `s.strip(c)` for a single character: all leading and trailing
      copies of `c` are removed. */
  function StripLeft(s: string, c: char): (r: string)
    ensures |r| <= |s|
    ensures |r| > 0 ==> r[0] != c
    decreases |s|
  {
    if |s| > 0 && s[0] == c then StripLeft(s[1..], c) else s
  }

  function StripRight(s: string, c: char): (r: string)
    ensures |r| <= |s|
    ensures |r| > 0 ==> r[|r| - 1] != c
    decreases |s|
  {
    if |s| > 0 && s[|s| - 1] == c then StripRight(s[..|s| - 1], c) else s
  }

  /** Stripping on the left keeps a suffix, on the right a prefix. */
  lemma {:induction false} StripLeftSuffix(s: string, c: char)
    ensures StripLeft(s, c) == s[|s| - |StripLeft(s, c)|..]
    decreases |s|
  {
    if |s| > 0 && s[0] == c {
      StripLeftSuffix(s[1..], c);
    }
  }

  lemma {:induction false} StripRightPrefix(s: string, c: char)
    ensures StripRight(s, c) == s[..|StripRight(s, c)|]
    decreases |s|
  {
    if |s| > 0 && s[|s| - 1] == c {
      StripRightPrefix(s[..|s| - 1], c);
    }
  }

  function Strip(s: string, c: char): (r: string)
    ensures |r| <= |s|
    ensures |r| > 0 ==> r[0] != c && r[|r| - 1] != c
  {
    StripRightPrefix(StripLeft(s, c), c);
    StripRight(StripLeft(s, c), c)
  }

  /** A text that neither starts nor ends with `c` is its own strip. */
  lemma StripUnchanged(s: string, c: char)
    requires |s| == 0 || (s[0] != c && s[|s| - 1] != c)
    ensures Strip(s, c) == s
  {
  }

  /** The fields `[e for e in line.strip("\n").split(",") if e != ""]`. */
  function NonEmpty(parts: seq<string>): (r: seq<string>)
    ensures forall i :: 0 <= i < |r| ==> r[i] != "" && r[i] in parts
    ensures |r| <= |parts|
  {
    if |parts| == 0 then []
    else (if parts[0] == "" then [] else [parts[0]]) + NonEmpty(parts[1..])
  }

  lemma {:induction false} NonEmptyKeepsAll(parts: seq<string>)
    requires forall i :: 0 <= i < |parts| ==> parts[i] != ""
    ensures NonEmpty(parts) == parts
  {
    if |parts| > 0 {
      NonEmptyKeepsAll(parts[1..]);
      assert parts == [parts[0]] + parts[1..];
    }
  }

  function SplitFields(line: string): (fields: seq<string>)
  {
    NonEmpty(Split(Strip(line, '\n'), ","))
  }

  /** No field returned by the line splitter is empty or holds a comma. */
  lemma SplitFieldsClean(line: string)
    ensures forall i :: 0 <= i < |SplitFields(line)| ==>
      SplitFields(line)[i] != "" && ',' !in SplitFields(line)[i]
  {
    var parts := Split(Strip(line, '\n'), ",");
    SplitPiecesLackSep(Strip(line, '\n'), ",");
    forall i | 0 <= i < |SplitFields(line)|
      ensures ',' !in SplitFields(line)[i]
    {
      ContainsChar(SplitFields(line)[i], ',');
    }
  }

  /** `[x for x in text.split("\n") if x != ""]`: the non-empty lines. */
  function TextLines(text: string): (lines: seq<string>)
    ensures forall i :: 0 <= i < |lines| ==> lines[i] != ""
  {
    NonEmpty(Split(text, "\n"))
  }

  /** `line.strip("\n").split(",")`: the comma-separated fields of a line
      read from a file, empty ones included. */
  function LineFields(line: string): (fs: seq<string>)
    ensures |fs| >= 1
  {
    Split(Strip(line, '\n'), ",")
  }

  /** The part of `s` before the first `c`: Python `s.split(c)[0]`
      (FirstTokenIsSplit). */
  function FirstToken(s: string, c: char): (t: string)
    decreases |s|
  {
    if |s| == 0 || s[0] == c then "" else [s[0]] + FirstToken(s[1..], c)
  }

  lemma {:induction false} FirstTokenIsSplit(s: string, c: char)
    ensures FirstToken(s, c) == Split(s, [c])[0]
    decreases |s|
  {
    if |s| > 0 && s[0] != c {
      FirstTokenIsSplit(s[1..], c);
      assert !StartsWith(s, [c]);
    }
  }

  lemma {:induction false} FirstTokenProps(s: string, c: char)
    ensures StartsWith(s, FirstToken(s, c))
    ensures c !in FirstToken(s, c)
    ensures c !in s ==> FirstToken(s, c) == s
    decreases |s|
  {
    if |s| > 0 && s[0] != c {
      FirstTokenProps(s[1..], c);
      assert s == [s[0]] + s[1..];
    }
  }

  /** Decimal text of an integer, as Python's `f"{i}"` prints an `int`. */
  function DigitChar(d: nat): char
    requires d < 10
  {
    "0123456789"[d]
  }

  function NatToString(n: nat): (s: string)
    ensures |s| > 0
    ensures forall i :: 0 <= i < |s| ==> '0' <= s[i] <= '9'
    decreases n
  {
    if n < 10 then [DigitChar(n)] else NatToString(n / 10) + [DigitChar(n % 10)]
  }

  function IntToString(i: int): (s: string)
    ensures ',' !in s && '\n' !in s && |s| > 0
  {
    if i < 0 then "-" + NatToString(-i) else NatToString(i)
  }

  /** Reading the decimal text back. */
  function ParseNat(s: string): nat
    requires forall i :: 0 <= i < |s| ==> '0' <= s[i] <= '9'
  {
    if |s| == 0 then 0 else ParseNat(s[..|s| - 1]) * 10 + ((s[|s| - 1] as int) - ('0' as int))
  }

  lemma {:induction false} NatToStringRoundTrip(n: nat)
    ensures ParseNat(NatToString(n)) == n
    decreases n
  {
    if n >= 10 {
      NatToStringRoundTrip(n / 10);
      var s := NatToString(n);
      assert s[..|s| - 1] == NatToString(n / 10);
    }
  }
}
