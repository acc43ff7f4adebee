/** Strings over the alphabet the configuration file is read with: white space is the blank, the tab
    and the line feed, and only the line feed ends a line. Stripping takes white space off the ends of
    a string, splitting cuts a text into lines and joining puts them together again. The lemmas say what
    is left in between, and which of the two orders of splitting and joining loses something, and what. */
module Text {

  datatype Maybe<+T> = None | Some(value: T)

  predicate IsSpace(c: char) {
    c == ' ' || c == '\t' || c == '\n'
  }

  ghost predicate AllSpace(s: string) {
    forall i :: 0 <= i < |s| ==> IsSpace(s[i])
  }

  /** No white space at either end. */
  predicate Trimmed(s: string) {
    s != "" ==> !IsSpace(s[0]) && !IsSpace(s[|s| - 1])
  }

  predicate OneLine(s: string) {
    '\n' !in s
  }

  function LStrip(s: string): string {
    if s != "" && IsSpace(s[0]) then LStrip(s[1..]) else s
  }

  function RStrip(s: string): (r: string)
    ensures |r| <= |s|
  {
    if s != "" && IsSpace(s[|s| - 1]) then RStrip(s[..|s| - 1]) else s
  }

  function Strip(s: string): string {
    RStrip(LStrip(s))
  }

  predicate IsBlank(s: string) {
    LStrip(s) == ""
  }

  /** Index of the first `c` at or after `i`, or |s|. */
  function IndexOf(s: string, c: char, i: nat): (r: nat)
    requires i <= |s|
    ensures i <= r <= |s|
    ensures r < |s| ==> s[r] == c
    ensures forall j :: i <= j < r ==> s[j] != c
    decreases |s| - i
  {
    if i == |s| || s[i] == c then i else IndexOf(s, c, i + 1)
  }

  lemma {:induction false} LStripPrefix(l: string, s: string)
    requires AllSpace(l)
    requires s == "" || !IsSpace(s[0])
    ensures LStrip(l + s) == s
  {
    if l == "" {
      assert l + s == s;
    } else {
      assert (l + s)[1..] == l[1..] + s;
      LStripPrefix(l[1..], s);
    }
  }

  lemma {:induction false} RStripSuffix(s: string, r: string)
    requires AllSpace(r)
    requires s == "" || !IsSpace(s[|s| - 1])
    ensures RStrip(s + r) == s
  {
    if r == "" {
      assert s + r == s;
    } else {
      assert (s + r)[..|s + r| - 1] == s + r[..|r| - 1];
      RStripSuffix(s, r[..|r| - 1]);
    }
  }

  lemma {:induction false} LStripParts(s: string) returns (l: string)
    ensures AllSpace(l) && s == l + LStrip(s)
    ensures LStrip(s) == "" || !IsSpace(LStrip(s)[0])
  {
    if s != "" && IsSpace(s[0]) {
      var l' := LStripParts(s[1..]);
      l := [s[0]] + l';
      assert s == [s[0]] + s[1..];
    } else {
      l := "";
    }
  }

  lemma {:induction false} RStripParts(s: string) returns (r: string)
    ensures AllSpace(r) && s == RStrip(s) + r
    ensures RStrip(s) == "" || !IsSpace(RStrip(s)[|RStrip(s)| - 1])
  {
    if s != "" && IsSpace(s[|s| - 1]) {
      var r' := RStripParts(s[..|s| - 1]);
      r := r' + [s[|s| - 1]];
      assert s == s[..|s| - 1] + [s[|s| - 1]];
    } else {
      r := "";
    }
  }

  /** What `Strip` leaves is the core of the string, between two runs of white space. */
  lemma StripParts(s: string) returns (l: string, r: string)
    ensures AllSpace(l) && AllSpace(r) && s == l + Strip(s) + r && Trimmed(Strip(s))
  {
    l := LStripParts(s);
    r := RStripParts(LStrip(s));
    assert s == l + (Strip(s) + r);
  }

  /** The core determines `Strip`. */
  lemma StripIs(l: string, s: string, r: string)
    requires AllSpace(l) && AllSpace(r) && Trimmed(s)
    ensures Strip(l + s + r) == s
  {
    if s == "" {
      assert l + s + r == (l + r) + "";
      LStripPrefix(l + r, "");
    } else {
      assert l + s + r == l + (s + r);
      LStripPrefix(l, s + r);
      RStripSuffix(s, r);
    }
  }

  lemma StripTrimmed(s: string)
    requires Trimmed(s)
    ensures Strip(s) == s
  {
    StripIs("", s, "");
    assert "" + s + "" == s;
  }

  lemma StripIdempotent(s: string)
    ensures Trimmed(Strip(s)) && Strip(Strip(s)) == Strip(s)
    ensures OneLine(s) ==> OneLine(Strip(s))
    ensures |Strip(s)| <= |s|
  {
    var l, r := StripParts(s);
    StripTrimmed(Strip(s));
  }

  lemma BlankIffStrip(s: string)
    ensures IsBlank(s) <==> Strip(s) == ""
    ensures IsBlank(s) <==> AllSpace(s)
  {
    var l, r := StripParts(s);
    if Strip(s) == "" {
      assert s == (l + r) + "";
      LStripPrefix(l + r, "");
    }
    if AllSpace(s) {
      assert s == s + "";
      LStripPrefix(s, "");
    }
  }

  /** `str.splitlines` for text whose only line separator is the line feed. */
  function SplitLines(text: string): (lines: seq<string>)
    ensures forall i :: 0 <= i < |lines| ==> OneLine(lines[i])
  {
    if text == "" then []
    else
      var i := IndexOf(text, '\n', 0);
      if i == |text| then [text] else [text[..i]] + SplitLines(text[i + 1..])
  }

  /** `"\n".join(lines)`. */
  function JoinLines(lines: seq<string>): string {
    if lines == [] then ""
    else if |lines| == 1 then lines[0]
    else lines[0] + "\n" + JoinLines(lines[1..])
  }

  /** The same text with a line feed after every line. */
  function Terminated(lines: seq<string>): string {
    if lines == [] then "" else lines[0] + "\n" + Terminated(lines[1..])
  }

  lemma {:induction false} IndexOfFirst(a: string, b: string)
    requires OneLine(a)
    ensures IndexOf(a + "\n" + b, '\n', 0) == |a|
  {
    var s := a + "\n" + b;
    assert s[|a|] == '\n';
    assert forall j :: 0 <= j < |a| ==> s[j] == a[j];
  }

  lemma {:induction false} SplitHead(a: string, b: string)
    requires OneLine(a)
    ensures SplitLines(a + "\n" + b) == [a] + SplitLines(b)
  {
    var s := a + "\n" + b;
    IndexOfFirst(a, b);
    assert s[..|a|] == a && s[|a| + 1..] == b;
  }

  lemma {:induction false} SplitTerminated(lines: seq<string>)
    requires forall i :: 0 <= i < |lines| ==> OneLine(lines[i])
    ensures SplitLines(Terminated(lines)) == lines
  {
    if lines != [] {
      SplitTerminated(lines[1..]);
      SplitHead(lines[0], Terminated(lines[1..]));
    }
  }

  lemma {:induction false} JoinTerminated(lines: seq<string>)
    requires lines != []
    ensures JoinLines(lines) + "\n" == Terminated(lines)
  {
    if |lines| == 1 {
      assert lines[1..] == [];
      assert Terminated(lines[1..]) == "";
    } else {
      JoinTerminated(lines[1..]);
      assert JoinLines(lines) + "\n" == lines[0] + "\n" + (JoinLines(lines[1..]) + "\n");
    }
  }

  /** Splitting loses only the question whether the last line was terminated. */
  lemma {:induction false} SplitShape(text: string)
    requires text != ""
    ensures SplitLines(text) != []
    ensures text[|text| - 1] == '\n' ==> Terminated(SplitLines(text)) == text
    ensures text[|text| - 1] != '\n' ==> JoinLines(SplitLines(text)) == text
  {
    var i := IndexOf(text, '\n', 0);
    if i < |text| {
      var a, rest := text[..i], text[i + 1..];
      var tail := SplitLines(rest);
      assert SplitLines(text) == [a] + tail && ([a] + tail)[1..] == tail;
      assert text == a + "\n" + rest;
      if rest != "" {
        SplitShape(rest);
        assert rest[|rest| - 1] == text[|text| - 1];
      }
    }
  }
}
