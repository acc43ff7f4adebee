/** The format itself, character by character, without the recognisers. */
module CfgGrammar {
  import opened Text
  import opened CfgLine
  import opened CfgIndex
  import opened CfgLocality
  import opened CfgEdit
  import opened CfgTable

  // ---- white space ----

  predicate Blank(c: char) {
    c == ' ' || c == '\t' || c == '\n'
  }

  ghost predicate Blanks(s: string) {
    forall i :: 0 <= i < |s| ==> Blank(s[i])
  }

  /** Nothing blank at either end. */
  predicate Bare(s: string) {
    s != "" ==> !Blank(s[0]) && !Blank(s[|s| - 1])
  }

  /** Stripping takes the blanks off both ends and leaves the rest. */
  lemma {:induction false} StripExactly(s: string, t: string)
    ensures Strip(s) == t <==> Bare(t) && exists l, r :: Blanks(l) && Blanks(r) && s == l + t + r
  {
    if Strip(s) == t {
      var l, r := StripParts(s);
      assert Blanks(l) && Blanks(r) && s == l + t + r;
    }
    if Bare(t) && exists l, r :: Blanks(l) && Blanks(r) && s == l + t + r {
      var l, r :| Blanks(l) && Blanks(r) && s == l + t + r;
      StripIs(l, t, r);
    }
  }

  // ---- comments ----

  /** A hash or a semicolon, behind blanks only. */
  ghost predicate CommentText(line: string) {
    exists i :: 0 <= i < |line| && (line[i] == '#' || line[i] == ';') && Blanks(line[..i])
  }

  lemma {:induction false} CommentIff(line: string)
    ensures IsComment(line) <==> CommentText(line)
  {
    var l := LStripParts(line);
    var t := LStrip(line);
    if IsComment(line) {
      assert line[|l|] == t[0] && line[..|l|] == l && Blanks(l);
    }
    if CommentText(line) {
      var i :| 0 <= i < |line| && (line[i] == '#' || line[i] == ';') && Blanks(line[..i]);
      assert line == line[..i] + line[i..] && AllSpace(line[..i]);
      LStripPrefix(line[..i], line[i..]);
    }
  }

  /** An inline comment opens at a hash or a semicolon that opens the text or stands behind a blank. */
  ghost predicate Opens(s: string, i: int) {
    0 <= i < |s| && (s[i] == '#' || s[i] == ';') && (i == 0 || Blank(s[i - 1]))
  }

  /** A value `t`, blanks, and the first inline comment at `c`, if there is one. */
  ghost predicate CutAt(s: string, t: string, c: nat) {
    && c <= |s| && (c < |s| ==> Opens(s, c)) && (forall j :: 0 <= j < c ==> !Opens(s, j))
    && t <= s[..c] && Blanks(s[|t|..c]) && (t == "" || !Blank(t[|t| - 1]))
  }

  lemma PrefixRest(s: string, c: nat, t: string, gap: string)
    requires c <= |s| && s[..c] == t + gap
    ensures t <= s[..c] && |t| <= c && s[|t|..c] == gap
  {
    assert s[|t|..c] == s[..c][|t|..];
  }

  /** What stays of a value: all of it up to the first inline comment, without the blanks before it. */
  lemma {:induction false} InlineExactly(s: string, t: string)
    ensures StripInline(s) == t <==> exists c: nat :: CutAt(s, t, c)
  {
    var c := CommentStart(s);
    assert forall j :: 0 <= j < |s| ==> (CommentAt(s, j) <==> Opens(s, j));
    if StripInline(s) == t {
      var gap := RStripParts(s[..c]);
      PrefixRest(s, c, t, gap);
      assert Blanks(gap);
      assert CutAt(s, t, c);
    }
    if exists c: nat :: CutAt(s, t, c) {
      var c': nat :| CutAt(s, t, c');
      CommentStartIs(s, c');
      assert s[..c'] == t + s[|t|..c'];
      RStripSuffix(t, s[|t|..c']);
    }
  }

  // ---- headers ----

  /** A name in brackets, and behind it nothing but blanks and a comment. */
  ghost predicate HeaderText(line: string, raw: string) {
    && raw != "" && ']' !in raw
    && exists tail :: line == "[" + raw + "]" + tail && (Blanks(tail) || CommentText(tail))
  }

  lemma BlankIff(s: string)
    ensures IsBlank(s) <==> Blanks(s)
  {
    BlankIffStrip(s);
  }

  lemma HeaderReads(line: string, raw: string)
    requires HeaderText(line, raw)
    ensures Classify(line) == Header(Strip(raw))
  {
    var tail :| line == "[" + raw + "]" + tail && (Blanks(tail) || CommentText(tail));
    assert line[0] == '[' && line[|raw| + 1] == ']';
    assert forall i :: 1 <= i < |raw| + 1 ==> line[i] == raw[i - 1];
    assert IndexOf(line, ']', 1) == |raw| + 1;
    assert line[1..|raw| + 1] == raw && line[|raw| + 2..] == tail;
    BlankIff(tail);
    CommentIff(tail);
  }

  lemma {:induction false} HeaderIff(line: string, name: string)
    ensures Classify(line) == Header(name) <==> exists raw :: HeaderText(line, raw) && name == Strip(raw)
  {
    if Classify(line) == Header(name) {
      var j := IndexOf(line, ']', 1);
      var raw, tail := line[1..j], line[j + 1..];
      assert line == "[" + raw + "]" + tail;
      BlankIff(tail);
      CommentIff(tail);
      assert HeaderText(line, raw);
    }
    forall raw | HeaderText(line, raw) ensures Classify(line) == Header(Strip(raw)) {
      HeaderReads(line, raw);
    }
  }

  lemma NoHeader(line: string)
    ensures line != "" && line[0] != '[' ==> forall raw :: !HeaderText(line, raw)
  {
    forall raw, tail | line == "[" + raw + "]" + tail ensures line != "" && line[0] == '[' {
    }
  }

  lemma PlainHeader(name: string)
    requires name != "" && Bare(name) && ']' !in name
    ensures Classify("[" + name + "]") == Header(name)
  {
    var line := "[" + name + "]";
    assert line == "[" + name + "]" + "" && Blanks("");
    assert HeaderText(line, name);
    HeaderReads(line, name);
    StripTrimmed(name);
  }

  // ---- continuations ----

  /** Indented and not blank. */
  ghost predicate ContinuationText(line: string) {
    line != "" && (line[0] == ' ' || line[0] == '\t') && !Blanks(line)
  }

  lemma {:induction false} ContinuationIff(line: string)
    ensures IsContinuation(line) <==> ContinuationText(line)
    ensures Classify(line).Cont? <==> ContinuationText(line)
    ensures ContinuationText(line) ==>
      Classify(line) == Cont(if CommentText(line) then "" else StripInline(Strip(line)))
  {
    BlankIff(line);
    CommentIff(line);
    ContIsContinuation(line);
  }

  // ---- options ----

  /** A key, blanks, a colon or an equals sign, and the rest: the key has neither of the two in it, does
      not open with a blank or a comment, and does not end with a blank. */
  ghost predicate OptionText(line: string, key: string, rest: string) {
    && key != "" && ':' !in key && '=' !in key && Bare(key) && key[0] != '#' && key[0] != ';'
    && exists gap, sep :: Blanks(gap) && (sep == ':' || sep == '=') && line == key + gap + [sep] + rest
  }

  lemma OptionReads(line: string, key: string, rest: string)
    requires OptionText(line, key, rest)
    ensures OptionParts(line) == Some((key, rest))
  {
    var gap, sep :| Blanks(gap) && (sep == ':' || sep == '=') && line == key + gap + [sep] + rest;
    var n := |key| + |gap|;
    assert line[0] == key[0] && key[0] in key && line[n] == sep;
    forall i | 0 <= i < n ensures line[i] != ':' && line[i] != '=' {
      if i < |key| {
        assert line[i] == key[i] && key[i] in key;
      } else {
        assert line[i] == gap[i - |key|];
      }
    }
    assert FirstSeparator(line) == n;
    assert line[..n] == key + gap && line[n + 1..] == rest;
    assert AllSpace(gap);
    RStripSuffix(key, gap);
  }

  lemma OptionFound(line: string)
    requires OptionParts(line).Some?
    ensures OptionText(line, OptionParts(line).value.0, OptionParts(line).value.1)
  {
    var j := FirstSeparator(line);
    var (key, rest) := OptionParts(line).value;
    var gap := RStripParts(line[..j]);
    var sep := line[j];
    assert line == line[..j] + [sep] + rest;
    assert line[..j] == key + gap;
    assert line[..j][0] == line[0];
    assert forall i :: 0 <= i < |key| ==> key[i] == line[i];
    assert Blanks(gap) && line == key + gap + [sep] + rest;
  }

  /** A line opens an option exactly if it has that form and is no header, and the value is the rest,
      stripped, without an inline comment. */
  lemma {:induction false} OptionIff(line: string, key: string, value: string)
    ensures Classify(line) == Start(key, value) <==>
      && (forall raw :: !HeaderText(line, raw))
      && exists rest :: OptionText(line, key, rest) && value == StripInline(Strip(rest))
  {
    if exists raw :: HeaderText(line, raw) {
      var raw :| HeaderText(line, raw);
      HeaderReads(line, raw);
    } else {
      if HeaderName(line).Some? {
        HeaderIff(line, HeaderName(line).value);
      }
      assert HeaderName(line).None?;
      if Classify(line) == Start(key, value) {
        OptionFound(line);
        var rest := OptionParts(line).value.1;
        assert OptionText(line, key, rest);
      }
      forall rest | OptionText(line, key, rest) ensures Classify(line) == Start(key, StripInline(Strip(rest))) {
        OptionReads(line, key, rest);
        assert line[0] == key[0] && key[0] == key[..][0];
      }
    }
  }

  /** So a colon and an equals sign, with blanks before them or without, say the same. */
  lemma {:induction false} EitherSeparator(key: string, gap: string, sep: char, rest: string)
    requires key != "" && ':' !in key && '=' !in key && Bare(key) && key[0] !in {'#', ';', '['}
    requires Blanks(gap) && '\n' !in gap && (sep == ':' || sep == '=')
    ensures Classify(key + gap + [sep] + rest) == Start(key, StripInline(Strip(rest)))
  {
    var line := key + gap + [sep] + rest;
    assert OptionText(line, key, rest);
    assert line[0] == key[0];
    NoHeader(line);
    OptionIff(line, key, StripInline(Strip(rest)));
  }

  // ---- what is read from a file that holds such a line ----

  /** A line of a section that opens no section and does not open the key. */
  predicate Passes(line: string, key: string) {
    !Classify(line).Header? && (Classify(line).Start? ==> Classify(line).key != key)
  }

  lemma {:induction false} StepPasses(P: seq<Sec>, s: Sec, active: bool, line: string, i: int, key: string)
    requires Passes(line, key) && FindOpt(s.opts, key) == |s.opts| && (active ==> s.opts != [])
    ensures var st := Step(Scan(P + [s], active), line, i);
      && |st.secs| == |P| + 1 && st.secs[..|P|] == P && Last(st.secs).name == s.name
      && FindOpt(Last(st.secs).opts, key) == |Last(st.secs).opts|
      && (st.active ==> Last(st.secs).opts != [])
  {
    hide Classify;
    var st := Step(Scan(P + [s], active), line, i);
    var s' := Last(st.secs);
    assert st.secs[..|P|] == P;
    forall k | 0 <= k < |s'.opts| ensures s'.opts[k].key != key {
      if k < |s.opts| {
        assert s.opts[k].key != key;
      }
    }
  }

  lemma {:induction false} ScanPasses(lines: seq<string>, m: nat, n: nat, P: seq<Sec>, name: string, key: string)
    requires m <= n <= |lines| && forall i :: m <= i < n ==> Passes(lines[i], key)
    requires ScanTo(lines, m) == Scan(P + [Sec(name, m - 1, m, [])], false)
    ensures var st := ScanTo(lines, n);
      && |st.secs| == |P| + 1 && st.secs[..|P|] == P && Last(st.secs).name == name
      && FindOpt(Last(st.secs).opts, key) == |Last(st.secs).opts|
      && (st.active ==> Last(st.secs).opts != [])
    decreases n
  {
    hide Step, Passes;
    if n > m {
      ScanPasses(lines, m, n - 1, P, name, key);
      var st := ScanTo(lines, n - 1);
      assert st.secs == P + [Last(st.secs)];
      StepPasses(P, Last(st.secs), st.active, lines[n - 1], n - 1, key);
    } else {
      assert (P + [Sec(name, m - 1, m, [])])[..|P|] == P;
    }
  }

  lemma Layout(before: seq<string>, h: string, between: seq<string>, line: string, after: seq<string>)
    ensures var lines, b := before + [h] + between + [line] + after, |before|;
      && lines[..b] == before == before[..b] && lines[b] == h && lines[b + 1 + |between|] == line
      && (forall i :: b < i < b + 1 + |between| ==> lines[i] in between)
      && (b + 2 + |between| < |lines| ==> after != [] && lines[b + 2 + |between|] == after[0])
  {
    var lines, b := before + [h] + between + [line] + after, |before|;
    assert forall i :: b < i < b + 1 + |between| ==> lines[i] == between[i - b - 1];
  }

  lemma {:induction false} FindSecIs(secs: seq<Sec>, P: seq<Sec>, name: string)
    requires |P| < |secs| && secs[..|P|] == P && FindSec(P, name) == |P| && secs[|P|].name == name
    ensures FindSec(secs, name) == |P|
  {
    assert forall i :: 0 <= i < |P| ==> secs[i] == P[i];
  }

  lemma {:induction false} FindOptIs(opts: seq<Opt>, O: seq<Opt>, key: string)
    requires |O| < |opts| && opts[..|O|] == O && FindOpt(O, key) == |O| && opts[|O|].key == key
    ensures FindOpt(opts, key) == |O|
  {
    assert forall i :: 0 <= i < |O| ==> opts[i] == O[i];
  }

  lemma FoundLater(lines: seq<string>, P: seq<Sec>, s: Sec, m: nat, name: string, key: string, value: string)
    requires m < |lines| && s.name == name && FindSec(P, name) == |P| && FindOpt(s.opts, key) == |s.opts|
    requires ScanTo(lines, m + 1) == Scan(P + [s.(end := m + 1, opts := s.opts + [Opt(key, m, m + 1, value)])], true)
    requires m + 1 < |lines| ==> !IsContinuation(lines[m + 1])
    ensures ValueAt(TableOf(lines), name, key) == Some(value)
  {
    hide Step, Classify, IsContinuation, ScanTo, StripInline;
    var j, k, n := |P|, |s.opts|, |lines|;
    var st := ScanTo(lines, m + 1);
    assert st.secs[j].opts[k] == Opt(key, m, m + 1, value);
    OptionStays(lines, m + 1, n, j, k);
    OptionHistory(lines, n, j, k);
    var secs := Parse(lines);
    assert st.secs[..j] == P && st.secs[j].opts[..k] == s.opts;
    FindSecIs(secs, P, name);
    FindOptIs(secs[j].opts, s.opts, key);
    LookupAgrees(secs, name, key);
  }

  lemma {:induction false} OpensThere(
      before: seq<string>, name: string, between: seq<string>, line: string, key: string, value: string,
      after: seq<string>)
    requires Classify("[" + name + "]") == Header(name) && Classify(line) == Start(key, value)
    requires FindRow(TableOf(before), name) == |TableOf(before)|
    requires forall x :: x in between ==> Passes(x, key)
    requires after != [] ==> !IsContinuation(after[0])
    ensures ValueAt(TableOf(before + ["[" + name + "]"] + between + [line] + after), name, key) == Some(value)
  {
    hide Classify, Step, IsContinuation, Passes, FindOpt;
    var lines := before + ["[" + name + "]"] + between + [line] + after;
    var b, m := |before|, |before| + 1 + |between|;
    Layout(before, "[" + name + "]", between, line, after);
    ScanPrefix(before, lines, b);
    var P := Parse(before);
    StepHeader(ScanTo(lines, b), lines[b], b);
    ScanPasses(lines, b + 1, m, P, name, key);
    var st := ScanTo(lines, m);
    var s := Last(st.secs);
    assert st.secs == P + [s];
    StepStart(P, s, st.active, line, m);
    FindsAgree(P, name);
    FoundLater(lines, P, s, m, name, key, value);
  }

  /** The first such line in the first section of a name is what is read, whichever way it is written,
      if no continuation follows. */
  lemma {:induction false} ValueRead(
      before: seq<string>, name: string, between: seq<string>, line: string, key: string, rest: string,
      after: seq<string>)
    requires name != "" && Bare(name) && ']' !in name
    requires FindRow(TableOf(before), name) == |TableOf(before)|
    requires forall x :: x in between ==> Passes(x, key)
    requires OptionText(line, key, rest) && line[0] != '['
    requires after != [] ==> !ContinuationText(after[0])
    ensures ValueAt(TableOf(before + ["[" + name + "]"] + between + [line] + after), name, key)
            == Some(StripInline(Strip(rest)))
  {
    NoHeader(line);
    OptionIff(line, key, StripInline(Strip(rest)));
    PlainHeader(name);
    if after != [] {
      ContinuationIff(after[0]);
    }
    hide Classify, OptionText, IsContinuation;
    OpensThere(before, name, between, line, key, StripInline(Strip(rest)), after);
  }
}
