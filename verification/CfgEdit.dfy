/** Edits of a document as splices of its lines: the lines of an option exchanged, added or taken out, a
    section added at the end or cut out with the blank line behind it. Each is placed by the index,
    so everything that locality says of a splice holds of the edit, and what the index says of an
    option is what its own lines say. */
module CfgEdit {
  import opened Text
  import opened CfgLine
  import opened CfgIndex
  import opened CfgLocality
  import opened CfgRender

  ghost predicate OneLines(lines: seq<string>) {
    forall i :: 0 <= i < |lines| ==> OneLine(lines[i])
  }

  // ---- looking up: the first of several wins ----

  function FindSec(secs: seq<Sec>, name: string): (j: nat)
    ensures j <= |secs|
    ensures j < |secs| ==> secs[j].name == name
    ensures forall i :: 0 <= i < j ==> secs[i].name != name
  {
    if secs == [] || secs[0].name == name then 0 else 1 + FindSec(secs[1..], name)
  }

  function FindOpt(opts: seq<Opt>, key: string): (k: nat)
    ensures k <= |opts|
    ensures k < |opts| ==> opts[k].key == key
    ensures forall i :: 0 <= i < k ==> opts[i].key != key
  {
    if opts == [] || opts[0].key == key then 0 else 1 + FindOpt(opts[1..], key)
  }

  function Lookup(secs: seq<Sec>, name: string, key: string): Maybe<string> {
    var j := FindSec(secs, name);
    if j == |secs| then None
    else
      var k := FindOpt(secs[j].opts, key);
      if k == |secs[j].opts| then None else Some(secs[j].opts[k].value)
  }

  // ---- the edits ----

  /** Positions of an indexed option and section lie inside the document. */
  lemma Spans(lines: seq<string>)
    ensures forall j :: 0 <= j < |Parse(lines)| ==>
      0 <= Parse(lines)[j].header < Parse(lines)[j].end <= |lines|
    ensures forall j, k :: 0 <= j < |Parse(lines)| && 0 <= k < |Parse(lines)[j].opts| ==>
      Parse(lines)[j].header < Parse(lines)[j].opts[k].start < Parse(lines)[j].opts[k].end <= Parse(lines)[j].end
  {
    ScanPlaced(lines, |lines|);
  }

  function AddSectionLines(lines: seq<string>, name: string): seq<string> {
    if FindSec(Parse(lines), name) < |Parse(lines)| then lines
    else lines + SectionBlock(lines, name)
  }

  function SectionBlock(lines: seq<string>, name: string): seq<string> {
    (if lines != [] && !IsBlank(Last(lines)) then [""] else []) + ["[" + name + "]"]
  }

  /** Where a new key goes: behind the last line of the section that is not blank. */
  function InsertAt(lines: seq<string>, header: nat, at: nat): (r: nat)
    requires header < at <= |lines|
    ensures header < r <= at
    ensures forall i :: r <= i < at ==> IsBlank(lines[i])
    ensures r == header + 1 || !IsBlank(lines[r - 1])
  {
    if at > header + 1 && IsBlank(lines[at - 1]) then InsertAt(lines, header, at - 1) else at
  }

  function ExistingLines(lines: seq<string>, j: nat, key: string): seq<string>
    requires j < |Parse(lines)|
  {
    Spans(lines);
    var opts := Parse(lines)[j].opts;
    var k := FindOpt(opts, key);
    if k < |opts| then lines[opts[k].start..opts[k].end] else []
  }

  function SetIn(lines: seq<string>, j: nat, key: string, value: Value): seq<string>
    requires j < |Parse(lines)|
  {
    Spans(lines);
    var s := Parse(lines)[j];
    var k := FindOpt(s.opts, key);
    if k < |s.opts| then
      SpliceLines(lines, s.opts[k].start, s.opts[k].end, Render(key, value, ExistingLines(lines, j, key)))
    else
      var at := InsertAt(lines, s.header, s.end);
      SpliceLines(lines, at, at, Render(key, value, []))
  }

  /** `KeyError` is what indexing with a name raises whose header reads back differently. */
  datatype SetResult = Done(lines: seq<string>) | KeyError(lines: seq<string>)

  function SetLines(lines: seq<string>, name: string, key: string, value: Value): SetResult {
    var lines1 := AddSectionLines(lines, name);
    var j := FindSec(Parse(lines1), name);
    if j == |Parse(lines1)| then KeyError(lines1) else Done(SetIn(lines1, j, key, value))
  }

  function RemoveOptionLines(lines: seq<string>, name: string, key: string): seq<string> {
    Spans(lines);
    var secs := Parse(lines);
    var j := FindSec(secs, name);
    if j == |secs| then lines
    else
      var k := FindOpt(secs[j].opts, key);
      if k == |secs[j].opts| then lines
      else SpliceLines(lines, secs[j].opts[k].start, secs[j].opts[k].end, [])
  }

  function RemoveSectionLines(lines: seq<string>, name: string): seq<string> {
    Spans(lines);
    var secs := Parse(lines);
    var j := FindSec(secs, name);
    if j == |secs| then lines
    else
      var end := secs[j].end;
      SpliceLines(lines, secs[j].header, if end < |lines| && IsBlank(lines[end]) then end + 1 else end, [])
  }

  // ---- locality of each edit, positions included ----

  /** Exchanging the lines of option `k` of section `j`. */
  lemma SpliceOption(lines: seq<string>, j: nat, k: nat, block: seq<string>)
    requires j < |Parse(lines)| && k < |Parse(lines)[j].opts|
    requires block == [] || IsBlock(block)
    ensures var o := Parse(lines)[j].opts[k];
            && 0 <= o.start <= o.end <= |lines|
            && Parse(SpliceLines(lines, o.start, o.end, block))
               == Spliced(Parse(lines), j, k, 1, NewOpts(block, o.start), |block| - (o.end - o.start))
  {
    hide Step, Classify, BlockValue, Spliced, SpliceLines;
    var n := |lines|;
    OptionHistory(lines, n, j, k);
    var s, o := Parse(lines)[j], Parse(lines)[j].opts[k];
    var P, s0 := Parse(lines)[..j], Sec(s.name, s.header, o.start, s.opts[..k]);
    var own := lines[o.start..o.end];
    OptionBlock(lines, n, ScanTo(lines, n), j, k);
    BlockScan(lines, o.start, own, P, s0);
    SpliceLocality(lines, o.start, o.end, P, s0, [OptOf(own, o.start)], block);
  }

  lemma OptionBlock(lines: seq<string>, n: nat, st: Scan, j: nat, k: nat)
    requires n <= |lines| && j < |st.secs| && k < |st.secs[j].opts|
    requires OptionAt(lines, n, st, j, k)
    ensures var o := st.secs[j].opts[k]; 0 <= o.start < o.end <= n && IsBlock(lines[o.start..o.end])
  {
    hide Classify, IsContinuation;
  }

  /** Every option of the index is what its own lines say: key, place and value. */
  lemma OptionIs(lines: seq<string>, j: nat, k: nat)
    requires j < |Parse(lines)| && k < |Parse(lines)[j].opts|
    ensures var o := Parse(lines)[j].opts[k];
            && 0 <= o.start < o.end <= |lines|
            && IsBlock(lines[o.start..o.end]) && o == OptOf(lines[o.start..o.end], o.start)
            && (o.end < |lines| ==> !IsContinuation(lines[o.end]))
  {
    hide Step, Classify, IsContinuation, IsBlock, BlockValue;
    OptionHistory(lines, |lines|, j, k);
    OptionBlock(lines, |lines|, ScanTo(lines, |lines|), j, k);
    var s, o := Parse(lines)[j], Parse(lines)[j].opts[k];
    var P, s0, own := Parse(lines)[..j], Sec(s.name, s.header, o.start, s.opts[..k]), lines[o.start..o.end];
    BlockScan(lines, o.start, own, P, s0);
    hide ScanTo;
    assert ScanTo(lines, o.end).secs[j].opts == s.opts[..k] + [OptOf(own, o.start)];
    OptionStays(lines, o.end, |lines|, j, k);
  }

  /** Inserting an option behind the last line of section `j` that is not blank. */
  lemma SpliceInsert(lines: seq<string>, j: nat, at: nat, block: seq<string>)
    requires j < |Parse(lines)| && IsBlock(block)
    requires Parse(lines)[j].header < at <= Parse(lines)[j].end <= |lines|
    requires forall i :: at <= i < Parse(lines)[j].end ==> IsBlank(lines[i])
    ensures Parse(SpliceLines(lines, at, at, block))
            == Spliced(Parse(lines), j, |Parse(lines)[j].opts|, 0, NewOpts(block, at), |block|)
  {
    hide Step, Classify, BlockValue, Spliced, SpliceLines;
    var s, P := Parse(lines)[j], Parse(lines)[..j];
    SectionHistory(lines, |lines|, j);
    assert Parse(lines)[..j + 1] == P + [s];
    BlankBack(lines, P, s, at);
    EndIsNoContinuation(lines, j);
    if at < s.end {
      BlankIsBreak(lines[at]);
      ContIsContinuation(lines[at]);
    }
    var s0 := s.(end := at);
    assert s0.opts + [] == s0.opts;
    SpliceLocality(lines, at, at, P, s0, [], block);
  }

  /** The line behind a section is the next header, or there is none. */
  lemma EndIsNoContinuation(lines: seq<string>, j: nat)
    requires j < |Parse(lines)|
    ensures 0 <= Parse(lines)[j].header < Parse(lines)[j].end <= |lines|
    ensures Parse(lines)[j].end < |lines| ==>
      && j + 1 < |Parse(lines)| && Parse(lines)[j + 1].header == Parse(lines)[j].end
      && Classify(lines[Parse(lines)[j].end]).Header?
      && !IsContinuation(lines[Parse(lines)[j].end]) && !IsBlank(lines[Parse(lines)[j].end])
  {
    var n, secs := |lines|, Parse(lines);
    SectionHistory(lines, n, j);
    if secs[j].end < n {
      SectionHistory(lines, n, j + 1);
      var line := lines[secs[j].end];
      ContIsContinuation(line);
      if IsBlank(line) {
        BlankIsBreak(line);
      }
    }
  }

  lemma StepBreakBack(st: Scan, line: string, i: int, P: seq<Sec>, s: Sec)
    requires Classify(line) == Break && (st.secs != [] ==> Last(st.secs).end == i)
    requires Step(st, line, i).secs == P + [s]
    ensures st.secs == P + [s.(end := i)]
  {
    hide Classify;
    var m := |st.secs| - 1;
    var after := Step(st, line, i).secs;
    assert after[..m] == st.secs[..m] && after[m] == st.secs[m].(end := i + 1);
    assert (P + [s])[..m] == P && (P + [s])[m] == s;
    assert st.secs == st.secs[..m] + [st.secs[m]];
  }

  /** Blank lines at the end of a section only move its end. */
  lemma {:induction false} BlankBack(lines: seq<string>, P: seq<Sec>, s: Sec, at: nat)
    requires 0 <= at <= s.end <= |lines|
    requires ScanTo(lines, s.end).secs == P + [s]
    requires forall i :: at <= i < s.end ==> IsBlank(lines[i])
    ensures ScanTo(lines, at).secs == P + [s.(end := at)]
    decreases s.end - at
  {
    if at < s.end {
      var i := s.end - 1;
      BlankIsBreak(lines[i]);
      ScanPlaced(lines, i);
      hide Classify, Step, IsBlank;
      assert ScanTo(lines, s.end) == Step(ScanTo(lines, i), lines[i], i);
      StepBreakBack(ScanTo(lines, i), lines[i], i, P, s);
      hide ScanTo;
      BlankBack(lines, P, s.(end := i), at);
      assert s.(end := i).(end := at) == s.(end := at);
    }
  }

  // ---- sections as a whole ----

  /** Two documents with the same lines from a header on. */
  lemma {:induction false} SectionTail(lines: seq<string>, lines': seq<string>, e: nat, e': nat,
                                       P: seq<Sec>, P': seq<Sec>, n: nat) returns (x: Scan)
    requires e <= n <= |lines| && e' <= |lines'| && lines[e..] == lines'[e'..]
    requires ScanTo(lines, e).secs == P && ScanTo(lines', e').secs == P'
    requires e < |lines| ==> Classify(lines[e]).Header?
    ensures n + (e' - e) <= |lines'|
    ensures ScanTo(lines, n).secs == P + x.secs
    ensures ScanTo(lines', n + (e' - e)).secs == P' + ShiftSecs(x.secs, e' - e)
    ensures n > e ==> ScanTo(lines, n).active == ScanTo(lines', n + (e' - e)).active == x.active && x.secs != []
    decreases n
  {
    hide Step, Classify;
    var d := e' - e;
    assert |lines| - e == |lines'| - e';
    if n == e {
      x := Scan([], false);
    } else {
      var y := SectionTail(lines, lines', e, e', P, P', n - 1);
      var line := lines[n - 1];
      assert line == lines[e..][n - 1 - e] == lines'[e'..][n - 1 - e] == lines'[n - 1 + d];
      x := Step(y, line, n - 1);
      if n - 1 == e {
        StepHeader(ScanTo(lines, n - 1), line, n - 1);
        StepHeader(ScanTo(lines', n - 1 + d), line, n - 1 + d);
        StepHeader(y, line, n - 1);
      } else {
        StepAppend(P, y, line, n - 1);
        StepShift(y, line, n - 1, d);
        StepAppend(P', Shift(y, d), line, n - 1 + d);
      }
    }
  }

  lemma StepHeader(st: Scan, line: string, i: int)
    requires Classify(line).Header?
    ensures Step(st, line, i) == Scan(st.secs + [Sec(Classify(line).name, i, i + 1, [])], false)
  {
    hide Classify;
  }

  lemma StepAppend(P: seq<Sec>, y: Scan, line: string, i: int)
    requires y.secs != []
    ensures Step(Scan(P + y.secs, y.active), line, i) == Scan(P + Step(y, line, i).secs, Step(y, line, i).active)
    ensures Step(y, line, i).secs != []
  {
    hide Classify;
    assert Last(P + y.secs) == Last(y.secs);
    assert (P + y.secs)[..|P + y.secs| - 1] == P + y.secs[..|y.secs| - 1];
  }

  /** Where a section is removed: its header up to its end, which is never followed by a
      blank line, because it reaches to the next header or to the end of the document. */
  lemma {:induction false} RemoveSectionLocality(lines: seq<string>, name: string)
    ensures var secs, j := Parse(lines), FindSec(Parse(lines), name);
            if j == |secs| then RemoveSectionLines(lines, name) == lines
            else
              && 0 <= secs[j].header < secs[j].end <= |lines|
              && !(secs[j].end < |lines| && IsBlank(lines[secs[j].end]))
              && RemoveSectionLines(lines, name) == lines[..secs[j].header] + lines[secs[j].end..]
              && Parse(RemoveSectionLines(lines, name))
                 == secs[..j] + ShiftSecs(secs[j + 1..], secs[j].header - secs[j].end)
  {
    hide Step, Classify, IsBlank, ShiftSecs, ScanTo;
    var secs, j := Parse(lines), FindSec(Parse(lines), name);
    if j < |secs| {
      EndIsNoContinuation(lines, j);
      SectionHistory(lines, |lines|, j);
      var e, e' := secs[j].end, secs[j].header;
      var lines' := lines[..e'] + lines[e..];
      assert RemoveSectionLines(lines, name) == lines[..e'] + [] + lines[e..] == lines';
      assert lines'[..e'] == lines[..e'];
      ScanPrefix(lines, lines', e');
      assert lines'[e'..] == lines[e..];
      var x := SectionTail(lines, lines', e, e', secs[..j + 1], secs[..j], |lines|);
      assert secs[j + 1..] == x.secs;
    }
  }

  lemma {:induction false} AddSectionLocality(lines: seq<string>, name: string)
    requires ValidName(name) && FindSec(Parse(lines), name) == |Parse(lines)|
    ensures var lines' := AddSectionLines(lines, name);
            var n := |lines'|;
            && |lines| < n && lines'[..|lines|] == lines
            && |Parse(lines')| == |Parse(lines)| + 1
            && Last(Parse(lines')) == Sec(name, n - 1, n, [])
            && forall j :: 0 <= j < |Parse(lines)| ==>
                 Parse(lines')[j] == Parse(lines)[j].(end := Parse(lines')[j].end)
  {
    hide Step, Classify, ValidName;
    var lines' := AddSectionLines(lines, name);
    var m, n := |lines|, |lines'|;
    assert lines'[..m] == lines[..m];
    ScanPrefix(lines, lines', m);
    HeaderLine(name);
    assert lines'[n - 1] == "[" + name + "]";
    if n == m + 2 {
      assert lines'[m] == "";
      BlankIsBreak("");
      StepBreak(ScanTo(lines', m), "", m);
    }
    StepHeader(ScanTo(lines', n - 1), lines'[n - 1], n - 1);
  }

  lemma StepBreak(st: Scan, line: string, i: int)
    requires Classify(line) == Break
    ensures var secs' := Step(st, line, i).secs;
            && |secs'| == |st.secs|
            && forall j :: 0 <= j < |secs'| ==> secs'[j] == st.secs[j].(end := secs'[j].end)
  {
    hide Classify;
  }
}
