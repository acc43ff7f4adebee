/** What the one-pass scanner of a document computes: the list of all its sections, repeated names
    included, each with all its options, repeated keys included, and where each of them stands. The
    state after each line is kept as a function, so that a theorem can speak of what had been read
    when a header or a key was met. */
module CfgIndex {
  import opened Text
  import opened CfgLine

  /** One key and the span [start, end) of lines it occupies. */
  datatype Opt = Opt(key: string, start: int, end: int, value: string)

  /** One header line and the lines up to the next header. */
  datatype Sec = Sec(name: string, header: int, end: int, opts: seq<Opt>)

  /** Sections seen so far; `active` says that the last option is still open. */
  datatype Scan = Scan(secs: seq<Sec>, active: bool)

  const EMPTY := Scan([], false)

  function Extend(o: Opt, item: string, end: int): Opt {
    o.(end := end, value := if item == "" then o.value else o.value + "\n" + item)
  }

  function ReplaceLast<T>(s: seq<T>, x: T): seq<T>
    requires s != []
  {
    s[..|s| - 1] + [x]
  }

  function Last<T>(s: seq<T>): T
    requires s != []
  {
    s[|s| - 1]
  }

  /** The effect of line number `i` on the last section. */
  function StepSec(s: Sec, active: bool, line: Line, i: int): (Sec, bool)
    requires !line.Header?
  {
    match line
    case Start(key, value) => (s.(end := i + 1, opts := s.opts + [Opt(key, i, i + 1, value)]), true)
    case Cont(item) =>
      if active && s.opts != [] then
        (s.(end := i + 1, opts := ReplaceLast(s.opts, Extend(Last(s.opts), item, i + 1))), true)
      else (s.(end := i + 1), false)
    case Break => (s.(end := i + 1), false)
  }

  function Step(st: Scan, line: string, i: int): Scan {
    var l := Classify(line);
    if l.Header? then Scan(st.secs + [Sec(l.name, i, i + 1, [])], false)
    else if st.secs == [] then EMPTY
    else
      var (s, active) := StepSec(Last(st.secs), st.active, l, i);
      Scan(ReplaceLast(st.secs, s), active)
  }

  /** The scanner's state after the first `n` lines. */
  function ScanTo(lines: seq<string>, n: nat): Scan
    requires n <= |lines|
  {
    if n == 0 then EMPTY else Step(ScanTo(lines, n - 1), lines[n - 1], n - 1)
  }

  function Parse(lines: seq<string>): seq<Sec> {
    ScanTo(lines, |lines|).secs
  }

  lemma {:induction false} ScanPrefix(a: seq<string>, b: seq<string>, n: nat)
    requires n <= |a| && n <= |b| && a[..n] == b[..n]
    ensures ScanTo(a, n) == ScanTo(b, n)
  {
    if n > 0 {
      assert a[..n - 1] == a[..n][..n - 1] == b[..n][..n - 1] == b[..n - 1];
      assert a[n - 1] == a[..n][n - 1] == b[..n][n - 1] == b[n - 1];
      ScanPrefix(a, b, n - 1);
    }
  }

  /** Positions in a state reached after `n` lines: the last section ends here, and
      every option lies inside. */
  ghost predicate Placed(st: Scan, n: int) {
    && (st.active ==> st.secs != [] && Last(st.secs).opts != [] && Last(Last(st.secs).opts).end == n)
    && (st.secs != [] ==> Last(st.secs).end == n)
    && (forall j :: 0 <= j < |st.secs| ==> 0 <= st.secs[j].header < st.secs[j].end <= n)
    && (forall j, k :: 0 <= j < |st.secs| && 0 <= k < |st.secs[j].opts| ==>
        st.secs[j].header < st.secs[j].opts[k].start < st.secs[j].opts[k].end <= st.secs[j].end)
  }

  lemma StepPlaced(st: Scan, line: string, n: nat)
    requires Placed(st, n)
    ensures Placed(Step(st, line, n), n + 1)
  {
    hide Classify;
  }

  lemma {:induction false} ScanPlaced(lines: seq<string>, n: nat)
    requires n <= |lines|
    ensures Placed(ScanTo(lines, n), n)
  {
    if n > 0 {
      hide Step, Classify, Placed;
      ScanPlaced(lines, n - 1);
      StepPlaced(ScanTo(lines, n - 1), lines[n - 1], n - 1);
    }
  }

  // ---- where a section and an option of the final index come from ----

  /** Where section `j` stands: everything before its header makes up the earlier
      sections, and it reaches to the next header or to the end. */
  ghost predicate SectionAt(lines: seq<string>, n: nat, secs: seq<Sec>, j: nat)
    requires n <= |lines| && j < |secs|
  {
    var s := secs[j];
    && 0 <= s.header < s.end <= n
    && Classify(lines[s.header]) == Header(s.name)
    && ScanTo(lines, s.header).secs == secs[..j]
    && ScanTo(lines, s.end).secs == secs[..j + 1]
    && s.end == (if j + 1 < |secs| then secs[j + 1].header else n)
  }

  /** A line either opens a section or changes at most the last one. */
  lemma StepShape(st: Scan, line: string, i: int)
    ensures var st' := Step(st, line, i);
            match Classify(line)
            case Header(name) => st'.secs == st.secs + [Sec(name, i, i + 1, [])] && !st'.active
            case _ =>
              if st.secs == [] then st' == EMPTY
              else
                && |st'.secs| == |st.secs|
                && (forall j :: 0 <= j < |st.secs| - 1 ==> st'.secs[j] == st.secs[j])
                && Last(st'.secs).name == Last(st.secs).name
                && Last(st'.secs).header == Last(st.secs).header
                && Last(st'.secs).end == i + 1
  {
  }

  lemma {:induction false} SectionHistory(lines: seq<string>, n: nat, j: nat)
    requires n <= |lines| && j < |ScanTo(lines, n).secs|
    ensures SectionAt(lines, n, ScanTo(lines, n).secs, j)
    decreases n
  {
    hide Step, Classify, Placed, SectionAt;
    if n > 0 {
      ScanPlaced(lines, n - 1);
      if j < |ScanTo(lines, n - 1).secs| {
        SectionHistory(lines, n - 1, j);
        SectionKept(lines, n, j);
      } else {
        SectionNew(lines, n, j);
      }
    }
  }

  lemma SectionNew(lines: seq<string>, n: nat, j: nat)
    requires 0 < n <= |lines|
    requires |ScanTo(lines, n - 1).secs| <= j < |ScanTo(lines, n).secs|
    ensures SectionAt(lines, n, ScanTo(lines, n).secs, j)
  {
    var st, st' := ScanTo(lines, n - 1), ScanTo(lines, n);
    StepShape(st, lines[n - 1], n - 1);
    assert st' == Step(st, lines[n - 1], n - 1);
    hide Step, ScanTo, HeaderName, IsContinuation, OptionParts, StripInline;
    assert st'.secs[..j] == st.secs;
    assert st'.secs[..j + 1] == st'.secs;
  }

  lemma SectionKept(lines: seq<string>, n: nat, j: nat)
    requires 0 < n <= |lines| && j < |ScanTo(lines, n - 1).secs|
    requires Placed(ScanTo(lines, n - 1), n - 1)
    requires SectionAt(lines, n - 1, ScanTo(lines, n - 1).secs, j)
    ensures j < |ScanTo(lines, n).secs|
    ensures SectionAt(lines, n, ScanTo(lines, n).secs, j)
  {
    hide Step, Classify, Placed;
    var st, st' := ScanTo(lines, n - 1), ScanTo(lines, n);
    assert st' == Step(st, lines[n - 1], n - 1);
    hide ScanTo;
    StepSections(st, lines[n - 1], n - 1, j);
  }

  /** Section `j` and what stands before it are kept by a further line; only its end may move. */
  lemma StepSections(st: Scan, line: string, i: int, j: nat)
    requires Placed(st, i) && j < |st.secs|
    ensures var secs' := Step(st, line, i).secs;
            && |st.secs| <= |secs'|
            && secs'[..j] == st.secs[..j]
            && secs'[j].name == st.secs[j].name && secs'[j].header == st.secs[j].header
            && (if j + 1 < |st.secs| then
                  && secs'[..j + 1] == st.secs[..j + 1]
                  && secs'[j + 1].header == st.secs[j + 1].header
                else if |secs'| == |st.secs| then secs'[j].end == i + 1 && secs'[..j + 1] == secs'
                else secs'[..j + 1] == st.secs == st.secs[..j + 1] && secs'[j + 1].header == i == st.secs[j].end)
  {
    StepShape(st, line, i);
    assert st.secs[|st.secs| - 1].end == i;
    hide Step, Classify, Placed;
  }

  /** Where option `k` of section `j` stands: the lines before it make up what comes
      before it, its own line is an option line, and only continuation lines follow. */
  ghost predicate OptionAt(lines: seq<string>, n: nat, st: Scan, j: nat, k: nat)
    requires n <= |lines| && j < |st.secs| && k < |st.secs[j].opts|
  {
    var s, o := st.secs[j], st.secs[j].opts[k];
    && s.header < o.start < o.end <= s.end <= n && 0 <= s.header
    && ScanTo(lines, o.start).secs == st.secs[..j] + [Sec(s.name, s.header, o.start, s.opts[..k])]
    && Classify(lines[o.start]).Start? && Classify(lines[o.start]).key == o.key
    && (forall i :: o.start < i < o.end ==> IsContinuation(lines[i]))
    && (o.end < n ==> !IsContinuation(lines[o.end]))
    && (o.end == n ==> st.active && j == |st.secs| - 1 && k == |s.opts| - 1)
  }

  lemma {:induction false} OptionHistory(lines: seq<string>, n: nat, j: nat, k: nat)
    requires n <= |lines|
    requires j < |ScanTo(lines, n).secs| && k < |ScanTo(lines, n).secs[j].opts|
    ensures OptionAt(lines, n, ScanTo(lines, n), j, k)
    decreases n
  {
    if n > 0 {
      var st, line := ScanTo(lines, n - 1), lines[n - 1];
      ScanPlaced(lines, n - 1);
      hide Step, Classify;
      if j < |st.secs| && k < |st.secs[j].opts| {
        OptionHistory(lines, n - 1, j, k);
        OptionKept(lines, n, j, k);
      } else {
        OptionNew(lines, n, j, k);
      }
    }
  }

  lemma OptionNew(lines: seq<string>, n: nat, j: nat, k: nat)
    requires 0 < n <= |lines|
    requires j < |ScanTo(lines, n).secs| && k < |ScanTo(lines, n).secs[j].opts|
    requires Placed(ScanTo(lines, n - 1), n - 1)
    requires !(j < |ScanTo(lines, n - 1).secs| && k < |ScanTo(lines, n - 1).secs[j].opts|)
    ensures OptionAt(lines, n, ScanTo(lines, n), j, k)
  {
    hide Step, Classify, Placed;
    var st, st' := ScanTo(lines, n - 1), ScanTo(lines, n);
    assert st' == Step(st, lines[n - 1], n - 1);
    hide ScanTo;
    StepNewOption(st, lines[n - 1], n - 1, j, k);
  }

  /** Only an option line adds an option, and it adds it at the end of the last section. */
  lemma StepNewOption(st: Scan, line: string, i: int, j: nat, k: nat)
    requires Placed(st, i) && j < |Step(st, line, i).secs| && k < |Step(st, line, i).secs[j].opts|
    requires !(j < |st.secs| && k < |st.secs[j].opts|)
    ensures var st' := Step(st, line, i);
            && Classify(line).Start? && st'.active && j == |st'.secs| - 1 && k == |st'.secs[j].opts| - 1
            && 0 <= st'.secs[j].header < i && st'.secs[j].end == i + 1
            && st'.secs[j].opts[k].key == Classify(line).key
            && st'.secs[j].opts[k].start == i && st'.secs[j].opts[k].end == i + 1
            && st.secs == st'.secs[..j] + [Sec(st'.secs[j].name, st'.secs[j].header, i, st'.secs[j].opts[..k])]
  {
    hide Classify;
    assert Classify(line).Start?;
    var st' := Step(st, line, i);
    assert st'.secs[..j] == st.secs[..j];
    assert st'.secs[j].opts[..k] == st.secs[j].opts;
    assert st.secs == st.secs[..j] + [st.secs[j]];
  }

  /** An option already seen is either left alone or, when it is the open one, extended. */
  lemma StepOption(st: Scan, line: string, i: int, j: nat, k: nat)
    requires Placed(st, i) && j < |st.secs| && k < |st.secs[j].opts|
    ensures var st' := Step(st, line, i);
            var current := st.active && j == |st.secs| - 1 && k == |st.secs[j].opts| - 1;
            && j < |st'.secs| && k < |st'.secs[j].opts|
            && st'.secs[j].name == st.secs[j].name && st'.secs[j].header == st.secs[j].header
            && st.secs[j].end <= st'.secs[j].end
            && st'.secs[..j] == st.secs[..j]
            && st'.secs[j].opts[..k] == st.secs[j].opts[..k]
            && (var o, o' := st.secs[j].opts[k], st'.secs[j].opts[k];
                && o'.key == o.key && o'.start == o.start
                && (if current && IsContinuation(line)
                    then o'.end == i + 1 && st'.active && j == |st'.secs| - 1 && k == |st'.secs[j].opts| - 1
                    else o' == o))
  {
    ContIsContinuation(line);
    hide Classify;
    var st' := Step(st, line, i);
    assert forall m :: 0 <= m < |st.secs| - 1 ==> st'.secs[m] == st.secs[m];
  }

  lemma PlacedAt(st: Scan, n: int, j: nat, k: nat)
    requires Placed(st, n) && j < |st.secs| && k < |st.secs[j].opts|
    ensures 0 <= st.secs[j].header < st.secs[j].opts[k].start < st.secs[j].opts[k].end <= st.secs[j].end <= n
    ensures st.active && j == |st.secs| - 1 && k == |st.secs[j].opts| - 1 ==> st.secs[j].opts[k].end == n
  {
  }

  /** What an option was when it was read: only its end and its value may grow, and an option that ended
      earlier is the one that was read then. */
  lemma {:induction false} OptionStays(lines: seq<string>, m: nat, n: nat, j: nat, k: nat)
    requires m <= n <= |lines| && j < |ScanTo(lines, m).secs| && k < |ScanTo(lines, m).secs[j].opts|
    ensures var a, b := ScanTo(lines, m).secs, ScanTo(lines, n).secs;
            && j < |b| && k < |b[j].opts|
            && b[..j] == a[..j] && b[j].name == a[j].name && b[j].opts[..k] == a[j].opts[..k]
            && b[j].opts[k].key == a[j].opts[k].key && b[j].opts[k].start == a[j].opts[k].start
            && (b[j].opts[k].end <= m ==> b[j].opts[k] == a[j].opts[k])
    decreases n
  {
    hide Step, Classify;
    if m < n {
      OptionStays(lines, m, n - 1, j, k);
      ScanPlaced(lines, n - 1);
      StepOption(ScanTo(lines, n - 1), lines[n - 1], n - 1, j, k);
    }
  }

  lemma OptionKept(lines: seq<string>, n: nat, j: nat, k: nat)
    requires 0 < n <= |lines|
    requires j < |ScanTo(lines, n - 1).secs| && k < |ScanTo(lines, n - 1).secs[j].opts|
    requires Placed(ScanTo(lines, n - 1), n - 1)
    requires OptionAt(lines, n - 1, ScanTo(lines, n - 1), j, k)
    ensures j < |ScanTo(lines, n).secs| && k < |ScanTo(lines, n).secs[j].opts|
    ensures OptionAt(lines, n, ScanTo(lines, n), j, k)
  {
    hide Step, Classify, Placed;
    var st, st' := ScanTo(lines, n - 1), ScanTo(lines, n);
    assert st' == Step(st, lines[n - 1], n - 1);
    hide ScanTo;
    StepOption(st, lines[n - 1], n - 1, j, k);
    ScanPlaced(lines, n);
    PlacedAt(st, n - 1, j, k);
    PlacedAt(st', n, j, k);
  }
}
