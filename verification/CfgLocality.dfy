/** Splicing the lines of one option changes that option and shifts what follows. A step of the scanner
    touches the last section only, so reading commutes with putting sections in front and with
    shifting positions; that turns an edit in the middle of a document into the same edit of its
    index. */
module CfgLocality {
  import opened Text
  import opened CfgLine
  import opened CfgIndex

  function ShiftOpts(opts: seq<Opt>, d: int): (r: seq<Opt>)
    ensures |r| == |opts|
    ensures forall i :: 0 <= i < |opts| ==>
      r[i] == Opt(opts[i].key, opts[i].start + d, opts[i].end + d, opts[i].value)
  {
    seq(|opts|, i requires 0 <= i < |opts| =>
      Opt(opts[i].key, opts[i].start + d, opts[i].end + d, opts[i].value))
  }

  function ShiftSecs(secs: seq<Sec>, d: int): (r: seq<Sec>)
    ensures |r| == |secs|
    ensures forall i :: 0 <= i < |secs| ==>
      r[i] == Sec(secs[i].name, secs[i].header + d, secs[i].end + d, ShiftOpts(secs[i].opts, d))
  {
    seq(|secs|, i requires 0 <= i < |secs| =>
      Sec(secs[i].name, secs[i].header + d, secs[i].end + d, ShiftOpts(secs[i].opts, d)))
  }

  function Shift(st: Scan, d: int): Scan {
    Scan(ShiftSecs(st.secs, d), st.active)
  }

  /** Scanning the same line `d` lines further down gives the shifted state. */
  lemma StepShift(st: Scan, line: string, i: int, d: int)
    ensures Step(Shift(st, d), line, i + d) == Shift(Step(st, line, i), d)
  {
    if Classify(line).Header? {
      ShiftHeader(st, line, i, d);
    } else if st.secs != [] {
      hide Classify, StepSec, ShiftOpts, ShiftSecs, Step;
      var P, s := st.secs[..|st.secs| - 1], Last(st.secs);
      assert st.secs == P + [s];
      var (s1, a1) := StepSec(s, st.active, Classify(line), i);
      StepOn(P, s, st.active, line, i);
      ShiftSnoc(P, s, d);
      ShiftSnoc(P, s1, d);
      StepSecShift(s, st.active, Classify(line), i, d);
      StepOn(ShiftSecs(P, d), Sec(s.name, s.header + d, s.end + d, ShiftOpts(s.opts, d)), st.active, line, i + d);
    }
  }

  lemma ShiftHeader(st: Scan, line: string, i: int, d: int)
    requires Classify(line).Header?
    ensures Step(Shift(st, d), line, i + d) == Shift(Step(st, line, i), d)
  {
    hide Classify;
    ShiftSnoc(st.secs, Sec(Classify(line).name, i, i + 1, []), d);
    assert ShiftOpts([], d) == [];
  }

  lemma StepOn(P: seq<Sec>, s: Sec, active: bool, line: string, i: int)
    requires !Classify(line).Header?
    ensures var (s1, a1) := StepSec(s, active, Classify(line), i);
            Step(Scan(P + [s], active), line, i) == Scan(P + [s1], a1)
  {
    hide Classify, StepSec;
    assert (P + [s])[..|P|] == P;
  }

  lemma ShiftSnoc(a: seq<Sec>, s: Sec, d: int)
    ensures ShiftSecs(a + [s], d) == ShiftSecs(a, d) + [Sec(s.name, s.header + d, s.end + d, ShiftOpts(s.opts, d))]
  {
    hide ShiftOpts;
  }

  lemma StepSecShift(s: Sec, active: bool, l: Line, i: int, d: int)
    requires !l.Header?
    ensures var (s1, a1) := StepSec(s, active, l, i);
            StepSec(Sec(s.name, s.header + d, s.end + d, ShiftOpts(s.opts, d)), active, l, i + d)
            == (Sec(s1.name, s1.header + d, s1.end + d, ShiftOpts(s1.opts, d)), a1)
  {
    var (s1, a1) := StepSec(s, active, l, i);
    var (s2, a2) := StepSec(Sec(s.name, s.header + d, s.end + d, ShiftOpts(s.opts, d)), active, l, i + d);
    assert s2.opts == ShiftOpts(s1.opts, d);
  }

  /** `x` describes what was scanned after some point inside section `s`; the sections
      before `s` and the options `s` already had are put in front. */
  function Graft(P: seq<Sec>, s: Sec, x: Scan): Scan
    requires x.secs != []
  {
    Scan(P + [Sec(s.name, s.header, x.secs[0].end, s.opts + x.secs[0].opts)] + x.secs[1..], x.active)
  }

  ghost predicate Sound(x: Scan) {
    x.secs != [] && (x.active ==> Last(x.secs).opts != [])
  }

  /** Scanning goes on in the part after the graft point alone. */
  lemma StepGraft(P: seq<Sec>, s: Sec, x: Scan, line: string, i: int)
    requires Sound(x)
    ensures Sound(Step(x, line, i))
    ensures Step(Graft(P, s, x), line, i) == Graft(P, s, Step(x, line, i))
  {
    hide Classify;
    var g := Graft(P, s, x);
    var l := Classify(line);
    var y := Step(x, line, i);
    if l.Header? {
      assert y.secs[1..] == x.secs[1..] + [Sec(l.name, i, i + 1, [])];
    } else {
      var last := Last(g.secs);
      if |x.secs| == 1 {
        StepSecGraft(s, x.secs[0], x.active, l, i);
        assert y.secs[1..] == [] == x.secs[1..];
        assert g.secs == P + [last];
      } else {
        assert last == Last(x.secs);
        var m := |x.secs| - 1;
        assert y.secs == x.secs[..m] + [Last(y.secs)];
        assert x.secs[..m][0] == x.secs[0] && x.secs[..m][1..] == x.secs[1..][..m - 1];
        assert y.secs[0] == x.secs[0];
        assert y.secs[1..] == ReplaceLast(x.secs[1..], Last(y.secs));
      }
    }
    assert Step(g, line, i).secs == Graft(P, s, y).secs;
  }

  lemma StepSecGraft(s: Sec, t: Sec, active: bool, l: Line, i: int)
    requires !l.Header? && (active ==> t.opts != [])
    ensures var (t1, a1) := StepSec(t, active, l, i);
            && (a1 ==> t1.opts != [])
            && StepSec(Sec(s.name, s.header, t.end, s.opts + t.opts), active, l, i)
               == (Sec(s.name, s.header, t1.end, s.opts + t1.opts), a1)
  {
    var (t1, a1) := StepSec(t, active, l, i);
    var (g1, b1) := StepSec(Sec(s.name, s.header, t.end, s.opts + t.opts), active, l, i);
    assert g1.opts == s.opts + t1.opts;
  }

  /** A line that is no continuation line is read the same way whether or not an option is open. */
  lemma StepInactive(st: Scan, line: string, i: int)
    requires !IsContinuation(line)
    ensures Step(st, line, i) == Step(st.(active := false), line, i)
  {
    ContIsContinuation(line);
    hide Classify;
  }

  /** Two documents with the same lines from `e` and `e'` on, both inside a section there:
      what follows reads the same in both, `e' - e` lines apart. */
  lemma {:induction false} Tail(lines: seq<string>, lines': seq<string>, e: nat, e': nat,
                                P: seq<Sec>, s: Sec, s': Sec, n: nat) returns (x: Scan)
    requires e <= n <= |lines| && e' <= |lines'| && lines[e..] == lines'[e'..]
    requires ScanTo(lines, e).secs == P + [s] && ScanTo(lines', e').secs == P + [s']
    requires s.end == e && s'.end == e'
    requires e < |lines| ==> !IsContinuation(lines[e])
    ensures Sound(x)
    ensures n + (e' - e) <= |lines'|
    ensures ScanTo(lines, n).secs == Graft(P, s, x).secs
    ensures ScanTo(lines', n + (e' - e)).secs == Graft(P, s', Shift(x, e' - e)).secs
    ensures n > e ==> ScanTo(lines, n).active == ScanTo(lines', n + (e' - e)).active == x.active
    decreases n
  {
    hide Step, Classify;
    var d := e' - e;
    assert |lines| - e == |lines'| - e';
    if n == e {
      x := Scan([Sec("", 0, e, [])], false);
      assert s.opts + [] == s.opts && s'.opts + [] == s'.opts;
    } else {
      var y := Tail(lines, lines', e, e', P, s, s', n - 1);
      var line := lines[n - 1];
      assert line == lines[e..][n - 1 - e] == lines'[e'..][n - 1 - e] == lines'[n - 1 + d];
      var st, st' := ScanTo(lines, n - 1), ScanTo(lines', n - 1 + d);
      if n - 1 == e {
        y := y.(active := false);
        StepInactive(st, line, n - 1);
        StepInactive(st', line, n - 1 + d);
        assert st.(active := false) == Graft(P, s, y);
        assert st'.(active := false) == Graft(P, s', Shift(y, d));
      }
      x := Step(y, line, n - 1);
      StepGraft(P, s, y, line, n - 1);
      StepShift(y, line, n - 1, d);
      StepGraft(P, s', Shift(y, d), line, n - 1 + d);
    }
  }

  /** The lines of one option: its own line, then continuation lines. */
  predicate IsBlock(block: seq<string>) {
    && block != []
    && Classify(block[0]).Start?
    && forall i :: 0 < i < |block| ==> IsContinuation(block[i])
  }

  /** The value such lines are read as. */
  function BlockValue(block: seq<string>): string
    requires IsBlock(block)
  {
    if |block| == 1 then Classify(block[0]).value
    else
      var v, item := BlockValue(block[..|block| - 1]), ItemOf(block[|block| - 1]);
      if item == "" then v else v + "\n" + item
  }

  function ItemOf(line: string): string
    requires IsContinuation(line)
  {
    Classify(line).item
  }

  function OptOf(block: seq<string>, start: int): Opt
    requires IsBlock(block)
  {
    Opt(Classify(block[0]).key, start, start + |block|, BlockValue(block))
  }

  lemma StepStart(P: seq<Sec>, s: Sec, active: bool, line: string, i: int)
    requires Classify(line).Start?
    ensures Step(Scan(P + [s], active), line, i)
            == Scan(P + [s.(end := i + 1, opts := s.opts + [Opt(Classify(line).key, i, i + 1, Classify(line).value)])],
                         true)
  {
    hide Classify;
  }

  lemma StepCont(P: seq<Sec>, s: Sec, o: Opt, line: string, i: int)
    requires IsContinuation(line)
    ensures Step(Scan(P + [s.(opts := s.opts + [o])], true), line, i)
            == Scan(P + [s.(end := i + 1, opts := s.opts + [Extend(o, ItemOf(line), i + 1)])], true)
  {
    ContIsContinuation(line);
    hide Classify;
    var t := s.(opts := s.opts + [o]);
    assert ReplaceLast(t.opts, Extend(o, ItemOf(line), i + 1)) == s.opts + [Extend(o, ItemOf(line), i + 1)];
    assert (P + [t])[..|P|] == P;
  }

  /** Scanning the lines of one option adds exactly that option. */
  lemma {:induction false} BlockScan(lines: seq<string>, e: nat, block: seq<string>, P: seq<Sec>, s: Sec)
    requires IsBlock(block)
    requires e + |block| <= |lines| && lines[e..e + |block|] == block
    requires ScanTo(lines, e).secs == P + [s]
    ensures ScanTo(lines, e + |block|)
            == Scan(P + [s.(end := e + |block|, opts := s.opts + [OptOf(block, e)])], true)
    decreases |block|
  {
    hide Classify, Step;
    var m := |block| - 1;
    var line := block[m];
    assert line == lines[e..e + |block|][m] == lines[e + m];
    if m > 0 {
      var init := block[..m];
      assert lines[e..e + m] == lines[e..e + |block|][..m];
      BlockScan(lines, e, init, P, s);
      var o := OptOf(init, e);
      assert Extend(o, ItemOf(line), e + m + 1) == OptOf(block, e);
      StepCont(P, s.(end := e + m), o, line, e + m);
    } else {
      StepStart(P, s, ScanTo(lines, e).active, line, e);
    }
  }

  /** The index after splicing: option `k` and the `m - 1` behind it make way for `opts`. */
  function Spliced(secs: seq<Sec>, j: nat, k: nat, m: nat, opts: seq<Opt>, d: int): seq<Sec>
    requires j < |secs| && k + m <= |secs[j].opts|
  {
    var s := secs[j];
    secs[..j]
    + [Sec(s.name, s.header, s.end + d, s.opts[..k] + opts + ShiftOpts(s.opts[k + m..], d))]
    + ShiftSecs(secs[j + 1..], d)
  }

  function NewOpts(block: seq<string>, start: int): seq<Opt>
    requires block == [] || IsBlock(block)
  {
    if block == [] then [] else [OptOf(block, start)]
  }

  function SpliceLines(lines: seq<string>, e0: nat, e1: nat, block: seq<string>): seq<string>
    requires e0 <= e1 <= |lines|
  {
    lines[..e0] + block + lines[e1..]
  }

  lemma SplicedScan(lines: seq<string>, e0: nat, e1: nat, P: seq<Sec>, s0: Sec, block: seq<string>)
    requires e0 <= e1 <= |lines|
    requires ScanTo(lines, e0).secs == P + [s0] && s0.end == e0
    requires block == [] || IsBlock(block)
    ensures var lines' := SpliceLines(lines, e0, e1, block);
            && e0 + |block| <= |lines'| && lines'[e0 + |block|..] == lines[e1..]
            && ScanTo(lines', e0 + |block|).secs
               == P + [s0.(end := e0 + |block|, opts := s0.opts + NewOpts(block, e0))]
  {
    hide Step, Classify, BlockValue;
    var lines' := SpliceLines(lines, e0, e1, block);
    assert lines'[..e0] == lines[..e0];
    ScanPrefix(lines, lines', e0);
    if block != [] {
      assert lines'[e0..e0 + |block|] == block;
      BlockScan(lines', e0, block, P, s0);
    } else {
      assert s0.opts + [] == s0.opts;
    }
  }

  /** Locality: whatever option lines (or nothing) replace the span [e0, e1), the fresh
      index is the old one with that span exchanged and everything behind it shifted. */
  lemma {:induction false} SpliceLocality(lines: seq<string>, e0: nat, e1: nat, P: seq<Sec>, s0: Sec, prev: seq<Opt>,
                       block: seq<string>)
    requires e0 <= e1 <= |lines|
    requires ScanTo(lines, e0).secs == P + [s0] && s0.end == e0
    requires ScanTo(lines, e1).secs == P + [s0.(end := e1, opts := s0.opts + prev)]
    requires e1 < |lines| ==> !IsContinuation(lines[e1])
    requires block == [] || IsBlock(block)
    ensures |P| < |Parse(lines)| && |s0.opts| + |prev| <= |Parse(lines)[|P|].opts|
    ensures Parse(SpliceLines(lines, e0, e1, block))
            == Spliced(Parse(lines), |P|, |s0.opts|, |prev|, NewOpts(block, e0), e0 + |block| - e1)
  {
    hide Step, Classify, BlockValue, ScanTo, Graft, Spliced;
    var lines', e' := SpliceLines(lines, e0, e1, block), e0 + |block|;
    SplicedScan(lines, e0, e1, P, s0, block);
    var neu := NewOpts(block, e0);
    var s1, s' := s0.(end := e1, opts := s0.opts + prev), s0.(end := e', opts := s0.opts + neu);
    var x := Tail(lines, lines', e1, e', P, s1, s', |lines|);
    SplicedGraft(P, s0, prev, neu, x, e1, e', e' - e1);
  }

  lemma SplicedGraft(P: seq<Sec>, s0: Sec, prev: seq<Opt>, neu: seq<Opt>, x: Scan, e1: int, e': int, d: int)
    requires x.secs != []
    ensures var secs := Graft(P, s0.(end := e1, opts := s0.opts + prev), x).secs;
            && |P| < |secs| && |s0.opts| + |prev| <= |secs[|P|].opts|
            && Graft(P, s0.(end := e', opts := s0.opts + neu), Shift(x, d)).secs
               == Spliced(secs, |P|, |s0.opts|, |prev|, neu, d)
  {
    var secs := Graft(P, s0.(end := e1, opts := s0.opts + prev), x).secs;
    var j, k := |P|, |s0.opts|;
    assert secs[..j] == P;
    assert secs[j + 1..] == x.secs[1..];
    assert ShiftSecs(x.secs, d)[1..] == ShiftSecs(x.secs[1..], d);
    assert secs[j].opts == s0.opts + prev + x.secs[0].opts;
    assert secs[j].opts[..k] == s0.opts;
    assert secs[j].opts[k + |prev|..] == x.secs[0].opts;
  }
}
