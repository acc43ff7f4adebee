/** What an edit does to every other line of the file. First line by line: for each edit of `CfgEdit`, which lines
    make way for which, that those before them keep their place, and that those behind them all move by as many. Then
    for the whole document: the lines that belong to no option of some keys, and to no section of some names, are the
    same lines in the same order before and after an edit of one of them. A key that was removed is taken off the
    list, so that a second option of that key, or a second section of that name, is a line like any other. At the end
    this is put into an explicit map from the old lines to the new ones. Nothing here speaks of values: those are the
    business of `CfgTable` and `CfgLaws`. */
module CfgKeep {
  import opened Text
  import opened CfgLine
  import opened CfgIndex
  import opened CfgLocality
  import opened CfgRender
  import opened CfgEdit

  // ---- line by line ----

  /** The lines from `from` to `to` made way for `block`: what stands before keeps its place, what stands
      behind moves, and nothing else changes. */
  ghost predicate Exchanged(lines: seq<string>, lines': seq<string>, from: int, to: int, block: seq<string>) {
    && 0 <= from <= to <= |lines| && |lines'| == |lines| - (to - from) + |block|
    && (forall i :: 0 <= i < from ==> lines'[i] == lines[i])
    && (forall i :: 0 <= i < |block| ==> lines'[from + i] == block[i])
    && (forall i :: to <= i < |lines| ==> lines'[i - (to - from) + |block|] == lines[i])
  }

  /** The option that is read for the key is gone, from its key line to its last continuation, and nothing else is. */
  ghost predicate OptionTaken(lines: seq<string>, lines': seq<string>, name: string, key: string) {
    var secs, j := Parse(lines), FindSec(Parse(lines), name);
    if j == |secs| || FindOpt(secs[j].opts, key) == |secs[j].opts| then lines' == lines
    else
      var o := secs[j].opts[FindOpt(secs[j].opts, key)];
      o.start < o.end && Exchanged(lines, lines', o.start, o.end, [])
  }

  /** The section of that name is gone, from its header up to the next one. */
  ghost predicate SectionTaken(lines: seq<string>, lines': seq<string>, name: string) {
    var secs, j := Parse(lines), FindSec(Parse(lines), name);
    if j == |secs| then lines' == lines
    else secs[j].header < secs[j].end && Exchanged(lines, lines', secs[j].header, secs[j].end, [])
  }

  lemma RemoveOptionExactly(lines: seq<string>, name: string, key: string)
    ensures OptionTaken(lines, RemoveOptionLines(lines, name, key), name, key)
  {
    Spans(lines);
    hide Parse;
  }

  lemma RemoveSectionExactly(lines: seq<string>, name: string)
    ensures SectionTaken(lines, RemoveSectionLines(lines, name), name)
  {
    RemoveSectionLocality(lines, name);
    hide Parse, RemoveSectionLines;
  }

  /** A new section is its header, behind a blank line unless there is one already, or nothing. */
  lemma {:induction false} AddSectionExactly(lines: seq<string>, name: string)
    ensures var blank := if lines != [] && !IsBlank(lines[|lines| - 1]) then [""] else [];
            if FindSec(Parse(lines), name) < |Parse(lines)| then AddSectionLines(lines, name) == lines
            else Exchanged(lines, AddSectionLines(lines, name), |lines|, |lines|, blank + ["[" + name + "]"])
  {
    hide Parse;
  }

  lemma SpliceExactly(lines: seq<string>, from: int, to: int, block: seq<string>)
    requires 0 <= from <= to <= |lines|
    ensures Exchanged(lines, SpliceLines(lines, from, to, block), from, to, block)
  {
  }

  /** Setting an option that is there exchanges its lines for what is printed. */
  lemma {:induction false} SetExactly(lines: seq<string>, j: nat, key: string, value: Value)
    requires j < |Parse(lines)| && FindOpt(Parse(lines)[j].opts, key) < |Parse(lines)[j].opts|
    ensures var o := Parse(lines)[j].opts[FindOpt(Parse(lines)[j].opts, key)];
            && 0 <= o.start < o.end <= |lines|
            && Exchanged(lines, SetIn(lines, j, key, value), o.start, o.end, Render(key, value, lines[o.start..o.end]))
  {
    Spans(lines);
    var opts := Parse(lines)[j].opts;
    var o := opts[FindOpt(opts, key)];
    hide Parse, Render, Exchanged, SpliceLines;
    SpliceExactly(lines, o.start, o.end, Render(key, value, lines[o.start..o.end]));
  }

  /** A new option goes behind the last line of its section that is not blank. */
  lemma InsertExactly(lines: seq<string>, j: nat, key: string, value: Value) returns (at: nat)
    requires j < |Parse(lines)| && FindOpt(Parse(lines)[j].opts, key) == |Parse(lines)[j].opts|
    ensures var s := Parse(lines)[j];
            && 0 <= s.header < at <= s.end <= |lines|
            && (forall i :: at <= i < s.end ==> IsBlank(lines[i]))
            && (at == s.header + 1 || !IsBlank(lines[at - 1]))
            && Exchanged(lines, SetIn(lines, j, key, value), at, at, Render(key, value, []))
  {
    Spans(lines);
    var s := Parse(lines)[j];
    hide Parse, Render, Exchanged, SpliceLines, IsBlank;
    at := InsertAt(lines, s.header, s.end);
    SpliceExactly(lines, at, at, Render(key, value, []));
  }

  // ---- the lines that stay ----

  /** The lines that are not out, in order. */
  ghost function Keep(lines: seq<string>, out: int -> bool): seq<string> {
    if lines == [] then []
    else
      var n := |lines| - 1;
      Keep(lines[..n], out) + (if out(n) then [] else [lines[n]])
  }

  lemma {:induction false} KeepSame(lines: seq<string>, out: int -> bool, out': int -> bool)
    requires forall i :: 0 <= i < |lines| ==> out'(i) == out(i)
    ensures Keep(lines, out') == Keep(lines, out)
    decreases |lines|
  {
    if lines != [] {
      KeepSame(lines[..|lines| - 1], out, out');
    }
  }

  lemma {:induction false} KeepConcat(a: seq<string>, b: seq<string>, out: int -> bool)
    ensures Keep(a + b, out) == Keep(a, out) + Keep(b, i => out(i + |a|))
    decreases |b|
  {
    if b == [] {
      assert a + b == a;
    } else {
      var n := |b| - 1;
      assert (a + b)[..|a| + n] == a + b[..n];
      KeepConcat(a, b[..n], out);
    }
  }

  lemma {:induction false} KeepNone(lines: seq<string>, out: int -> bool)
    requires forall i :: 0 <= i < |lines| ==> out(i)
    ensures Keep(lines, out) == []
    decreases |lines|
  {
    if lines != [] {
      KeepNone(lines[..|lines| - 1], out);
    }
  }

  lemma {:induction false} KeepAll(lines: seq<string>, out: int -> bool)
    requires forall i :: 0 <= i < |lines| ==> !out(i)
    ensures Keep(lines, out) == lines
    decreases |lines|
  {
    if lines != [] {
      KeepAll(lines[..|lines| - 1], out);
    }
  }

  lemma Parts(lines: seq<string>, lines': seq<string>, from: int, to: int, block: seq<string>)
    requires Exchanged(lines, lines', from, to, block)
    ensures lines == lines[..from] + lines[from..to] + lines[to..]
    ensures lines' == lines[..from] + block + lines[to..]
  {
    var all := lines[..from] + block + lines[to..];
    assert |all| == |lines'|;
    forall i | 0 <= i < |all| ensures all[i] == lines'[i] {
      if i >= from + |block| {
        var k := i - |block| + (to - from);
        assert lines[k] == lines'[k - (to - from) + |block|];
      } else if i >= from {
        assert block[i - from] == lines'[from + (i - from)];
      } else {
        assert lines[i] == lines'[i];
      }
    }
  }

  /** Lines that are out, exchanged for lines that are out. */
  lemma {:induction false} KeepExchanged(
      lines: seq<string>, lines': seq<string>, from: int, to: int, block: seq<string>,
      out: int -> bool, out': int -> bool)
    requires Exchanged(lines, lines', from, to, block)
    requires forall i :: from <= i < to ==> out(i)
    requires forall i :: from <= i < from + |block| ==> out'(i)
    requires forall i :: 0 <= i < from ==> out'(i) == out(i)
    requires forall i :: to <= i < |lines| ==> out'(i + (from + |block| - to)) == out(i)
    ensures Keep(lines', out') == Keep(lines, out)
  {
    hide Keep;
    var a, m, c := lines[..from], lines[from..to], lines[to..];
    Parts(lines, lines', from, to, block);
    hide Exchanged;
    KeepConcat(a + m, c, out);
    KeepConcat(a, m, out);
    KeepConcat(a + block, c, out');
    KeepConcat(a, block, out');
    KeepNone(m, i => out(i + |a|));
    KeepNone(block, i => out'(i + |a|));
    KeepSame(a, out, out');
    KeepSame(c, i => out(i + |a + m|), i => out'(i + |a + block|));
    assert Keep(a, out) + [] == Keep(a, out);
  }

  /** Where the lines that are kept stand. */
  ghost predicate Places(lines: seq<string>, out: int -> bool, p: seq<int>) {
    && |p| == |Keep(lines, out)|
    && (forall r :: 0 <= r < |p| ==> 0 <= p[r] < |lines| && !out(p[r]) && lines[p[r]] == Keep(lines, out)[r])
    && (forall r, q :: 0 <= r < q < |p| ==> p[r] < p[q])
    && (forall i :: 0 <= i < |lines| && !out(i) ==> i in p)
  }

  lemma {:induction false} PlacesOf(lines: seq<string>, out: int -> bool) returns (p: seq<int>)
    ensures Places(lines, out, p)
    decreases |lines|
  {
    if lines == [] {
      p := [];
    } else {
      var n := |lines| - 1;
      var q := PlacesOf(lines[..n], out);
      p := q + if out(n) then [] else [n];
      var kept := Keep(lines[..n], out);
      assert Keep(lines, out) == kept + if out(n) then [] else [lines[n]];
      forall i | 0 <= i < |lines| && !out(i) ensures i in p {
        assert i < n ==> i in q;
        assert i == n ==> p[|q|] == n;
      }
      hide Keep;
    }
  }

  /** Every line of `a` that is not out went to a line of `b` that is not out, in order; behind those only the lines
      of `added` are new, in order too. */
  ghost predicate Went(a: seq<string>, out: int -> bool, b: seq<string>, out': int -> bool, added: seq<string>,
                       to: seq<int>) {
    && |to| == |a|
    && (forall i :: 0 <= i < |a| && !out(i) ==> 0 <= to[i] < |b| && b[to[i]] == a[i] && !out'(to[i]))
    && (forall i, k :: 0 <= i < k < |a| && !out(i) && !out(k) ==> to[i] < to[k])
    && (forall l :: 0 <= l < |b| && !out'(l) && b[l] !in added ==> exists i :: 0 <= i < |a| && !out(i) && to[i] == l)
  }

  ghost function RankOf(p: seq<int>, i: int): (r: nat)
    requires i in p
    ensures r < |p| && p[r] == i
  {
    var r: nat :| r < |p| && p[r] == i;
    r
  }

  ghost predicate Paired(a: seq<string>, out: int -> bool, b: seq<string>, out': int -> bool, added: seq<string>,
                         p: seq<int>, q: seq<int>, to: seq<int>) {
    && Places(a, out, p) && Places(b, out', q) && Keep(b, out') == Keep(a, out) + added && |to| == |a|
    && forall i :: 0 <= i < |a| && !out(i) ==> i in p && RankOf(p, i) < |q| && to[i] == q[RankOf(p, i)]
  }

  lemma WentLines(a: seq<string>, out: int -> bool, b: seq<string>, out': int -> bool, added: seq<string>,
                  p: seq<int>, q: seq<int>, to: seq<int>)
    requires Paired(a, out, b, out', added, p, q, to)
    ensures forall i :: 0 <= i < |a| && !out(i) ==> 0 <= to[i] < |b| && b[to[i]] == a[i] && !out'(to[i])
    ensures forall i, k :: 0 <= i < k < |a| && !out(i) && !out(k) ==> to[i] < to[k]
  {
    hide Keep, RankOf;
    forall i | 0 <= i < |a| && !out(i) ensures 0 <= to[i] < |b| && b[to[i]] == a[i] && !out'(to[i]) {
      var r := RankOf(p, i);
      assert Keep(b, out')[r] == Keep(a, out)[r];
    }
    forall i, k | 0 <= i < k < |a| && !out(i) && !out(k) ensures to[i] < to[k] {
      var r, t := RankOf(p, i), RankOf(p, k);
      assert r < t;
    }
  }

  lemma WentAll(a: seq<string>, out: int -> bool, b: seq<string>, out': int -> bool, added: seq<string>,
                p: seq<int>, q: seq<int>, to: seq<int>)
    requires Paired(a, out, b, out', added, p, q, to)
    ensures forall l :: 0 <= l < |b| && !out'(l) && b[l] !in added ==> exists i :: 0 <= i < |a| && !out(i) && to[i] == l
  {
    hide Keep, RankOf;
    forall l | 0 <= l < |b| && !out'(l) && b[l] !in added
      ensures exists i :: 0 <= i < |a| && !out(i) && to[i] == l
    {
      assert l in q;
      var r := RankOf(q, l);
      assert b[l] == (Keep(a, out) + added)[r];
      assert RankOf(p, p[r]) == r;
      assert to[p[r]] == l;
    }
  }

  lemma {:induction false} KeptWent(a: seq<string>, out: int -> bool, b: seq<string>, out': int -> bool,
                                    added: seq<string>) returns (to: seq<int>)
    requires Keep(b, out') == Keep(a, out) + added
    ensures Went(a, out, b, out', added, to)
  {
    var p := PlacesOf(a, out);
    var q := PlacesOf(b, out');
    to := seq(|a|, i => if i in p then (if RankOf(p, i) < |q| then q[RankOf(p, i)] else 0) else 0);
    hide Keep;
    forall i | 0 <= i < |a| && !out(i) ensures i in p && RankOf(p, i) < |q| && to[i] == q[RankOf(p, i)] {
      assert i in p;
    }
    WentLines(a, out, b, out', added, p, q, to);
    WentAll(a, out, b, out', added, p, q, to);
  }

  // ---- which lines an edit owns ----

  ghost predicate FirstSec(secs: seq<Sec>, j: int)
    requires 0 <= j < |secs|
  {
    forall i :: 0 <= i < j ==> secs[i].name != secs[j].name
  }

  /** The option that is read for its key: the first of that key in the first section of that name. */
  ghost predicate First(secs: seq<Sec>, j: nat, k: nat)
    requires j < |secs| && k < |secs[j].opts|
  {
    FirstSec(secs, j) && forall i :: 0 <= i < k ==> secs[j].opts[i].key != secs[j].opts[k].key
  }

  type Keys = set<(string, string)>

  ghost predicate Covers(secs: seq<Sec>, keys: Keys, j: nat, k: nat, i: int) {
    && j < |secs| && k < |secs[j].opts| && First(secs, j, k)
    && (secs[j].name, secs[j].opts[k].key) in keys
    && secs[j].opts[k].start <= i < secs[j].opts[k].end
  }

  /** Line `i` belongs to an option that is read for one of the keys. */
  ghost predicate Edited(secs: seq<Sec>, keys: Keys, i: int) {
    exists j: nat, k: nat :: Covers(secs, keys, j, k, i)
  }

  // ---- order of the index ----

  ghost predicate Ordered(secs: seq<Sec>) {
    && (forall j, l :: 0 <= j < l < |secs| ==> secs[j].end <= secs[l].header)
    && (forall j, k :: 0 <= j < |secs| && 0 <= k < |secs[j].opts| ==>
          secs[j].header < secs[j].opts[k].start < secs[j].opts[k].end <= secs[j].end)
    && (forall j, k, l :: 0 <= j < |secs| && 0 <= k < l < |secs[j].opts| ==>
          secs[j].opts[k].end <= secs[j].opts[l].start)
  }

  lemma HeaderFollows(lines: seq<string>, j: nat)
    requires j + 1 < |Parse(lines)|
    ensures Parse(lines)[j].end == Parse(lines)[j + 1].header
  {
    SectionHistory(lines, |lines|, j);
    hide ScanTo, Classify;
  }

  lemma {:induction false} SectionsOrdered(lines: seq<string>, j: nat, l: nat)
    requires j < l < |Parse(lines)|
    ensures Parse(lines)[j].end <= Parse(lines)[l].header
    decreases l
  {
    HeaderFollows(lines, l - 1);
    if j < l - 1 {
      Spans(lines);
      hide Parse;
      SectionsOrdered(lines, j, l - 1);
    }
  }

  lemma OptionsOrdered(lines: seq<string>, j: nat, k: nat, l: nat)
    requires j < |Parse(lines)| && k < l < |Parse(lines)[j].opts|
    ensures Parse(lines)[j].opts[k].end <= Parse(lines)[j].opts[l].start
  {
    var secs := Parse(lines);
    var s, o := secs[j], secs[j].opts[l];
    OptionHistory(lines, |lines|, j, l);
    ScanPlaced(lines, o.start);
    var st := ScanTo(lines, o.start);
    hide ScanTo, Classify, IsContinuation;
    assert st.secs[j].opts[k] == s.opts[..l][k];
  }

  lemma {:induction false} IndexOrdered(lines: seq<string>)
    ensures Ordered(Parse(lines))
  {
    Spans(lines);
    var secs := Parse(lines);
    forall j, l | 0 <= j < l < |secs| ensures secs[j].end <= secs[l].header {
      SectionsOrdered(lines, j, l);
    }
    forall j, k, l | 0 <= j < |secs| && 0 <= k < l < |secs[j].opts|
      ensures secs[j].opts[k].end <= secs[j].opts[l].start
    {
      OptionsOrdered(lines, j, k, l);
    }
  }

  // ---- options exchanged, taken out and added ----

  /** How many options were at `k`, what there is now, and which keys still count. */
  ghost predicate Change(secs: seq<Sec>, j: nat, k: nat, m: nat, opts: seq<Opt>, keys: Keys, keys': Keys)
    requires j < |secs| && k + m <= |secs[j].opts|
  {
    || (m == 1 && |opts| == 1 && opts[0].key == secs[j].opts[k].key && keys' == keys)
    || (m == 1 && opts == [] && First(secs, j, k) && keys' == keys - {(secs[j].name, secs[j].opts[k].key)})
    || (m == 0 && |opts| == 1 && k == |secs[j].opts| && keys' == keys
        && forall i :: 0 <= i < k ==> secs[j].opts[i].key != opts[0].key)
  }

  function Moved(k: nat, at: nat, m: nat, size: nat): nat
    requires k < at || k >= at + m
  {
    if k < at then k else k - m + size
  }

  /** Where an option that is not exchanged has gone. */
  lemma SplicedAt(secs: seq<Sec>, j: nat, k: nat, m: nat, opts: seq<Opt>, d: int, a: nat, b: nat)
    requires j < |secs| && k + m <= |secs[j].opts| && a < |secs| && b < |secs[a].opts|
    requires a == j ==> b < k || b >= k + m
    ensures var secs', b' := Spliced(secs, j, k, m, opts, d), if a == j then Moved(b, k, m, |opts|) else b;
            var shift := if a < j || (a == j && b < k) then 0 else d;
            && |secs'| == |secs| && secs'[a].name == secs[a].name && b' < |secs'[a].opts|
            && secs'[a].opts[b'].key == secs[a].opts[b].key
            && secs'[a].opts[b'].start == secs[a].opts[b].start + shift
            && secs'[a].opts[b'].end == secs[a].opts[b].end + shift
  {
  }

  lemma SplicedSecs(secs: seq<Sec>, j: nat, k: nat, m: nat, opts: seq<Opt>, d: int)
    requires j < |secs| && k + m <= |secs[j].opts|
    ensures var secs' := Spliced(secs, j, k, m, opts, d);
            && |secs'| == |secs| && (forall i :: 0 <= i < |secs| ==> secs'[i].name == secs[i].name)
            && secs'[j].opts == secs[j].opts[..k] + opts + ShiftOpts(secs[j].opts[k + m..], d)
            && (forall i :: 0 <= i < j ==> secs'[i].opts == secs[i].opts)
            && (forall i :: j < i < |secs| ==> secs'[i].opts == ShiftOpts(secs[i].opts, d))
  {
    hide ShiftOpts;
  }

  /** The keys of the options of one section, with those exchanged. */
  lemma SplicedKeys(was: seq<Opt>, k: nat, m: nat, opts: seq<Opt>, d: int)
    requires k + m <= |was|
    ensures var neu := was[..k] + opts + ShiftOpts(was[k + m..], d);
            && |neu| == |was| - m + |opts|
            && (forall i :: k <= i < k + |opts| ==> neu[i] == opts[i - k])
            && (forall b :: 0 <= b < k ==> neu[b].key == was[b].key)
            && (forall b :: k + m <= b < |was| ==> neu[b - m + |opts|].key == was[b].key)
  {
  }

  lemma SplicedNames(secs: seq<Sec>, j: nat, k: nat, m: nat, opts: seq<Opt>, d: int)
    requires j < |secs| && k + m <= |secs[j].opts|
    ensures var secs' := Spliced(secs, j, k, m, opts, d);
            && |secs'| == |secs| && (forall i :: 0 <= i < |secs| ==> secs'[i].name == secs[i].name)
            && |secs'[j].opts| == |secs[j].opts| - m + |opts|
            && (forall i :: k <= i < k + |opts| ==> secs'[j].opts[i] == opts[i - k])
            && (forall i :: 0 <= i < |secs| && i != j ==> |secs'[i].opts| == |secs[i].opts|)
            && (forall i, b :: 0 <= i < |secs| && i != j && 0 <= b < |secs[i].opts| ==>
                  secs'[i].opts[b].key == secs[i].opts[b].key)
            && (forall b :: 0 <= b < k ==> secs'[j].opts[b].key == secs[j].opts[b].key)
            && (forall b :: k + m <= b < |secs[j].opts| ==> secs'[j].opts[b - m + |opts|].key == secs[j].opts[b].key)
  {
    SplicedSecs(secs, j, k, m, opts, d);
    SplicedKeys(secs[j].opts, k, m, opts, d);
    hide Spliced, ShiftOpts;
  }

  lemma FirstSecSame(secs: seq<Sec>, secs': seq<Sec>, a: nat)
    requires |secs'| == |secs| && a < |secs| && forall i :: 0 <= i < |secs| ==> secs'[i].name == secs[i].name
    ensures FirstSec(secs', a) == FirstSec(secs, a)
  {
    assert FirstSec(secs', a) ==> forall i :: 0 <= i < a ==> secs'[i].name == secs[i].name;
  }

  /** It is read for its key as before, unless it is the next of the key that was taken out. */
  lemma FirstMoves(secs: seq<Sec>, j: nat, k: nat, m: nat, opts: seq<Opt>, d: int, keys: Keys, keys': Keys,
                   a: nat, b: nat)
    requires j < |secs| && k + m <= |secs[j].opts| && Change(secs, j, k, m, opts, keys, keys')
    requires a < |secs| && b < |secs[a].opts| && (a == j ==> b < k || b >= k + m)
    ensures var secs', b' := Spliced(secs, j, k, m, opts, d), if a == j then Moved(b, k, m, |opts|) else b;
            && a < |secs'| && b' < |secs'[a].opts|
            && (First(secs, a, b) ==> First(secs', a, b'))
            && (First(secs', a, b') && (secs'[a].name, secs'[a].opts[b'].key) in keys' ==> First(secs, a, b))
  {
    hide Spliced;
    SplicedNames(secs, j, k, m, opts, d);
    SplicedAt(secs, j, k, m, opts, d, a, b);
    var secs', b' := Spliced(secs, j, k, m, opts, d), if a == j then Moved(b, k, m, |opts|) else b;
    FirstSecSame(secs, secs', a);
    hide FirstSec;
    if First(secs, a, b) {
      forall i | 0 <= i < b' ensures secs'[a].opts[i].key != secs'[a].opts[b'].key {
        if a == j && i >= k + |opts| {
          assert secs'[j].opts[i].key == secs[j].opts[i + m - |opts|].key;
        }
      }
    }
    if First(secs', a, b') && (secs'[a].name, secs'[a].opts[b'].key) in keys' {
      forall i | 0 <= i < b ensures secs[a].opts[i].key != secs[a].opts[b].key {
        if a == j && i >= k + m {
          assert secs'[j].opts[i - m + |opts|].key == secs[j].opts[i].key;
        } else if a == j && i >= k && opts != [] {
          assert secs'[j].opts[k] == opts[0];
        }
      }
    }
  }

  /** The span that is exchanged keeps off all other options. */
  ghost predicate Clear(secs: seq<Sec>, j: nat, k: nat, m: nat, from: int, to: int) {
    forall a, b :: 0 <= a < |secs| && 0 <= b < |secs[a].opts| && !(a == j && k <= b < k + m) ==>
      if a < j || (a == j && b < k) then secs[a].opts[b].end <= from else to <= secs[a].opts[b].start
  }

  lemma KeyStays(secs: seq<Sec>, j: nat, k: nat, m: nat, opts: seq<Opt>, keys: Keys, keys': Keys, a: nat, b: nat)
    requires j < |secs| && k + m <= |secs[j].opts| && Change(secs, j, k, m, opts, keys, keys')
    requires a < |secs| && b < |secs[a].opts| && (a == j ==> b < k || b >= k + m)
    requires First(secs, a, b) && (secs[a].name, secs[a].opts[b].key) in keys
    ensures (secs[a].name, secs[a].opts[b].key) in keys'
  {
    if secs[a].name == secs[j].name {
      assert a < j ==> secs[a].name != secs[j].name || !(m == 1 && opts == []);
    }
  }

  lemma {:induction false} CoversMoves(
      secs: seq<Sec>, j: nat, k: nat, m: nat, opts: seq<Opt>, d: int, keys: Keys, keys': Keys,
      from: int, to: int, a: nat, b: nat, i: int)
    requires j < |secs| && k + m <= |secs[j].opts| && Change(secs, j, k, m, opts, keys, keys')
    requires a < |secs| && b < |secs[a].opts| && (a == j ==> b < k || b >= k + m)
    requires Clear(secs, j, k, m, from, to) && from <= to && (i < from || i >= to) && from <= to + d
    ensures Covers(secs, keys, a, b, i)
            <==> Covers(Spliced(secs, j, k, m, opts, d), keys', a, if a == j then Moved(b, k, m, |opts|) else b,
                        if i < from then i else i + d)
  {
    SplicedAt(secs, j, k, m, opts, d, a, b);
    FirstMoves(secs, j, k, m, opts, d, keys, keys', a, b);
    hide Spliced, First;
    if Covers(secs, keys, a, b, i) {
      KeyStays(secs, j, k, m, opts, keys, keys', a, b);
    }
  }

  lemma EditedBy(secs: seq<Sec>, keys: Keys, i: int) returns (a: nat, b: nat)
    requires Edited(secs, keys, i)
    ensures Covers(secs, keys, a, b, i)
  {
    a, b :| Covers(secs, keys, a, b, i);
  }

  lemma EditedIf(secs: seq<Sec>, keys: Keys, a: nat, b: nat, i: int)
    requires Covers(secs, keys, a, b, i)
    ensures Edited(secs, keys, i)
  {
  }

  lemma OldNotExchanged(secs: seq<Sec>, keys: Keys, j: nat, k: nat, m: nat, from: int, to: int, a: nat, b: nat, i: int)
    requires Covers(secs, keys, a, b, i) && (i < from || i >= to)
    requires j < |secs| && k + m <= |secs[j].opts| && m <= 1
    requires m == 1 ==> secs[j].opts[k].start == from && secs[j].opts[k].end == to
    ensures a < |secs| && b < |secs[a].opts| && (a == j ==> b < k || b >= k + m)
  {
  }

  lemma NewNotExchanged(secs: seq<Sec>, j: nat, k: nat, m: nat, opts: seq<Opt>, d: int, keys': Keys, from: int, to: int,
                        a: nat, b': nat, i': int) returns (b: nat)
    requires j < |secs| && k + m <= |secs[j].opts| && from <= to + d
    requires Covers(Spliced(secs, j, k, m, opts, d), keys', a, b', i') && (i' < from || i' >= to + d)
    requires forall o :: o in opts ==> o.start == from && o.end == to + d
    ensures a < |secs| && b < |secs[a].opts| && (a == j ==> b < k || b >= k + m)
    ensures b' == if a == j then Moved(b, k, m, |opts|) else b
  {
    SplicedNames(secs, j, k, m, opts, d);
    hide Spliced, First;
    b := if a == j && b' >= k then b' - |opts| + m else b';
  }

  /** Outside the exchanged span the same lines are owned. */
  lemma {:induction false} EditedMoves(
      secs: seq<Sec>, j: nat, k: nat, m: nat, opts: seq<Opt>, d: int, keys: Keys, keys': Keys,
      from: int, to: int, i: int)
    requires j < |secs| && k + m <= |secs[j].opts| && m <= 1 && Change(secs, j, k, m, opts, keys, keys')
    requires Clear(secs, j, k, m, from, to) && from <= to && (i < from || i >= to) && from <= to + d
    requires forall o :: o in opts ==> o.start == from && o.end == to + d
    requires m == 1 ==> secs[j].opts[k].start == from && secs[j].opts[k].end == to
    ensures Edited(secs, keys, i)
            <==> Edited(Spliced(secs, j, k, m, opts, d), keys', if i < from then i else i + d)
  {
    var secs', i' := Spliced(secs, j, k, m, opts, d), if i < from then i else i + d;
    hide *;
    if Edited(secs, keys, i) {
      var a: nat, b: nat := EditedBy(secs, keys, i);
      OldNotExchanged(secs, keys, j, k, m, from, to, a, b, i);
      CoversMoves(secs, j, k, m, opts, d, keys, keys', from, to, a, b, i);
      EditedIf(secs', keys', a, if a == j then Moved(b, k, m, |opts|) else b, i');
    }
    if Edited(secs', keys', i') {
      var a: nat, b': nat := EditedBy(secs', keys', i');
      var b := NewNotExchanged(secs, j, k, m, opts, d, keys', from, to, a, b', i');
      CoversMoves(secs, j, k, m, opts, d, keys, keys', from, to, a, b, i);
      EditedIf(secs, keys, a, b, i);
    }
  }

  // ---- each edit keeps the lines it does not own ----

  ghost predicate InDropped(secs: seq<Sec>, names: set<string>, j: int, i: int)
    requires 0 <= j < |secs|
  {
    secs[j].name in names && FirstSec(secs, j) && secs[j].header <= i < secs[j].end
  }

  /** Line `i` belongs to a section that would be removed: the first of one of the names. */
  ghost predicate Dropped(secs: seq<Sec>, names: set<string>, i: int) {
    exists j :: 0 <= j < |secs| && InDropped(secs, names, j, i)
  }

  ghost predicate Owned(secs: seq<Sec>, keys: Keys, names: set<string>, i: int) {
    Edited(secs, keys, i) || Dropped(secs, names, i)
  }

  /** The lines of a document that are in no option of these keys and in no section of these names. */
  ghost function Unowned(lines: seq<string>, keys: Keys, names: set<string>): seq<string> {
    Keep(lines, i => Owned(Parse(lines), keys, names, i))
  }

  /** The lines from `from` to `to`, and to `to'` in what came of them, are owned; all others are where they were. */
  ghost predicate Alike(secs: seq<Sec>, secs': seq<Sec>, keys: Keys, keys': Keys,
                        names: set<string>, names': set<string>, from: int, to: int, to': int, n: int) {
    && (forall i :: from <= i < to ==> Owned(secs, keys, names, i))
    && (forall i :: from <= i < to' ==> Owned(secs', keys', names', i))
    && (forall i :: 0 <= i < from ==> Owned(secs', keys', names', i) == Owned(secs, keys, names, i))
    && (forall i :: to <= i < n ==> Owned(secs', keys', names', i + (to' - to)) == Owned(secs, keys, names, i))
  }

  lemma UnownedExchanged(lines: seq<string>, lines': seq<string>, from: int, to: int, block: seq<string>,
                      keys: Keys, keys': Keys, names: set<string>, names': set<string>)
    requires Exchanged(lines, lines', from, to, block)
    requires Alike(Parse(lines), Parse(lines'), keys, keys', names, names', from, to, from + |block|, |lines|)
    ensures Unowned(lines', keys', names') == Unowned(lines, keys, names)
  {
    hide Owned, Parse, Exchanged, Keep;
    KeepExchanged(lines, lines', from, to, block, i => Owned(Parse(lines), keys, names, i),
                  i => Owned(Parse(lines'), keys', names', i));
  }

  lemma OwnedByEdits(secs: seq<Sec>, keys: Keys, i: int)
    ensures Owned(secs, keys, {}, i) <==> Edited(secs, keys, i)
  {
  }

  /** Option `k` of section `j`, or the place behind the last one, makes way for `opts`, and nothing else is touched. */
  ghost predicate Swapped(secs: seq<Sec>, secs': seq<Sec>, j: nat, k: nat, m: nat, opts: seq<Opt>,
                          keys: Keys, keys': Keys, from: int, to: int, d: int) {
    && j < |secs| && k + m <= |secs[j].opts| && m <= 1 && secs' == Spliced(secs, j, k, m, opts, d)
    && Change(secs, j, k, m, opts, keys, keys') && Clear(secs, j, k, m, from, to) && from <= to && from <= to + d
    && (forall o :: o in opts ==> o.start == from && o.end == to + d)
    && (m == 1 ==> secs[j].opts[k].start == from && secs[j].opts[k].end == to)
    && (forall i :: from <= i < to ==> Covers(secs, keys, j, k, i))
    && (forall i :: from <= i < to + d ==> Covers(secs', keys', j, k, i))
  }

  lemma CoveredIsOwned(secs: seq<Sec>, keys: Keys, j: nat, k: nat, i: int)
    requires Covers(secs, keys, j, k, i)
    ensures Owned(secs, keys, {}, i)
  {
    EditedIf(secs, keys, j, k, i);
  }

  lemma OwnedMoves(
      secs: seq<Sec>, j: nat, k: nat, m: nat, opts: seq<Opt>, d: int, keys: Keys, keys': Keys,
      from: int, to: int, i: int)
    requires j < |secs| && k + m <= |secs[j].opts| && m <= 1 && Change(secs, j, k, m, opts, keys, keys')
    requires Clear(secs, j, k, m, from, to) && from <= to && (i < from || i >= to) && from <= to + d
    requires forall o :: o in opts ==> o.start == from && o.end == to + d
    requires m == 1 ==> secs[j].opts[k].start == from && secs[j].opts[k].end == to
    ensures Owned(secs, keys, {}, i)
            == Owned(Spliced(secs, j, k, m, opts, d), keys', {}, if i < from then i else i + d)
  {
    var secs', i' := Spliced(secs, j, k, m, opts, d), if i < from then i else i + d;
    OwnedByEdits(secs, keys, i);
    OwnedByEdits(secs', keys', i');
    hide *;
    EditedMoves(secs, j, k, m, opts, d, keys, keys', from, to, i);
  }

  lemma OthersMove(secs: seq<Sec>, secs': seq<Sec>, j: nat, k: nat, m: nat, opts: seq<Opt>, keys: Keys, keys': Keys,
                   from: int, to: int, d: int, n: int)
    requires Swapped(secs, secs', j, k, m, opts, keys, keys', from, to, d)
    ensures Alike(secs, secs', keys, keys', {}, {}, from, to, to + d, n)
  {
    hide Owned, Covers, Spliced, Change, Clear;
    forall i | from <= i < to ensures Owned(secs, keys, {}, i) {
      CoveredIsOwned(secs, keys, j, k, i);
    }
    forall i | from <= i < to + d ensures Owned(secs', keys', {}, i) {
      CoveredIsOwned(secs', keys', j, k, i);
    }
    forall i | 0 <= i < from ensures Owned(secs', keys', {}, i) == Owned(secs, keys, {}, i) {
      OwnedMoves(secs, j, k, m, opts, d, keys, keys', from, to, i);
    }
    forall i | to <= i < n ensures Owned(secs', keys', {}, i + (to + d - to)) == Owned(secs, keys, {}, i) {
      OwnedMoves(secs, j, k, m, opts, d, keys, keys', from, to, i);
    }
  }

  lemma SwapKeeps(lines: seq<string>, lines': seq<string>, block: seq<string>, j: nat, k: nat, m: nat, opts: seq<Opt>,
                  keys: Keys, keys': Keys, from: int, to: int)
    requires Exchanged(lines, lines', from, to, block)
    requires Swapped(Parse(lines), Parse(lines'), j, k, m, opts, keys, keys', from, to, |block| - (to - from))
    ensures Unowned(lines', keys', {}) == Unowned(lines, keys, {})
  {
    hide *;
    OthersMove(Parse(lines), Parse(lines'), j, k, m, opts, keys, keys', from, to, |block| - (to - from), |lines|);
    assert to + (|block| - (to - from)) == from + |block|;
    UnownedExchanged(lines, lines', from, to, block, keys, keys', {}, {});
  }

  /** The span of an option keeps off all others. */
  lemma OptionClear(secs: seq<Sec>, j: nat, k: nat)
    requires Ordered(secs) && j < |secs| && k < |secs[j].opts|
    ensures Clear(secs, j, k, 1, secs[j].opts[k].start, secs[j].opts[k].end)
  {
    forall a, b | 0 <= a < |secs| && 0 <= b < |secs[a].opts| && !(a == j && k <= b < k + 1)
      ensures if a < j || (a == j && b < k) then secs[a].opts[b].end <= secs[j].opts[k].start
              else secs[j].opts[k].end <= secs[a].opts[b].start
    {
      if a < j {
        assert secs[a].end <= secs[j].header;
      } else if a > j {
        assert secs[j].end <= secs[a].header;
      }
    }
  }

  /** So does a place in a section behind all of its options. */
  lemma PlaceClear(secs: seq<Sec>, j: nat, at: int)
    requires Ordered(secs) && j < |secs| && secs[j].header < at <= secs[j].end
    requires forall b :: 0 <= b < |secs[j].opts| ==> secs[j].opts[b].end <= at
    ensures Clear(secs, j, |secs[j].opts|, 0, at, at)
  {
    forall a, b | 0 <= a < |secs| && 0 <= b < |secs[a].opts|
      ensures if a < j || (a == j && b < |secs[j].opts|) then secs[a].opts[b].end <= at else at <= secs[a].opts[b].start
    {
      if a < j {
        assert secs[a].end <= secs[j].header;
      } else if a > j {
        assert secs[j].end <= secs[a].header;
      }
    }
  }

  /** The last line of an option is not blank, so blank lines behind it are none of its own. */
  lemma OptionEndsEarly(lines: seq<string>, j: nat, b: nat, at: int)
    requires j < |Parse(lines)| && b < |Parse(lines)[j].opts| && 0 <= at <= Parse(lines)[j].end <= |lines|
    requires forall i :: at <= i < Parse(lines)[j].end ==> IsBlank(lines[i])
    requires Parse(lines)[j].opts[b].end <= Parse(lines)[j].end
    ensures Parse(lines)[j].opts[b].end <= at
  {
    OptionIs(lines, j, b);
    var o := Parse(lines)[j].opts[b];
    var line := lines[o.end - 1];
    assert line == lines[o.start..o.end][o.end - 1 - o.start];
    ContIsContinuation(line);
    if IsBlank(line) {
      BlankIsBreak(line);
    }
  }

  lemma {:induction false} FoundIsFirst(secs: seq<Sec>, name: string, key: string)
    requires FindSec(secs, name) < |secs|
    requires FindOpt(secs[FindSec(secs, name)].opts, key) < |secs[FindSec(secs, name)].opts|
    ensures First(secs, FindSec(secs, name), FindOpt(secs[FindSec(secs, name)].opts, key))
  {
  }

  /** A key that is not there covers no line. */
  lemma {:induction false} NotFoundCovers(secs: seq<Sec>, name: string, key: string, keys: Keys, names: set<string>,
                                          i: int)
    requires var j := FindSec(secs, name); j == |secs| || FindOpt(secs[j].opts, key) == |secs[j].opts|
    ensures Owned(secs, keys - {(name, key)}, names, i) == Owned(secs, keys, names, i)
  {
    var keys' := keys - {(name, key)};
    if Edited(secs, keys, i) {
      var a, b := EditedBy(secs, keys, i);
      assert Covers(secs, keys', a, b, i);
    }
    if Edited(secs, keys', i) {
      var a, b := EditedBy(secs, keys', i);
      assert Covers(secs, keys, a, b, i);
    }
  }

  lemma OptionCovers(secs: seq<Sec>, keys: Keys, j: nat, k: nat)
    requires j < |secs| && k < |secs[j].opts| && First(secs, j, k) && (secs[j].name, secs[j].opts[k].key) in keys
    ensures forall i :: secs[j].opts[k].start <= i < secs[j].opts[k].end ==> Covers(secs, keys, j, k, i)
  {
  }

  lemma CutSwaps(secs: seq<Sec>, j: nat, k: nat, keys: Keys)
    requires Ordered(secs) && j < |secs| && k < |secs[j].opts| && First(secs, j, k)
    requires (secs[j].name, secs[j].opts[k].key) in keys
    ensures var o := secs[j].opts[k];
            Swapped(secs, Spliced(secs, j, k, 1, [], o.start - o.end), j, k, 1, [],
                    keys, keys - {(secs[j].name, o.key)}, o.start, o.end, o.start - o.end)
  {
    OptionClear(secs, j, k);
    OptionCovers(secs, keys, j, k);
    hide Clear, First, Spliced, Covers;
  }

  lemma {:induction false} NotFoundKeeps(lines: seq<string>, name: string, key: string, keys: Keys)
    requires var secs, j := Parse(lines), FindSec(Parse(lines), name);
             j == |secs| || FindOpt(secs[j].opts, key) == |secs[j].opts|
    ensures Unowned(lines, keys - {(name, key)}, {}) == Unowned(lines, keys, {})
  {
    var secs := Parse(lines);
    hide Parse, Owned, FindSec, FindOpt;
    forall i | 0 <= i < |lines| ensures Owned(secs, keys - {(name, key)}, {}, i) == Owned(secs, keys, {}, i) {
      NotFoundCovers(secs, name, key, keys, {}, i);
    }
    KeepSame(lines, i => Owned(secs, keys, {}, i), i => Owned(secs, keys - {(name, key)}, {}, i));
  }

  /** Removing an option removes its lines only; the next of the same key is a line like any other. */
  lemma {:induction false} RemoveOptionKeeps(lines: seq<string>, name: string, key: string, keys: Keys)
    requires (name, key) in keys
    ensures Unowned(RemoveOptionLines(lines, name, key), keys - {(name, key)}, {}) == Unowned(lines, keys, {})
  {
    Spans(lines);
    var secs := Parse(lines);
    var j := FindSec(secs, name);
    hide Parse, SpliceLines, Unowned;
    if j < |secs| && FindOpt(secs[j].opts, key) < |secs[j].opts| {
      var k := FindOpt(secs[j].opts, key);
      var o, lines' := secs[j].opts[k], RemoveOptionLines(lines, name, key);
      FoundIsFirst(secs, name, key);
      IndexOrdered(lines);
      SpliceOption(lines, j, k, []);
      CutSwaps(secs, j, k, keys);
      SpliceExactly(lines, o.start, o.end, []);
      assert lines' == SpliceLines(lines, o.start, o.end, []);
      hide *;
      SwapKeeps(lines, lines', [], j, k, 1, [], keys, keys - {(name, key)}, o.start, o.end);
    } else {
      NotFoundKeeps(lines, name, key, keys);
    }
  }

  /** What is put in is read first for its key. */
  lemma NewIsFirst(secs: seq<Sec>, j: nat, k: nat, m: nat, o: Opt, d: int, keys: Keys)
    requires j < |secs| && k + m <= |secs[j].opts| && (secs[j].name, o.key) in keys
    requires forall i :: 0 <= i < j ==> secs[i].name != secs[j].name
    requires forall i :: 0 <= i < k ==> secs[j].opts[i].key != o.key
    ensures forall i :: o.start <= i < o.end ==> Covers(Spliced(secs, j, k, m, [o], d), keys, j, k, i)
  {
    SplicedNames(secs, j, k, m, [o], d);
    hide Spliced;
  }

  lemma OptionSwaps(secs: seq<Sec>, j: nat, k: nat, neu: Opt, keys: Keys)
    requires Ordered(secs) && j < |secs| && k < |secs[j].opts| && First(secs, j, k)
    requires neu.key == secs[j].opts[k].key && neu.start == secs[j].opts[k].start < neu.end
    requires (secs[j].name, neu.key) in keys
    ensures var o, d := secs[j].opts[k], neu.end - secs[j].opts[k].end;
            Swapped(secs, Spliced(secs, j, k, 1, [neu], d), j, k, 1, [neu], keys, keys, o.start, o.end, d)
  {
    OptionClear(secs, j, k);
    OptionCovers(secs, keys, j, k);
    NewIsFirst(secs, j, k, 1, neu, neu.end - secs[j].opts[k].end, keys);
    hide Clear, First, Spliced, Covers;
  }

  lemma InsertSwaps(secs: seq<Sec>, j: nat, neu: Opt, keys: Keys)
    requires Ordered(secs) && j < |secs| && FirstSec(secs, j) && secs[j].header < neu.start <= secs[j].end
    requires neu.start < neu.end && (secs[j].name, neu.key) in keys
    requires forall b :: 0 <= b < |secs[j].opts| ==> secs[j].opts[b].key != neu.key && secs[j].opts[b].end <= neu.start
    ensures var d := neu.end - neu.start;
            Swapped(secs, Spliced(secs, j, |secs[j].opts|, 0, [neu], d), j, |secs[j].opts|, 0, [neu], keys, keys,
                    neu.start, neu.start, d)
  {
    PlaceClear(secs, j, neu.start);
    NewIsFirst(secs, j, |secs[j].opts|, 0, neu, neu.end - neu.start, keys);
    hide Clear, Spliced, Covers, FirstSec;
  }

  ghost predicate FirstAt(secs: seq<Sec>, name: string, j: nat, k: nat, o: Opt) {
    j < |secs| && k < |secs[j].opts| && First(secs, j, k) && secs[j].name == name && secs[j].opts[k] == o
  }

  /** The lines of an option of this key, and what they are read as at `start`. */
  ghost predicate ReadAs(block: seq<string>, start: int, o: Opt) {
    IsBlock(block) && o == OptOf(block, start)
  }

  ghost predicate SplicedTo(secs: seq<Sec>, secs': seq<Sec>, j: nat, k: nat, m: nat, opts: seq<Opt>, d: int) {
    j < |secs| && k + m <= |secs[j].opts| && secs' == Spliced(secs, j, k, m, opts, d)
  }

  lemma NewOptsIs(block: seq<string>, at: int)
    requires IsBlock(block)
    ensures NewOpts(block, at) == [OptOf(block, at)]
  {
    hide OptOf;
  }

  lemma ExchangedIs(lines: seq<string>, lines': seq<string>, from: int, to: int, block: seq<string>)
    requires Exchanged(lines, lines', from, to, block)
    ensures 0 <= from <= to <= |lines| && lines' == SpliceLines(lines, from, to, block)
  {
    Parts(lines, lines', from, to, block);
  }

  lemma ExistingIndex(lines: seq<string>, lines': seq<string>, name: string, j: nat, k: nat, o: Opt, block: seq<string>,
                      neu: Opt, d: int)
    requires FirstAt(Parse(lines), name, j, k, o) && ReadAs(block, o.start, neu) && d == |block| - (o.end - o.start)
    requires Exchanged(lines, lines', o.start, o.end, block)
    ensures SplicedTo(Parse(lines), Parse(lines'), j, k, 1, [neu], d)
  {
    hide Parse, SpliceLines, Spliced, First, OptOf, IsBlock, NewOpts, Exchanged;
    ExchangedIs(lines, lines', o.start, o.end, block);
    NewOptsIs(block, o.start);
    SpliceOption(lines, j, k, block);
  }

  lemma ExistingKeeps(lines: seq<string>, lines': seq<string>, name: string, j: nat, k: nat, o: Opt, block: seq<string>,
                      neu: Opt, keys: Keys)
    requires FirstAt(Parse(lines), name, j, k, o) && ReadAs(block, o.start, neu)
    requires neu.key == o.key && (name, o.key) in keys && Exchanged(lines, lines', o.start, o.end, block)
    ensures Unowned(lines', keys, {}) == Unowned(lines, keys, {})
  {
    var secs, d := Parse(lines), |block| - (o.end - o.start);
    assert block != [] && neu.start == o.start && neu.end - o.end == d;
    assert j < |secs| && k < |secs[j].opts| && First(secs, j, k) && secs[j].name == name && secs[j].opts[k] == o;
    ExistingIndex(lines, lines', name, j, k, o, block, neu, d);
    assert Parse(lines') == Spliced(secs, j, k, 1, [neu], d);
    hide *;
    IndexOrdered(lines);
    OptionSwaps(secs, j, k, neu, keys);
    SwapKeeps(lines, lines', block, j, k, 1, [neu], keys, keys, o.start, o.end);
  }

  lemma InsertKeeps(lines: seq<string>, lines': seq<string>, j: nat, at: nat, key: string, value: Value, keys: Keys)
    requires OneLines(lines) && j < |Parse(lines)| && FirstSec(Parse(lines), j) && ValidKey(key)
    requires var s := Parse(lines)[j];
             && s.header < at <= s.end <= |lines| && (forall i :: at <= i < s.end ==> IsBlank(lines[i]))
             && (forall b :: 0 <= b < |s.opts| ==> s.opts[b].key != key) && (s.name, key) in keys
             && Exchanged(lines, lines', at, at, Render(key, value, []))
    ensures Unowned(lines', keys, {}) == Unowned(lines, keys, {})
  {
    var secs, block := Parse(lines), Render(key, value, []);
    RenderIsBlock(key, value, []);
    assert block != [];
    var neu := OptOf(block, at);
    assert neu.key == key && neu.start == at && neu.end == at + |block|;
    Spans(lines);
    hide *;
    ExchangedIs(lines, lines', at, at, block);
    IndexOrdered(lines);
    forall b | 0 <= b < |secs[j].opts| ensures secs[j].opts[b].end <= at {
      OptionEndsEarly(lines, j, b, at);
    }
    SpliceInsert(lines, j, at, block);
    InsertSwaps(secs, j, neu, keys);
    NewOptsIs(block, at);
    SwapKeeps(lines, lines', block, j, |secs[j].opts|, 0, [neu], keys, keys, at, at);
  }

  /** Setting an option in a section that is there. */
  lemma {:induction false} SetInKeeps(lines: seq<string>, name: string, key: string, value: Value, keys: Keys)
    requires OneLines(lines) && ValidKey(key) && FindSec(Parse(lines), name) < |Parse(lines)| && (name, key) in keys
    ensures Unowned(SetIn(lines, FindSec(Parse(lines), name), key, value), keys, {}) == Unowned(lines, keys, {})
  {
    var j := FindSec(Parse(lines), name);
    var k := FindOpt(Parse(lines)[j].opts, key);
    hide Parse, Unowned, ValidKey, OneLines, SetIn, First, IsBlock, Classify, Exchanged, BlockValue, Render;
    if k < |Parse(lines)[j].opts| {
      var o := Parse(lines)[j].opts[k];
      SetExactly(lines, j, key, value);
      FoundIsFirst(Parse(lines), name, key);
      RenderIsBlock(key, value, lines[o.start..o.end]);
      var block := Render(key, value, lines[o.start..o.end]);
      ExistingKeeps(lines, SetIn(lines, j, key, value), name, j, k, o, block, OptOf(block, o.start), keys);
    } else {
      var at := InsertExactly(lines, j, key, value);
      InsertKeeps(lines, SetIn(lines, j, key, value), j, at, key, value, keys);
    }
  }

  lemma AddedOwns(secs: seq<Sec>, secs': seq<Sec>, keys: Keys, n: int, i: int)
    requires |secs'| == |secs| + 1 && secs'[|secs|].opts == []
    requires forall j :: 0 <= j < |secs| ==> secs'[j] == secs[j].(end := secs'[j].end)
    requires forall j, k :: 0 <= j < |secs| && 0 <= k < |secs[j].opts| ==> secs[j].opts[k].end <= n
    ensures Owned(secs', keys, {}, i) == (i < n && Owned(secs, keys, {}, i))
  {
    OwnedByEdits(secs, keys, i);
    OwnedByEdits(secs', keys, i);
    hide Owned;
    if Edited(secs', keys, i) {
      var a, b := EditedBy(secs', keys, i);
      assert Covers(secs, keys, a, b, i);
    }
    if i < n && Edited(secs, keys, i) {
      var a, b := EditedBy(secs, keys, i);
      assert Covers(secs', keys, a, b, i);
    }
  }

  lemma UnownedAppended(lines: seq<string>, lines': seq<string>, keys: Keys)
    requires lines <= lines'
    requires forall i :: 0 <= i < |lines'| ==>
      Owned(Parse(lines'), keys, {}, i) == (i < |lines| && Owned(Parse(lines), keys, {}, i))
    ensures Unowned(lines', keys, {}) == Unowned(lines, keys, {}) + lines'[|lines|..]
  {
    hide Parse, Keep, Owned;
    var out, out' := i => Owned(Parse(lines), keys, {}, i), i => Owned(Parse(lines'), keys, {}, i);
    assert lines' == lines + lines'[|lines|..];
    KeepConcat(lines, lines'[|lines|..], out');
    KeepSame(lines, out, out');
    KeepAll(lines'[|lines|..], i => out'(i + |lines|));
  }

  /** What a new section adds: its header, and a blank line before it where one is due. */
  lemma {:induction false} AddSectionKeeps(lines: seq<string>, name: string, keys: Keys)
    requires ValidName(name)
    ensures Unowned(AddSectionLines(lines, name), keys, {})
            == Unowned(lines, keys, {}) + AddSectionLines(lines, name)[|lines|..]
  {
    var secs, lines' := Parse(lines), AddSectionLines(lines, name);
    if FindSec(secs, name) == |secs| {
      var secs' := Parse(lines');
      AddSectionLocality(lines, name);
      Spans(lines);
      hide Parse, AddSectionLines, ValidName;
      forall i | 0 <= i < |lines'| ensures Owned(secs', keys, {}, i) == (i < |lines| && Owned(secs, keys, {}, i)) {
        AddedOwns(secs, secs', keys, |lines|, i);
      }
      UnownedAppended(lines, lines', keys);
    } else {
      hide Parse, Keep;
      assert lines'[|lines|..] == [];
    }
  }

  lemma AddedOneLines(lines: seq<string>, name: string)
    requires OneLines(lines) && ValidName(name)
    ensures OneLines(AddSectionLines(lines, name))
  {
    hide Parse;
  }

  /** Setting a key keeps every line that is not its own, and adds at most the header of its section. */
  lemma {:induction false} SetKeeps(lines: seq<string>, name: string, key: string, value: Value, keys: Keys)
    requires OneLines(lines) && ValidKey(key) && ValidName(name) && (name, key) in keys
    ensures Unowned(SetLines(lines, name, key, value).lines, keys, {})
            == Unowned(lines, keys, {}) + AddSectionLines(lines, name)[|lines|..]
  {
    var lines1 := AddSectionLines(lines, name);
    AddedOneLines(lines, name);
    hide SetIn, Unowned, ValidKey, Parse, OneLines;
    AddSectionKeeps(lines, name, keys);
    if FindSec(Parse(lines1), name) < |Parse(lines1)| {
      SetInKeeps(lines1, name, key, value, keys);
    }
  }

  // ---- whole sections ----

  function Without(secs: seq<Sec>, j: nat): seq<Sec>
    requires j < |secs|
  {
    secs[..j] + ShiftSecs(secs[j + 1..], secs[j].header - secs[j].end)
  }

  /** Section `j`, from `from` to `to`, is gone, and nothing else is touched. */
  ghost predicate CutOut(secs: seq<Sec>, secs': seq<Sec>, j: nat, keys: Keys, names: set<string>, names': set<string>,
                         from: int, to: int) {
    && j < |secs| && FirstSec(secs, j) && Ordered(secs) && secs[j].header == from < to == secs[j].end
    && secs' == Without(secs, j) && secs[j].name in names && names' == names - {secs[j].name}
    && forall k :: k in keys ==> k.0 !in names
  }

  function Gone(secs: seq<Sec>, j: nat, i: int): int
    requires j < |secs|
  {
    if i < secs[j].header then i else i + (secs[j].header - secs[j].end)
  }

  lemma GoneIs(secs: seq<Sec>, j: nat, i: int)
    requires j < |secs| && secs[j].header < secs[j].end
    ensures i < secs[j].header ==> Gone(secs, j, i) == i
    ensures i >= secs[j].end ==> Gone(secs, j, i) == i + (secs[j].header - secs[j].end)
  {
  }

  lemma DroppedOwns(secs: seq<Sec>, keys: Keys, names: set<string>, j: nat, i: int)
    requires j < |secs| && InDropped(secs, names, j, i)
    ensures Owned(secs, keys, names, i)
  {
  }

  /** Where section `l` has gone. */
  lemma WithoutAt(secs: seq<Sec>, j: nat)
    requires j < |secs|
    ensures |Without(secs, j)| == |secs| - 1
    ensures forall l :: 0 <= l < j ==> Without(secs, j)[l] == secs[l]
    ensures forall l :: j <= l < |Without(secs, j)| ==>
              Without(secs, j)[l] == Sec(secs[l + 1].name, secs[l + 1].header + (secs[j].header - secs[j].end),
                                         secs[l + 1].end + (secs[j].header - secs[j].end),
                                         ShiftOpts(secs[l + 1].opts, secs[j].header - secs[j].end))
  {
    hide ShiftOpts;
  }

  function Next(l: nat, j: nat): nat {
    if l < j then l else l + 1
  }

  lemma FirstSecWithout(secs: seq<Sec>, j: nat, l: nat)
    requires j < |secs| && l < |secs| - 1 && secs[Next(l, j)].name != secs[j].name
    ensures |Without(secs, j)| == |secs| - 1 && Without(secs, j)[l].name == secs[Next(l, j)].name
    ensures FirstSec(secs, Next(l, j)) <==> FirstSec(Without(secs, j), l)
  {
    WithoutAt(secs, j);
    var secs' := Without(secs, j);
    hide Without;
    if FirstSec(secs', l) {
      forall m | 0 <= m < Next(l, j) ensures secs[m].name != secs[Next(l, j)].name {
        assert m < j ==> secs'[m].name == secs[m].name;
        assert m > j ==> secs'[m - 1].name == secs[m].name;
      }
    }
    if FirstSec(secs, Next(l, j)) {
      forall m | 0 <= m < l ensures secs'[m].name != secs'[l].name {
        assert secs'[m].name == secs[Next(m, j)].name;
      }
    }
  }

  lemma KeysWithout(secs: seq<Sec>, j: nat, l: nat)
    requires j < |secs| && l < |secs| - 1
    ensures |Without(secs, j)| == |secs| - 1 && |Without(secs, j)[l].opts| == |secs[Next(l, j)].opts|
    ensures Without(secs, j)[l].name == secs[Next(l, j)].name
    ensures var d := if l < j then 0 else secs[j].header - secs[j].end;
            && Without(secs, j)[l].header == secs[Next(l, j)].header + d
            && Without(secs, j)[l].end == secs[Next(l, j)].end + d
            && forall b :: 0 <= b < |secs[Next(l, j)].opts| ==>
                 && Without(secs, j)[l].opts[b].key == secs[Next(l, j)].opts[b].key
                 && Without(secs, j)[l].opts[b].start == secs[Next(l, j)].opts[b].start + d
                 && Without(secs, j)[l].opts[b].end == secs[Next(l, j)].opts[b].end + d
  {
    WithoutAt(secs, j);
    hide Without;
  }

  lemma Beside(secs: seq<Sec>, j: nat, l: nat)
    requires Ordered(secs) && j < |secs| && l < |secs| - 1
    ensures l < j ==> secs[l].end <= secs[j].header
    ensures l >= j ==> secs[j].end <= secs[l + 1].header
    ensures forall b :: 0 <= b < |secs[Next(l, j)].opts| ==>
              && secs[Next(l, j)].header < secs[Next(l, j)].opts[b].start
              && secs[Next(l, j)].opts[b].end <= secs[Next(l, j)].end
  {
  }

  lemma DroppedWithout(secs: seq<Sec>, j: nat, names: set<string>, l: nat, i: int)
    requires Ordered(secs) && j < |secs| && l < |secs| - 1 && secs[j].header < secs[j].end && FirstSec(secs, j)
    requires i < secs[j].header || i >= secs[j].end
    ensures |Without(secs, j)| == |secs| - 1
    ensures InDropped(secs, names, Next(l, j), i)
            <==> InDropped(Without(secs, j), names - {secs[j].name}, l, Gone(secs, j, i))
  {
    KeysWithout(secs, j, l);
    Beside(secs, j, l);
    if secs[Next(l, j)].name != secs[j].name {
      FirstSecWithout(secs, j, l);
    } else {
      assert FirstSec(secs, Next(l, j)) ==> l < j;
    }
    hide Without, Ordered, FirstSec;
  }

  lemma NotInRemoved(secs: seq<Sec>, j: nat, names: set<string>, l: nat, i: int)
    requires j < |secs| && l < |secs| && InDropped(secs, names, l, i) && (i < secs[j].header || i >= secs[j].end)
    ensures l != j
  {
  }

  lemma FirstWithout(secs: seq<Sec>, j: nat, l: nat, b: nat)
    requires j < |secs| && l < |secs| - 1 && secs[Next(l, j)].name != secs[j].name && b < |secs[Next(l, j)].opts|
    ensures |Without(secs, j)| == |secs| - 1 && b < |Without(secs, j)[l].opts|
    ensures First(secs, Next(l, j), b) <==> First(Without(secs, j), l, b)
  {
    FirstSecWithout(secs, j, l);
    KeysWithout(secs, j, l);
    hide Without, FirstSec;
  }

  lemma CoversWithout(secs: seq<Sec>, j: nat, keys: Keys, l: nat, b: nat, i: int)
    requires Ordered(secs) && j < |secs| && l < |secs| - 1 && secs[j].header < secs[j].end
    requires i < secs[j].header || i >= secs[j].end
    requires forall k :: k in keys ==> k.0 != secs[j].name
    ensures Covers(secs, keys, Next(l, j), b, i) <==> Covers(Without(secs, j), keys, l, b, Gone(secs, j, i))
  {
    KeysWithout(secs, j, l);
    Beside(secs, j, l);
    if b < |secs[Next(l, j)].opts| && (secs[Next(l, j)].name, secs[Next(l, j)].opts[b].key) in keys {
      FirstWithout(secs, j, l, b);
    }
    hide Without, First, Ordered;
  }

  lemma CoversElsewhere(secs: seq<Sec>, keys: Keys, a: nat, b: nat, i: int, j: nat)
    requires j < |secs| && Covers(secs, keys, a, b, i) && forall k :: k in keys ==> k.0 != secs[j].name
    ensures a < |secs| && a != j
  {
  }

  lemma EditedGone(secs: seq<Sec>, j: nat, keys: Keys, i: int)
    requires Ordered(secs) && j < |secs| && secs[j].header < secs[j].end && (i < secs[j].header || i >= secs[j].end)
    requires forall k :: k in keys ==> k.0 != secs[j].name
    requires Edited(secs, keys, i)
    ensures Edited(Without(secs, j), keys, Gone(secs, j, i))
  {
    var a, b := EditedBy(secs, keys, i);
    CoversElsewhere(secs, keys, a, b, i, j);
    var l := if a < j then a else a - 1;
    assert Next(l, j) == a;
    hide *;
    CoversWithout(secs, j, keys, l, b, i);
    EditedIf(Without(secs, j), keys, l, b, Gone(secs, j, i));
  }

  lemma EditedBack(secs: seq<Sec>, j: nat, keys: Keys, i: int)
    requires Ordered(secs) && j < |secs| && secs[j].header < secs[j].end && (i < secs[j].header || i >= secs[j].end)
    requires forall k :: k in keys ==> k.0 != secs[j].name
    requires Edited(Without(secs, j), keys, Gone(secs, j, i))
    ensures Edited(secs, keys, i)
  {
    WithoutAt(secs, j);
    var l, b := EditedBy(Without(secs, j), keys, Gone(secs, j, i));
    assert l < |Without(secs, j)|;
    hide *;
    CoversWithout(secs, j, keys, l, b, i);
    EditedIf(secs, keys, Next(l, j), b, i);
  }

  lemma EditedWithout(secs: seq<Sec>, j: nat, keys: Keys, i: int)
    requires Ordered(secs) && j < |secs| && secs[j].header < secs[j].end && (i < secs[j].header || i >= secs[j].end)
    requires forall k :: k in keys ==> k.0 != secs[j].name
    ensures Edited(secs, keys, i) == Edited(Without(secs, j), keys, Gone(secs, j, i))
  {
    hide *;
    if Edited(secs, keys, i) {
      EditedGone(secs, j, keys, i);
    }
    if Edited(Without(secs, j), keys, Gone(secs, j, i)) {
      EditedBack(secs, j, keys, i);
    }
  }

  lemma {:induction false} SectionOwns(secs: seq<Sec>, j: nat, keys: Keys, names: set<string>, i: int)
    requires Ordered(secs) && j < |secs| && (i < secs[j].header || i >= secs[j].end) && secs[j].header < secs[j].end
    requires FirstSec(secs, j) && secs[j].name in names && forall k :: k in keys ==> k.0 !in names
    ensures Owned(Without(secs, j), keys, names - {secs[j].name}, Gone(secs, j, i)) == Owned(secs, keys, names, i)
  {
    WithoutAt(secs, j);
    var secs', names', i' := Without(secs, j), names - {secs[j].name}, Gone(secs, j, i);
    EditedWithout(secs, j, keys, i);
    hide Without, Gone, InDropped, Ordered, FirstSec, Edited;
    if Dropped(secs, names, i) {
      var l: nat :| l < |secs| && InDropped(secs, names, l, i);
      NotInRemoved(secs, j, names, l, i);
      DroppedWithout(secs, j, names, if l < j then l else l - 1, i);
      assert Dropped(secs', names', i');
    }
    if Dropped(secs', names', i') {
      var l: nat :| l < |secs'| && InDropped(secs', names', l, i');
      DroppedWithout(secs, j, names, l, i);
      assert Dropped(secs, names, i);
    }
  }

  lemma SectionsMove(secs: seq<Sec>, secs': seq<Sec>, j: nat, keys: Keys, names: set<string>, names': set<string>,
                     from: int, to: int, n: int)
    requires CutOut(secs, secs', j, keys, names, names', from, to)
    ensures Alike(secs, secs', keys, keys, names, names', from, to, from, n)
  {
    hide Owned, Without, Ordered, FirstSec, Gone;
    forall i | from <= i < to ensures Owned(secs, keys, names, i) {
      DroppedOwns(secs, keys, names, j, i);
    }
    forall i | 0 <= i < from ensures Owned(secs', keys, names', i) == Owned(secs, keys, names, i) {
      SectionOwns(secs, j, keys, names, i);
      GoneIs(secs, j, i);
    }
    forall i | to <= i < n ensures Owned(secs', keys, names', i + (from - to)) == Owned(secs, keys, names, i) {
      SectionOwns(secs, j, keys, names, i);
      GoneIs(secs, j, i);
    }
  }

  lemma CutKeeps(lines: seq<string>, lines': seq<string>, j: nat, keys: Keys, names: set<string>, names': set<string>,
                 from: int, to: int)
    requires CutOut(Parse(lines), Parse(lines'), j, keys, names, names', from, to)
    requires Exchanged(lines, lines', from, to, [])
    ensures Unowned(lines', keys, names') == Unowned(lines, keys, names)
  {
    hide *;
    SectionsMove(Parse(lines), Parse(lines'), j, keys, names, names', from, to, |lines|);
    UnownedExchanged(lines, lines', from, to, [], keys, keys, names, names');
  }

  lemma {:induction false} NotFoundDropped(secs: seq<Sec>, name: string, keys: Keys, names: set<string>, i: int)
    requires FindSec(secs, name) == |secs|
    ensures Owned(secs, keys, names - {name}, i) == Owned(secs, keys, names, i)
  {
    if Dropped(secs, names, i) {
      var l :| 0 <= l < |secs| && InDropped(secs, names, l, i);
      assert InDropped(secs, names - {name}, l, i);
    }
    if Dropped(secs, names - {name}, i) {
      var l :| 0 <= l < |secs| && InDropped(secs, names - {name}, l, i);
      assert InDropped(secs, names, l, i);
    }
  }

  lemma {:induction false} NoSectionKeeps(lines: seq<string>, name: string, keys: Keys, names: set<string>)
    requires FindSec(Parse(lines), name) == |Parse(lines)|
    ensures Unowned(lines, keys, names - {name}) == Unowned(lines, keys, names)
  {
    var secs := Parse(lines);
    hide Parse, Owned, FindSec;
    forall i | 0 <= i < |lines| ensures Owned(secs, keys, names - {name}, i) == Owned(secs, keys, names, i) {
      NotFoundDropped(secs, name, keys, names, i);
    }
    KeepSame(lines, i => Owned(secs, keys, names, i), i => Owned(secs, keys, names - {name}, i));
  }

  /** The first section of a name is cut out, and every other section is where its lines have gone. */
  lemma {:induction false} RemoveSectionKeeps(lines: seq<string>, name: string, keys: Keys, names: set<string>)
    requires name in names && forall k :: k in keys ==> k.0 !in names
    ensures Unowned(RemoveSectionLines(lines, name), keys, names - {name}) == Unowned(lines, keys, names)
  {
    var secs, j := Parse(lines), FindSec(Parse(lines), name);
    var lines' := RemoveSectionLines(lines, name);
    hide Parse, RemoveSectionLines, ShiftSecs;
    RemoveSectionLocality(lines, name);
    RemoveSectionExactly(lines, name);
    if j < |secs| {
      IndexOrdered(lines);
      hide Ordered, Exchanged;
      assert CutOut(secs, Parse(lines'), j, keys, names, names - {name}, secs[j].header, secs[j].end);
      hide *;
      CutKeeps(lines, lines', j, keys, names, names - {name}, secs[j].header, secs[j].end);
    } else {
      hide *;
      NoSectionKeeps(lines, name, keys, names);
    }
  }

  // ---- where the lines went ----

  /** Where the lines went that were nobody's. */
  lemma UnownedWent(lines: seq<string>, keys: Keys, names: set<string>, lines': seq<string>, keys': Keys,
                    added: seq<string>) returns (to: seq<int>)
    requires Unowned(lines', keys', {}) == Unowned(lines, keys, names) + added
    ensures Went(lines, i => Owned(Parse(lines), keys, names, i), lines', i => Owned(Parse(lines'), keys', {}, i),
                 added, to)
  {
    hide Parse, Owned, Keep, Went;
    to := KeptWent(lines, i => Owned(Parse(lines), keys, names, i), lines', i => Owned(Parse(lines'), keys', {}, i),
                   added);
  }
}
