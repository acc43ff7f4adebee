/** The document object: a list of lines, edited by splicing, and the index that every splice rebuilds.
    A dictionary is a sequence in insertion order with distinct keys: the first section of a name and
    the first option of a key, as the parsing loop keeps them. The loop carries the current section
    and the open option along; the specification is the scan of `CfgIndex` over the same lines. */
module CfgDocuments {
  import opened Text
  import opened CfgLine
  import opened CfgIndex
  import opened CfgLocality
  import opened CfgRender
  import opened CfgEdit
  import opened CfgTable
  import opened CfgText
  import CfgKeep

  // ---- the index proper: first occurrences only ----

  function LiveOpts(opts: seq<Opt>): seq<Opt> {
    if opts == [] then []
    else
      var init, last := LiveOpts(opts[..|opts| - 1]), Last(opts);
      if FindOpt(init, last.key) < |init| then init else init + [last]
  }

  function LiveSec(s: Sec): Sec {
    s.(opts := LiveOpts(s.opts))
  }

  function Live(secs: seq<Sec>): seq<Sec> {
    if secs == [] then []
    else
      var init, last := Live(secs[..|secs| - 1]), Last(secs);
      if FindSec(init, last.name) < |init| then init else init + [LiveSec(last)]
  }

  /** Names that occur more than once, in the order of their second occurrence. */
  function Dups(secs: seq<Sec>): seq<string> {
    if secs == [] then []
    else
      var init, dups := secs[..|secs| - 1], Dups(secs[..|secs| - 1]);
      if FindSec(init, Last(secs).name) < |init| && Last(secs).name !in dups
      then dups + [Last(secs).name] else dups
  }

  lemma {:induction false} FindOptSnoc(opts: seq<Opt>, o: Opt, key: string)
    ensures FindOpt(opts + [o], key)
            == (if FindOpt(opts, key) < |opts| then FindOpt(opts, key)
                else if o.key == key then |opts| else |opts| + 1)
  {
    var all := opts + [o];
    assert all[|opts|] == o;
    assert forall i :: 0 <= i < |opts| ==> all[i] == opts[i];
  }

  lemma {:induction false} FindSecSnoc(secs: seq<Sec>, s: Sec, name: string)
    ensures FindSec(secs + [s], name)
            == (if FindSec(secs, name) < |secs| then FindSec(secs, name)
                else if s.name == name then |secs| else |secs| + 1)
  {
    var all := secs + [s];
    assert all[|secs|] == s;
    assert forall i :: 0 <= i < |secs| ==> all[i] == secs[i];
  }

  /** The option found in the dictionary is the first one in the file. */
  lemma {:induction false} LiveOptFind(opts: seq<Opt>, key: string)
    ensures FindOpt(LiveOpts(opts), key) < |LiveOpts(opts)| <==> FindOpt(opts, key) < |opts|
    ensures FindOpt(opts, key) < |opts| ==> LiveOpts(opts)[FindOpt(LiveOpts(opts), key)] == opts[FindOpt(opts, key)]
  {
    if opts != [] {
      hide FindOpt;
      var init, last := opts[..|opts| - 1], Last(opts);
      LiveOptFind(init, key);
      LiveOptFind(init, last.key);
      assert opts == init + [last];
      FindOptSnoc(init, last, key);
      FindOptSnoc(LiveOpts(init), last, key);
    }
  }

  /** The section found in the dictionary is the first one in the file. */
  lemma {:induction false} LiveFind(secs: seq<Sec>, name: string)
    ensures FindSec(Live(secs), name) < |Live(secs)| <==> FindSec(secs, name) < |secs|
    ensures FindSec(secs, name) < |secs| ==> Live(secs)[FindSec(Live(secs), name)] == LiveSec(secs[FindSec(secs, name)])
  {
    if secs != [] {
      hide FindSec, LiveSec;
      var init, last := secs[..|secs| - 1], Last(secs);
      LiveFind(init, name);
      LiveFind(init, last.name);
      assert secs == init + [last];
      FindSecSnoc(init, last, name);
      FindSecSnoc(Live(init), LiveSec(last), name);
    }
  }

  /** Looking up in the dictionaries is looking up the first occurrence in the file. */
  lemma {:induction false} LiveLookup(secs: seq<Sec>, name: string, key: string)
    ensures Lookup(Live(secs), name, key) == Lookup(secs, name, key)
  {
    LiveFind(secs, name);
    if FindSec(secs, name) < |secs| {
      LiveOptFind(secs[FindSec(secs, name)].opts, key);
    }
  }

  // ---- what the scanning loop carries along ----

  /** `cur`, `option` and `first` are the current section, the open option and whether
      that option is in the dictionary. */
  ghost predicate InSection(s: Sec, active: bool, cur: Sec, option: Maybe<Opt>, first: bool) {
    && cur == LiveSec(s)
    && (option.Some? <==> active && s.opts != [])
    && (option.Some? ==>
          && option.value == Last(s.opts)
          && (first <==> FindOpt(s.opts, option.value.key) == |s.opts| - 1))
  }

  lemma {:induction false} LiveSnoc(secs: seq<Sec>, s: Sec)
    ensures var found := FindSec(Live(secs), s.name) < |Live(secs)|;
            && Live(secs + [s]) == (if found then Live(secs) else Live(secs) + [LiveSec(s)])
            && Dups(secs + [s]) == (if found && s.name !in Dups(secs) then Dups(secs) + [s.name] else Dups(secs))
            && (found <==> FindSec(secs + [s], s.name) < |secs|)
  {
    assert (secs + [s])[..|secs + [s]| - 1] == secs;
    LiveFind(secs, s.name);
    FindSecSnoc(secs, s, s.name);
  }

  /** Exchanging the last section for one of the same name. */
  lemma {:induction false} LiveReplace(secs: seq<Sec>, s: Sec)
    requires secs != [] && s.name == Last(secs).name
    ensures var live := FindSec(secs, s.name) == |secs| - 1;
            && (live ==> Live(secs) != [] && Live(ReplaceLast(secs, s)) == ReplaceLast(Live(secs), LiveSec(s)))
            && (!live ==> Live(ReplaceLast(secs, s)) == Live(secs))
            && Dups(ReplaceLast(secs, s)) == Dups(secs)
            && FindSec(ReplaceLast(secs, s), s.name) == FindSec(secs, s.name)
  {
    hide Live, Dups, FindSec, LiveSec;
    var init, last := secs[..|secs| - 1], Last(secs);
    hide ReplaceLast, Last;
    SnocParts(secs);
    ReplaceSnoc(init, last, s);
    LiveSnoc(init, last);
    LiveSnoc(init, s);
    FindSecSnoc(init, s, s.name);
    FindSecSnoc(init, last, s.name);
    ReplaceSnoc(Live(init), LiveSec(last), LiveSec(s));
  }

  lemma SnocParts<T>(s: seq<T>)
    requires s != []
    ensures s == s[..|s| - 1] + [Last(s)]
  {
  }

  lemma ReplaceSnoc<T>(s: seq<T>, x: T, y: T)
    ensures ReplaceLast(s + [x], y) == s + [y]
  {
  }

  lemma {:induction false} OptsSnoc(opts: seq<Opt>, o: Opt)
    ensures var found := FindOpt(LiveOpts(opts), o.key) < |LiveOpts(opts)|;
            && LiveOpts(opts + [o]) == (if found then LiveOpts(opts) else LiveOpts(opts) + [o])
            && (!found <==> FindOpt(opts + [o], o.key) == |opts|)
  {
    assert (opts + [o])[..|opts + [o]| - 1] == opts;
    LiveOptFind(opts, o.key);
    FindOptSnoc(opts, o, o.key);
  }

  lemma {:induction false} OptsReplace(opts: seq<Opt>, o: Opt)
    requires opts != [] && o.key == Last(opts).key
    ensures var first := FindOpt(opts, o.key) == |opts| - 1;
            && (first ==> LiveOpts(opts) != [] && LiveOpts(ReplaceLast(opts, o)) == ReplaceLast(LiveOpts(opts), o))
            && (!first ==> LiveOpts(ReplaceLast(opts, o)) == LiveOpts(opts))
            && FindOpt(ReplaceLast(opts, o), o.key) == FindOpt(opts, o.key)
  {
    var init := opts[..|opts| - 1];
    assert opts == init + [Last(opts)];
    hide FindOpt;
    OptsSnoc(init, Last(opts));
    OptsSnoc(init, o);
    FindOptSnoc(init, o, o.key);
    FindOptSnoc(init, Last(opts), o.key);
  }

  /** One line inside a section, branch by branch as the scanning loop takes them. */
  method ReadLine(line: string, index: int, ghost s: Sec, ghost active: bool,
                  cur: Sec, option: Maybe<Opt>, first: bool)
    returns (cur': Sec, option': Maybe<Opt>, first': bool)
    requires HeaderName(line).None? && (active ==> s.opts != [])
    requires InSection(s, active, cur, option, first)
    ensures !Classify(line).Header?
    ensures var (s', active') := StepSec(s, active, Classify(line), index);
            InSection(s', active', cur', option', first')
  {
    cur', option', first' := cur.(end := index + 1), None, first;
    ghost var l := Classify(line);
    if IsComment(line) {
      if option.Some? && IsContinuation(line) {
        var o := option.value.(end := index + 1);
        OptsReplace(s.opts, o);
        option' := Some(o);
        if first {
          cur' := cur'.(opts := ReplaceLast(cur'.opts, o));
        }
      } else {
        CommentBreaks(line);
      }
    } else if IsBlank(line) {
      BlankIsBreak(line);
    } else if option.Some? && IsContinuation(line) {
      var item := StripInline(Strip(line));
      var o := Extend(option.value, item, index + 1);
      OptsReplace(s.opts, o);
      option' := Some(o);
      if first {
        cur' := cur'.(opts := ReplaceLast(cur'.opts, o));
      }
    } else {
      var parts := OptionParts(line);
      if parts.Some? {
        var o := Opt(parts.value.0, index, index + 1, StripInline(Strip(parts.value.1)));
        OptsSnoc(s.opts, o);
        option', first' := Some(o), FindOpt(cur.opts, o.key) == |cur.opts|;
        if first' {
          cur' := cur'.(opts := cur'.opts + [o]);
        }
      }
    }
  }

  lemma CommentBreaks(line: string)
    requires HeaderName(line).None? && IsComment(line)
    ensures if IsContinuation(line) then Classify(line) == Cont("") else Classify(line) == Break
  {
  }

  // ---- the document ----

  lemma {:induction false} BlockNext(key: string, d: Deco, items: seq<string>, i: nat)
    requires i < |items|
    ensures [key + ":"] + ItemLines(d, items[..i + 1])
            == [key + ":"] + ItemLines(d, items[..i]) + Indented(CommentsBefore(d, items[i]))
               + [INDENT + WithComment(items[i], InlineComment(d, items[i]))]
  {
    assert items[..i + 1][..i] == items[..i];
  }

  /** The items of an option; none where there is no such option. */
  function ListAt(t: Table, section: string, key: string): seq<string> {
    match CfgTable.ValueAt(t, section, key)
    case Some(raw) => ListOf(raw)
    case None => []
  }

  predicate Under(prefix: string, name: string) {
    name == prefix || prefix + " " <= name
  }

  function NamesUnder(secs: seq<Sec>, prefix: string): seq<string> {
    if secs == [] then []
    else NamesUnder(secs[..|secs| - 1], prefix) + (if Under(prefix, Last(secs).name) then [Last(secs).name] else [])
  }

  /** The variables of the scanning loop describe the state `st`. */
  ghost predicate Tracks(st: Scan, sections: seq<Sec>, duplicates: seq<string>, current: Maybe<Sec>, live: bool,
                         option: Maybe<Opt>, first: bool)
  {
    && sections == Live(st.secs) && duplicates == Dups(st.secs)
    && (current.Some? <==> st.secs != [])
    && (st.active ==> st.secs != [] && Last(st.secs).opts != [])
    && (st.secs != [] ==>
          && InSection(Last(st.secs), st.active, current.value, option, first)
          && (live <==> FindSec(st.secs, Last(st.secs).name) == |st.secs| - 1))
  }

  lemma ScanNext(lines: seq<string>, n: nat)
    requires n < |lines|
    ensures ScanTo(lines, n + 1) == Step(ScanTo(lines, n), lines[n], n)
  {
  }

  lemma TrackedSection(st: Scan, sections: seq<Sec>, duplicates: seq<string>, current: Maybe<Sec>, live: bool,
                       option: Maybe<Opt>, first: bool)
    requires Tracks(st, sections, duplicates, current, live, option, first) && current.Some?
    ensures st.secs != [] && (st.active ==> Last(st.secs).opts != [])
    ensures InSection(Last(st.secs), st.active, current.value, option, first)
    ensures live ==> sections != []
  {
    if live {
      LiveReplace(st.secs, Last(st.secs));
    }
  }

  lemma {:induction false} TrackHeader(st: Scan, line: string, i: int, sections: seq<Sec>, duplicates: seq<string>,
                    current: Maybe<Sec>, live: bool, option: Maybe<Opt>, first: bool)
    requires Tracks(st, sections, duplicates, current, live, option, first)
    requires HeaderName(line).Some?
    ensures var name := HeaderName(line).value;
            var s := Sec(name, i, i + 1, []);
            var unseen := FindSec(sections, name) == |sections|;
            Tracks(Step(st, line, i), if unseen then sections + [s] else sections,
                   if !unseen && name !in duplicates then duplicates + [name] else duplicates,
                   Some(s), unseen, None, false)
  {
    HeaderClass(line);
    StepHeader(st, line, i);
    var s := Sec(HeaderName(line).value, i, i + 1, []);
    LiveSnoc(st.secs, s);
    FindSecSnoc(st.secs, s, s.name);
    hide Step, Classify, Live, Dups, FindSec;
  }

  lemma TrackPreamble(st: Scan, line: string, i: int, sections: seq<Sec>, duplicates: seq<string>,
                      current: Maybe<Sec>, live: bool, option: Maybe<Opt>, first: bool)
    requires Tracks(st, sections, duplicates, current, live, option, first)
    requires HeaderName(line).None? && current.None?
    ensures Tracks(Step(st, line, i), sections, duplicates, current, live, option, first)
  {
    HeaderClass(line);
    hide Classify;
  }

  lemma TrackLine(st: Scan, line: string, i: int, sections: seq<Sec>, duplicates: seq<string>,
                  current: Maybe<Sec>, live: bool, option: Maybe<Opt>, first: bool,
                  cur: Sec, option': Maybe<Opt>, first': bool)
    requires Tracks(st, sections, duplicates, current, live, option, first) && current.Some?
    requires HeaderName(line).None? && !Classify(line).Header?
    requires var (s', active') := StepSec(Last(st.secs), st.active, Classify(line), i);
             InSection(s', active', cur, option', first')
    ensures live ==> sections != []
    ensures Tracks(Step(st, line, i), if live then ReplaceLast(sections, cur) else sections, duplicates,
                   Some(cur), live, option', first')
  {
    hide Classify;
    var (s', active') := StepSec(Last(st.secs), st.active, Classify(line), i);
    StepSecKeeps(Last(st.secs), st.active, Classify(line), i);
    LiveReplace(st.secs, s');
    assert Step(st, line, i) == Scan(ReplaceLast(st.secs, s'), active');
    hide Live, Dups, FindSec, Step, StepSec;
  }

  lemma StepSecKeeps(s: Sec, active: bool, l: Line, i: int)
    requires !l.Header?
    ensures var (s', active') := StepSec(s, active, l, i);
            s'.name == s.name && (active' ==> s'.opts != [])
  {
  }

  lemma HeaderClass(line: string)
    ensures HeaderName(line).None? <==> !Classify(line).Header?
    ensures HeaderName(line).Some? ==> Classify(line) == Header(HeaderName(line).value)
  {
  }

  class CfgDocument {
    var lines: seq<string>
    var sections: seq<Sec>
    var duplicates: seq<string>

    ghost predicate Indexed()
      reads this
    {
      sections == Live(CfgIndex.Parse(lines)) && duplicates == Dups(CfgIndex.Parse(lines))
    }

    ghost predicate Valid()
      reads this
    {
      Indexed() && OneLines(lines)
    }

    constructor (text: string)
      ensures Valid() && lines == SplitLines(text)
    {
      lines := SplitLines(text);
      sections, duplicates := [], [];
      new;
      Parse();
    }

    /** One pass over the lines; afterwards the dictionaries hold the first occurrences. */
    method Parse()
      modifies this`sections, this`duplicates
      ensures Indexed()
    {
      sections, duplicates := [], [];
      var current: Maybe<Sec>, live, option: Maybe<Opt>, first := None, false, None, false;
      for index := 0 to |lines|
        invariant Tracks(ScanTo(lines, index), sections, duplicates, current, live, option, first)
      {
        hide *;
        var line := lines[index];
        ghost var st := ScanTo(lines, index);
        ScanNext(lines, index);
        var name := HeaderName(line);
        if name.Some? {
          var s := Sec(name.value, index, index + 1, []);
          TrackHeader(st, line, index, sections, duplicates, current, live, option, first);
          live := FindSec(sections, name.value) == |sections|;
          if live {
            sections := sections + [s];
          } else if name.value !in duplicates {
            duplicates := duplicates + [name.value];
          }
          current, option, first := Some(s), None, false;
          continue;
        }
        if current.None? {
          TrackPreamble(st, line, index, sections, duplicates, current, live, option, first);
          continue;
        }
        TrackedSection(st, sections, duplicates, current, live, option, first);
        var cur, option', first' := ReadLine(line, index, Last(st.secs), st.active, current.value, option, first);
        TrackLine(st, line, index, sections, duplicates, current, live, option, first, cur, option', first');
        current, option, first := Some(cur), option', first';
        if live {
          sections := ReplaceLast(sections, cur);
        }
      }
      assert Tracks(ScanTo(lines, |lines|), sections, duplicates, current, live, option, first);
    }

    // -- reading --

    method Get(section: string, key: string) returns (r: Maybe<string>)
      requires Valid()
      ensures r == ValueAt(TableOf(lines), section, key)
    {
      LiveLookup(CfgIndex.Parse(lines), section, key);
      LookupAgrees(CfgIndex.Parse(lines), section, key);
      r := None;
      var j := FindSec(sections, section);
      if j < |sections| {
        var k := FindOpt(sections[j].opts, key);
        if k < |sections[j].opts| {
          r := Some(sections[j].opts[k].value);
        }
      }
    }

    method GetList(section: string, key: string) returns (items: seq<string>)
      requires Valid()
      ensures items == ListAt(TableOf(lines), section, key)
    {
      var raw := Get(section, key);
      if raw.None? || raw.value == "" {
        return [];
      }
      var parts := SplitLines(raw.value);
      items := [];
      for i := 0 to |parts|
        invariant items == StripAll(NonBlank(parts[..i]))
      {
        assert parts[..i + 1][..i] == parts[..i];
        BlankIffStrip(parts[i]);
        if Strip(parts[i]) != "" {
          items := items + [Strip(parts[i])];
        }
      }
      assert parts[..|parts|] == parts;
    }

    /** Section names in file order, those that are `prefix` or start with it and a blank. */
    method SectionNames(prefix: string) returns (names: seq<string>)
      requires Valid()
      ensures names == NamesUnder(sections, prefix)
    {
      names := [];
      for i := 0 to |sections|
        invariant names == NamesUnder(sections[..i], prefix)
      {
        assert sections[..i + 1][..i] == sections[..i];
        if Under(prefix, sections[i].name) {
          names := names + [sections[i].name];
        }
      }
      assert sections[..|sections|] == sections;
    }

    // -- writing --

    /** The comments a block already carries. */
    static method Decorate(existing: seq<string>)
      returns (inline: map<string, string>, before: map<string, seq<string>>, pending: seq<string>)
      ensures Deco(inline, before, pending) == Decoration(existing)
    {
      inline, before, pending := map[], map[], [];
      if existing == [] {
        return;
      }
      for i := 1 to |existing|
        invariant Deco(inline, before, pending) == DecoOver(existing[1..i])
      {
        hide Strip, StripInline, IsComment, CommentIn;
        assert existing[1..i + 1][..i - 1] == existing[1..i];
        var raw := existing[i];
        var text := Strip(raw);
        if text == "" {
          continue;
        }
        if IsComment(raw) {
          pending := pending + [text];
          continue;
        }
        var item := StripInline(text);
        if item == "" {
          continue;
        }
        var comment := CommentIn(text);
        if comment != "" {
          inline := inline[item := comment];
        }
        if pending != [] {
          before := before[item := pending];
          pending := [];
        }
      }
      assert existing[1..|existing|] == existing[1..];
    }

    static method RenderBlock(key: string, items: seq<string>, existing: seq<string>) returns (out: seq<string>)
      ensures out == Block(key, items, Decoration(existing))
    {
      var inline, before, trailing := Decorate(existing);
      ghost var d := Deco(inline, before, trailing);
      out := [key + ":"];
      if items == [] {
        return;
      }
      for i := 0 to |items|
        invariant out == [key + ":"] + ItemLines(d, items[..i])
      {
        hide Decoration, ItemLines, WithComment, Indented;
        BlockNext(key, d, items, i);
        var item := items[i];
        out := out + Indented(if item in before then before[item] else []);
        var comment := if item in inline then inline[item] else "";
        out := out + [INDENT + WithComment(item, comment)];
      }
      assert items[..|items|] == items;
      out := out + Indented(trailing);
    }

    static method RenderOption(key: string, value: CfgRender.Value, existing: seq<string>) returns (out: seq<string>)
      ensures out == Render(key, value, existing)
    {
      match value
      case Items(items) => out := RenderBlock(key, NonBlank(items), existing);
      case Single(text) =>
        if '\n' in text {
          out := RenderBlock(key, StripAll(NonBlank(SplitLines(text))), existing);
        } else {
          out := [key + ": " + WithComment(text, KeptComment(existing))];
        }
    }

    method Splice(start: nat, end: nat, replacement: seq<string>)
      requires start <= end <= |lines| && OneLines(lines) && OneLines(replacement)
      modifies this
      ensures Valid() && lines == SpliceLines(old(lines), start, end, replacement)
      ensures CfgKeep.Exchanged(old(lines), lines, start, end, replacement)
    {
      lines := lines[..start] + replacement + lines[end..];
      Parse();
    }

    method AddSection(name: string)
      requires Valid() && OneLine(name)
      modifies this
      ensures Valid() && lines == AddSectionLines(old(lines), name)
    {
      LiveFind(CfgIndex.Parse(lines), name);
      hide CfgIndex.Parse, Live, Dups, FindSec;
      if FindSec(sections, name) < |sections| {
        return;
      }
      var block := [];
      if lines != [] && !IsBlank(Last(lines)) {
        block := block + [""];
      }
      block := block + ["[" + name + "]"];
      assert lines[..|lines|] + block + lines[|lines|..] == lines + block;
      Splice(|lines|, |lines|, block);
    }

    /** Returns false where the original raises `KeyError`: the section was added, but its
        header reads back as another name. */
    method Set(section: string, key: string, value: CfgRender.Value) returns (ok: bool)
      requires Valid() && OneLine(section) && ValidKey(key) && OneLineValue(value)
      modifies this
      ensures Valid()
      ensures lines == SetLines(old(lines), section, key, value).lines
      ensures ok == SetLines(old(lines), section, key, value).Done?
    {
      hide CfgIndex.Parse, Live, Dups, FindSec, SetIn, ValidKey, OneLineValue;
      LiveFind(CfgIndex.Parse(lines), section);
      if FindSec(sections, section) == |sections| {
        AddSection(section);
      } else {
        assert lines == AddSectionLines(lines, section);
      }
      LiveFind(CfgIndex.Parse(lines), section);
      if FindSec(sections, section) == |sections| {
        return false;
      }
      Place(section, key, value);
      ok := true;
    }

    /** The rest of `set`, in a section that is there: over the lines of the option, or after the
        last line of the section that is not blank. */
    method Place(section: string, key: string, value: CfgRender.Value)
      requires Valid() && ValidKey(key) && OneLineValue(value)
      requires FindSec(CfgIndex.Parse(lines), section) < |CfgIndex.Parse(lines)|
      modifies this
      ensures Valid()
      ensures lines == SetIn(old(lines), FindSec(CfgIndex.Parse(old(lines)), section), key, value)
    {
      hide CfgIndex.Parse, Live, Dups, FindSec, FindOpt, Render, ValidKey, OneLineValue;
      ghost var secs := CfgIndex.Parse(lines);
      LiveFind(secs, section);
      var j := FindSec(sections, section);
      ghost var raw := FindSec(secs, section);
      Spans(lines);
      LiveOptFind(secs[raw].opts, key);
      var sec := sections[j];
      var k := FindOpt(sec.opts, key);
      if k < |sec.opts| {
        var opt := sec.opts[k];
        RenderOneLine(key, value, lines[opt.start..opt.end]);
        var rendered := RenderOption(key, value, lines[opt.start..opt.end]);
        Splice(opt.start, opt.end, rendered);
      } else {
        RenderOneLine(key, value, []);
        var at := sec.end;
        while at > sec.header + 1 && IsBlank(lines[at - 1])
          invariant sec.header < at <= sec.end
          invariant InsertAt(lines, sec.header, sec.end) == InsertAt(lines, sec.header, at)
        {
          at := at - 1;
        }
        var rendered := RenderOption(key, value, []);
        Splice(at, at, rendered);
      }
    }

    method RemoveOption(section: string, key: string) returns (removed: bool)
      requires Valid()
      modifies this
      ensures Valid() && lines == RemoveOptionLines(old(lines), section, key)
      ensures CfgKeep.OptionTaken(old(lines), lines, section, key)
      ensures removed == ValueAt(TableOf(old(lines)), section, key).Some?
    {
      CfgKeep.RemoveOptionExactly(lines, section, key);
      hide CfgKeep.OptionTaken;
      ghost var secs := CfgIndex.Parse(lines);
      LookupAgrees(secs, section, key);
      LiveFind(secs, section);
      Spans(lines);
      hide CfgIndex.Parse, Live, Dups, CfgTable.ValueAt;
      var j := FindSec(sections, section);
      if j == |sections| {
        return false;
      }
      ghost var raw := FindSec(secs, section);
      LiveOptFind(secs[raw].opts, key);
      var k := FindOpt(sections[j].opts, key);
      if k == |sections[j].opts| {
        return false;
      }
      var opt := sections[j].opts[k];
      Splice(opt.start, opt.end, []);
      removed := true;
    }

    method RemoveSection(name: string) returns (removed: bool)
      requires Valid()
      modifies this
      ensures Valid() && lines == RemoveSectionLines(old(lines), name)
      ensures CfgKeep.SectionTaken(old(lines), lines, name)
      ensures removed <==> FindRow(TableOf(old(lines)), name) < |TableOf(old(lines))|
    {
      CfgKeep.RemoveSectionExactly(lines, name);
      hide CfgKeep.SectionTaken;
      LiveFind(CfgIndex.Parse(lines), name);
      FindsAgree(CfgIndex.Parse(lines), name);
      Spans(lines);
      hide CfgIndex.Parse, Live, Dups;
      var j := FindSec(sections, name);
      if j == |sections| {
        return false;
      }
      var end := sections[j].end;
      if end < |lines| && IsBlank(lines[end]) {
        end := end + 1;
      }
      Splice(sections[j].header, end, []);
      removed := true;
    }

    // -- output --

    method RenderDocument() returns (text: string)
      requires Valid()
      ensures text == RenderText(lines)
    {
      text := JoinLines(lines);
      if text != "" && text[|text| - 1] != '\n' {
        text := text + "\n";
      }
    }
  }
}
