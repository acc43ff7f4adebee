/** The table of sections, keys and values a document stands for. Every edit of the lines is the obvious
    edit of this table: putting a value, dropping a key, adding or dropping a row. A table keeps repeated
    names and keys, in file order, and a search finds the first; so what an edit does with repetitions is
    part of what is proved. Positions are gone, and with them everything that shifts: from here on, laws
    about documents are laws about tables. */
module CfgTable {
  import opened Text
  import opened CfgLine
  import opened CfgIndex
  import opened CfgLocality
  import opened CfgRender
  import opened CfgEdit

  type Pair = (string, string)

  /** One section: its name, and its keys with their values in file order. */
  datatype Row = Row(name: string, opts: seq<Pair>)

  type Table = seq<Row>

  function Pairs(opts: seq<Opt>): (r: seq<Pair>)
    ensures |r| == |opts|
    ensures forall i :: 0 <= i < |r| ==> r[i] == (opts[i].key, opts[i].value)
  {
    seq(|opts|, i requires 0 <= i < |opts| => (opts[i].key, opts[i].value))
  }

  function View(secs: seq<Sec>): (r: Table)
    ensures |r| == |secs|
    ensures forall i :: 0 <= i < |r| ==> r[i] == Row(secs[i].name, Pairs(secs[i].opts))
  {
    seq(|secs|, i requires 0 <= i < |secs| => Row(secs[i].name, Pairs(secs[i].opts)))
  }

  function TableOf(lines: seq<string>): Table {
    View(Parse(lines))
  }

  function FindRow(t: Table, name: string): (j: nat)
    ensures j <= |t|
    ensures j < |t| ==> t[j].name == name
    ensures forall i :: 0 <= i < j ==> t[i].name != name
  {
    if t == [] || t[0].name == name then 0 else 1 + FindRow(t[1..], name)
  }

  function FindKey(opts: seq<Pair>, key: string): (k: nat)
    ensures k <= |opts|
    ensures k < |opts| ==> opts[k].0 == key
    ensures forall i :: 0 <= i < k ==> opts[i].0 != key
  {
    if opts == [] || opts[0].0 == key then 0 else 1 + FindKey(opts[1..], key)
  }

  function PairValue(opts: seq<Pair>, key: string): Maybe<string> {
    var k := FindKey(opts, key);
    if k == |opts| then None else Some(opts[k].1)
  }

  function ValueAt(t: Table, name: string, key: string): Maybe<string> {
    var j := FindRow(t, name);
    if j == |t| then None else PairValue(t[j].opts, key)
  }

  function PutKey(opts: seq<Pair>, key: string, value: string): seq<Pair> {
    var k := FindKey(opts, key);
    if k == |opts| then opts + [(key, value)] else opts[k := (key, value)]
  }

  function DropKey(opts: seq<Pair>, key: string): seq<Pair> {
    var k := FindKey(opts, key);
    if k == |opts| then opts else opts[..k] + opts[k + 1..]
  }

  function Put(t: Table, name: string, key: string, value: string): Table {
    var j := FindRow(t, name);
    if j == |t| then t + [Row(name, [(key, value)])]
    else t[j := Row(name, PutKey(t[j].opts, key, value))]
  }

  function Drop(t: Table, name: string, key: string): Table {
    var j := FindRow(t, name);
    if j == |t| then t else t[j := Row(name, DropKey(t[j].opts, key))]
  }

  function DropRow(t: Table, name: string): Table {
    var j := FindRow(t, name);
    if j == |t| then t else t[..j] + t[j + 1..]
  }

  // ---- the index and the table find the same things ----

  lemma {:induction false} FindsAgree(secs: seq<Sec>, name: string)
    ensures FindRow(View(secs), name) == FindSec(secs, name)
  {
    assert forall i :: 0 <= i < |secs| ==> View(secs)[i].name == secs[i].name;
  }

  lemma {:induction false} FindKeysAgree(opts: seq<Opt>, key: string)
    ensures FindKey(Pairs(opts), key) == FindOpt(opts, key)
  {
    assert forall i :: 0 <= i < |opts| ==> Pairs(opts)[i].0 == opts[i].key;
  }

  lemma LookupAgrees(secs: seq<Sec>, name: string, key: string)
    ensures Lookup(secs, name, key) == ValueAt(View(secs), name, key)
  {
    FindsAgree(secs, name);
    var j := FindSec(secs, name);
    if j < |secs| {
      FindKeysAgree(secs[j].opts, key);
    }
  }

  lemma ViewConcat(a: seq<Sec>, b: seq<Sec>)
    ensures View(a + b) == View(a) + View(b)
  {
  }

  lemma ViewShift(secs: seq<Sec>, d: int)
    ensures View(ShiftSecs(secs, d)) == View(secs)
  {
    var a, b := View(ShiftSecs(secs, d)), View(secs);
    forall i | 0 <= i < |secs| ensures a[i] == b[i] {
      assert Pairs(ShiftOpts(secs[i].opts, d)) == Pairs(secs[i].opts);
    }
  }

  lemma ViewSpliced(secs: seq<Sec>, j: nat, k: nat, m: nat, opts: seq<Opt>, d: int)
    requires j < |secs| && k + m <= |secs[j].opts|
    ensures var p := Pairs(secs[j].opts);
            View(Spliced(secs, j, k, m, opts, d))
            == View(secs)[j := Row(secs[j].name, p[..k] + Pairs(opts) + p[k + m..])]
  {
    var s := secs[j];
    var edited := s.opts[..k] + opts + ShiftOpts(s.opts[k + m..], d);
    assert Pairs(edited) == Pairs(s.opts)[..k] + Pairs(opts) + Pairs(s.opts)[k + m..];
    ViewShift(secs[j + 1..], d);
    var a, b := View(Spliced(secs, j, k, m, opts, d)),
                View(secs)[j := Row(s.name, Pairs(edited))];
    assert |a| == |b|;
    forall i | 0 <= i < |a| ensures a[i] == b[i] {
      if i > j {
        assert a[i] == View(ShiftSecs(secs[j + 1..], d))[i - j - 1];
      }
    }
  }

  // ---- each edit of the lines is the edit of the table ----

  /** The value `set` leaves in the file: what the rendered lines are read as. */
  function Written(lines: seq<string>, name: string, key: string, value: CfgRender.Value): string
    requires ValidKey(key)
    requires OneLines(lines)
  {
    var j := FindSec(Parse(lines), name);
    Spans(lines);
    var existing := if j == |Parse(lines)| then [] else ExistingLines(lines, j, key);
    RenderIsBlock(key, value, existing);
    BlockValue(Render(key, value, existing))
  }

  lemma {:induction false} SetInRefines(lines: seq<string>, name: string, key: string, value: CfgRender.Value)
    requires OneLines(lines) && ValidKey(key)
    requires FindSec(Parse(lines), name) < |Parse(lines)|
    ensures TableOf(SetIn(lines, FindSec(Parse(lines), name), key, value))
            == Put(TableOf(lines), name, key, Written(lines, name, key, value))
  {
    hide Parse, BlockValue, Classify, Spliced, SpliceLines, Render, IsBlock;
    var secs, j := Parse(lines), FindSec(Parse(lines), name);
    Spans(lines);
    FindsAgree(secs, name);
    FindKeysAgree(secs[j].opts, key);
    var existing := ExistingLines(lines, j, key);
    RenderIsBlock(key, value, existing);
    if FindOpt(secs[j].opts, key) < |secs[j].opts| {
      ReplaceRefines(lines, j, FindOpt(secs[j].opts, key), Render(key, value, existing));
    } else {
      InsertRefines(lines, j, Render(key, value, existing));
    }
  }

  lemma {:induction false} NewPair(block: seq<string>, start: int)
    requires IsBlock(block)
    ensures block != [] && |NewOpts(block, start)| == 1 && Classify(block[0]).Start?
    ensures Pairs(NewOpts(block, start)) == [(Classify(block[0]).key, BlockValue(block))]
  {
    hide Classify, BlockValue;
  }

  lemma ReplaceOne<T>(s: seq<T>, k: nat, x: T)
    requires k < |s|
    ensures s[..k] + [x] + s[k + 1..] == s[k := x]
  {
  }

  lemma {:induction false} ReplaceRefines(lines: seq<string>, j: nat, k: nat, block: seq<string>)
    requires j < |Parse(lines)| && k < |Parse(lines)[j].opts| && IsBlock(block)
    ensures block != []
    ensures var o := Parse(lines)[j].opts[k];
            && 0 <= o.start <= o.end <= |lines|
            && TableOf(SpliceLines(lines, o.start, o.end, block))
               == TableOf(lines)[j := Row(Parse(lines)[j].name,
                    Pairs(Parse(lines)[j].opts)[k := (Classify(block[0]).key, BlockValue(block))])]
  {
    hide Parse, BlockValue, Classify, Spliced, SpliceLines, IsBlock, NewOpts, Pairs, View, TableOf;
    var secs, o := Parse(lines), Parse(lines)[j].opts[k];
    SpliceOption(lines, j, k, block);
    NewPair(block, o.start);
    ViewSpliced(secs, j, k, 1, NewOpts(block, o.start), |block| - (o.end - o.start));
    ReplaceOne(Pairs(secs[j].opts), k, (Classify(block[0]).key, BlockValue(block)));
    TableIs(lines);
    TableIs(SpliceLines(lines, o.start, o.end, block));
  }

  lemma TableIs(lines: seq<string>)
    ensures TableOf(lines) == View(Parse(lines))
  {
  }

  lemma {:induction false} InsertRefines(lines: seq<string>, j: nat, block: seq<string>)
    requires j < |Parse(lines)| && IsBlock(block)
    ensures block != []
    ensures 0 <= Parse(lines)[j].header < Parse(lines)[j].end <= |lines|
    ensures var at := InsertAt(lines, Parse(lines)[j].header, Parse(lines)[j].end);
            TableOf(SpliceLines(lines, at, at, block))
            == TableOf(lines)[j := Row(Parse(lines)[j].name,
                 Pairs(Parse(lines)[j].opts) + [(Classify(block[0]).key, BlockValue(block))])]
  {
    hide Parse, BlockValue, Classify, Spliced, SpliceLines, IsBlock, NewOpts, Pairs, View, TableOf;
    var secs := Parse(lines);
    Spans(lines);
    var at := InsertAt(lines, secs[j].header, secs[j].end);
    SpliceInsert(lines, j, at, block);
    NewPair(block, at);
    var p := Pairs(secs[j].opts);
    ViewSpliced(secs, j, |p|, 0, NewOpts(block, at), |block|);
    assert p[..|p|] + [(Classify(block[0]).key, BlockValue(block))] + p[|p|..]
        == p + [(Classify(block[0]).key, BlockValue(block))];
    TableIs(lines);
    TableIs(SpliceLines(lines, at, at, block));
  }

  lemma {:induction false} AddSectionRefines(lines: seq<string>, name: string)
    requires ValidName(name) && OneLines(lines)
    ensures OneLines(AddSectionLines(lines, name))
    ensures TableOf(AddSectionLines(lines, name))
            == (if FindRow(TableOf(lines), name) < |TableOf(lines)| then TableOf(lines)
                else TableOf(lines) + [Row(name, [])])
  {
    hide Parse, View, FindSec, FindRow;
    FindsAgree(Parse(lines), name);
    AddedOneLines(lines, name);
    if FindSec(Parse(lines), name) == |Parse(lines)| {
      AddSectionLocality(lines, name);
      ViewOfAdded(Parse(lines), Parse(AddSectionLines(lines, name)), name);
    }
  }

  lemma AddedOneLines(lines: seq<string>, name: string)
    requires ValidName(name) && OneLines(lines)
    ensures OneLines(AddSectionLines(lines, name))
  {
    hide Parse;
  }

  lemma ViewOfAdded(secs: seq<Sec>, secs': seq<Sec>, name: string)
    requires |secs'| == |secs| + 1 && secs'[|secs|].name == name && secs'[|secs|].opts == []
    requires forall j :: 0 <= j < |secs| ==> secs'[j] == secs[j].(end := secs'[j].end)
    ensures View(secs') == View(secs) + [Row(name, [])]
  {
  }

  /** Setting a key changes that one entry of the table, creating its section if needed. */
  lemma SetRefines(lines: seq<string>, name: string, key: string, value: CfgRender.Value)
    requires OneLines(lines) && ValidKey(key) && ValidName(name)
    ensures SetLines(lines, name, key, value).Done?
    ensures TableOf(SetLines(lines, name, key, value).lines)
            == Put(TableOf(lines), name, key, Written(AddSectionLines(lines, name), name, key, value))
  {
    hide Parse, SetIn, Written, FindSec, FindRow;
    var lines1 := AddSectionLines(lines, name);
    AddSectionRefines(lines, name);
    FindsAgree(Parse(lines), name);
    FindsAgree(Parse(lines1), name);
    var t, t1 := TableOf(lines), TableOf(lines1);
    var j := FindRow(t1, name);
    var written := Written(lines1, name, key, value);
    if FindRow(t, name) == |t| {
      AppendedRow(t, name, key, written);
    }
    hide Put;
    SetInRefines(lines1, name, key, value);
  }

  lemma {:induction false} AppendedRow(t: Table, name: string, key: string, value: string)
    requires FindRow(t, name) == |t|
    ensures FindRow(t + [Row(name, [])], name) == |t|
    ensures Put(t + [Row(name, [])], name, key, value) == Put(t, name, key, value)
  {
    var t1 := t + [Row(name, [])];
    var j := FindRow(t1, name);
    assert forall i :: 0 <= i < |t| ==> t1[i] == t[i];
    assert j >= |t|;
    assert t1[|t|] == Row(name, []);
    assert PutKey([], key, value) == [(key, value)];
  }

  /** A clean value is what is written. */
  lemma WrittenClean(lines: seq<string>, name: string, key: string, value: CfgRender.Value)
    requires ValidKey(key) && OneLines(lines) && CleanValue(value)
    ensures Written(lines, name, key, value) == ReadBack(value)
  {
    var j := FindSec(Parse(lines), name);
    Spans(lines);
    var existing := if j == |Parse(lines)| then [] else ExistingLines(lines, j, key);
    hide Parse, BlockValue, Render, IsBlock;
    RenderValue(key, value, existing);
  }

  /** Removing an option removes the first entry with that key and nothing else. */
  lemma RemoveRefines(lines: seq<string>, name: string, key: string)
    ensures TableOf(RemoveOptionLines(lines, name, key)) == Drop(TableOf(lines), name, key)
  {
    hide Parse, Spliced, SpliceLines, FindSec, FindRow, FindOpt, FindKey;
    var secs, j := Parse(lines), FindSec(Parse(lines), name);
    Spans(lines);
    FindsAgree(secs, name);
    if j < |secs| {
      var s := secs[j];
      FindKeysAgree(s.opts, key);
      var k := FindOpt(s.opts, key);
      if k < |s.opts| {
        CutRefines(lines, j, k);
      } else {
        assert View(secs)[j := View(secs)[j]] == View(secs);
      }
    }
  }

  lemma CutRefines(lines: seq<string>, j: nat, k: nat)
    requires j < |Parse(lines)| && k < |Parse(lines)[j].opts|
    ensures var o := Parse(lines)[j].opts[k];
            var p := Pairs(Parse(lines)[j].opts);
            && 0 <= o.start <= o.end <= |lines|
            && TableOf(SpliceLines(lines, o.start, o.end, []))
               == TableOf(lines)[j := Row(Parse(lines)[j].name, p[..k] + p[k + 1..])]
  {
    hide Parse, Spliced, SpliceLines, View, TableOf;
    var secs, o := Parse(lines), Parse(lines)[j].opts[k];
    SpliceOption(lines, j, k, []);
    ViewSpliced(secs, j, k, 1, [], o.start - o.end);
    assert Pairs([]) == [];
    var p := Pairs(secs[j].opts);
    hide Pairs;
    assert p[..k] + [] + p[k + 1..] == p[..k] + p[k + 1..];
    TableIs(lines);
    TableIs(SpliceLines(lines, o.start, o.end, []));
  }

  /** Removing a section removes its first copy and nothing else. */
  lemma RemoveSectionRefines(lines: seq<string>, name: string)
    ensures TableOf(RemoveSectionLines(lines, name)) == DropRow(TableOf(lines), name)
  {
    hide Parse, RemoveSectionLines, ShiftSecs, View;
    var secs, j := Parse(lines), FindSec(Parse(lines), name);
    RemoveSectionLocality(lines, name);
    FindsAgree(secs, name);
    hide FindSec, FindRow;
    if j < |secs| {
      var d := secs[j].header - secs[j].end;
      ViewShift(secs[j + 1..], d);
      ViewConcat(secs[..j], ShiftSecs(secs[j + 1..], d));
      ViewParts(secs, j);
    }
  }

  lemma ViewParts(secs: seq<Sec>, j: nat)
    requires j < |secs|
    ensures View(secs)[..j] == View(secs[..j]) && View(secs)[j + 1..] == View(secs[j + 1..])
  {
  }

  // ---- the lines stay lines ----

  predicate OneLineValue(value: CfgRender.Value) {
    value.Items? ==> forall i :: 0 <= i < |value.items| ==> OneLine(value.items[i])
  }

  lemma {:induction false} ItemLinesOneLine(d: Deco, items: seq<string>)
    requires CommentTexts(d) && forall i :: 0 <= i < |items| ==> OneLine(items[i])
    ensures OneLines(ItemLines(d, items))
    decreases |items|
  {
    if items != [] {
      var item := items[|items| - 1];
      ItemLinesOneLine(d, items[..|items| - 1]);
      LookupTexts(d, item);
      IndentedComments(CommentsBefore(d, item));
    }
  }

  lemma BlockOneLine(key: string, items: seq<string>, d: Deco)
    requires ValidKey(key) && CommentTexts(d) && forall i :: 0 <= i < |items| ==> OneLine(items[i])
    ensures OneLines(Block(key, items, d))
  {
    ItemLinesOneLine(d, items);
    IndentedComments(d.pending);
    hide CommentTexts, ItemLines;
  }

  lemma {:induction false} StrippedOneLine(text: string)
    ensures OneLines(StripAll(NonBlank(SplitLines(text))))
  {
    var parts := NonBlank(SplitLines(text));
    NonBlankItems(SplitLines(text));
    forall i | 0 <= i < |parts| ensures OneLine(StripAll(parts)[i]) {
      assert parts[i] in SplitLines(text);
      StripIdempotent(parts[i]);
    }
  }

  lemma RenderOneLine(key: string, value: CfgRender.Value, existing: seq<string>)
    requires ValidKey(key) && OneLineValue(value) && OneLines(existing)
    ensures OneLines(Render(key, value, existing))
  {
    DecorationTexts(existing);
    hide Decoration, CommentTexts, Block, SplitLines;
    match value
    case Items(items) =>
      NonBlankItems(items);
      forall i | 0 <= i < |NonBlank(items)| ensures OneLine(NonBlank(items)[i]) {
        assert NonBlank(items)[i] in items;
      }
      BlockOneLine(key, NonBlank(items), Decoration(existing));
    case Single(text) =>
      if '\n' in text {
        StrippedOneLine(text);
        BlockOneLine(key, StripAll(NonBlank(SplitLines(text))), Decoration(existing));
      } else {
        KeptCommentText(existing);
      }
  }

  lemma SetOneLines(lines: seq<string>, name: string, key: string, value: CfgRender.Value)
    requires OneLines(lines) && ValidKey(key) && ValidName(name) && OneLineValue(value)
    ensures OneLines(SetLines(lines, name, key, value).lines)
  {
    hide Parse, Render, ValidKey, SetIn, OneLines, FindSec, AddSectionLines;
    var lines1 := AddSectionLines(lines, name);
    AddedOneLines(lines, name);
    var j := FindSec(Parse(lines1), name);
    if j < |Parse(lines1)| {
      SetInOneLines(lines1, j, key, value);
    }
  }

  lemma SetInOneLines(lines: seq<string>, j: nat, key: string, value: CfgRender.Value)
    requires OneLines(lines) && ValidKey(key) && OneLineValue(value) && j < |Parse(lines)|
    ensures OneLines(SetIn(lines, j, key, value))
  {
    hide Parse, Render, ValidKey, OneLineValue;
    Spans(lines);
    assert OneLines(ExistingLines(lines, j, key));
    RenderOneLine(key, value, ExistingLines(lines, j, key));
    RenderOneLine(key, value, []);
  }
}
