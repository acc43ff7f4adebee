/** What a caller of the document may rely on. */
module CfgLaws {
  import opened Text
  import opened CfgLine
  import opened CfgIndex
  import opened CfgLocality
  import opened CfgRender
  import opened CfgComments
  import opened CfgEdit
  import opened CfgTable

  // ---- the table ----

  /** The value of the second entry with this key. */
  function SecondValue(opts: seq<Pair>, key: string): Maybe<string> {
    var k := FindKey(opts, key);
    if k == |opts| then None else PairValue(opts[k + 1..], key)
  }

  lemma {:induction false} FindKeyConcat(a: seq<Pair>, b: seq<Pair>, key: string)
    ensures FindKey(a + b, key) == if FindKey(a, key) < |a| then FindKey(a, key) else |a| + FindKey(b, key)
  {
    var all := a + b;
    assert forall i :: 0 <= i < |a| ==> all[i] == a[i];
    assert forall i :: 0 <= i < |b| ==> all[|a| + i] == b[i];
    var k := FindKey(all, key);
    if FindKey(a, key) == |a| && k < |all| {
      assert all[k] == b[k - |a|];
    }
  }

  lemma PairValueConcat(a: seq<Pair>, b: seq<Pair>, key: string)
    ensures PairValue(a + b, key) == if PairValue(a, key).Some? then PairValue(a, key) else PairValue(b, key)
  {
    FindKeyConcat(a, b, key);
  }

  lemma PairValueOne(p: Pair, key: string)
    ensures PairValue([p], key) == if p.0 == key then Some(p.1) else None
  {
  }

  /** Entries around the first one with a key. */
  lemma {:induction false} AtKey(opts: seq<Pair>, key: string)
    requires FindKey(opts, key) < |opts|
    ensures var k := FindKey(opts, key);
            && opts == opts[..k] + ([opts[k]] + opts[k + 1..]) && opts[k].0 == key
            && PairValue(opts[..k], key) == None
  {
    var k := FindKey(opts, key);
    assert forall i :: 0 <= i < k ==> opts[..k][i] == opts[i];
  }

  lemma PutKeyValues(opts: seq<Pair>, key: string, value: string, other: string)
    ensures PairValue(PutKey(opts, key, value), other) == if other == key then Some(value) else PairValue(opts, other)
  {
    var k := FindKey(opts, key);
    PairValueOne((key, value), other);
    if k == |opts| {
      PairValueConcat(opts, [(key, value)], other);
    } else {
      AtKey(opts, key);
      var a, b := opts[..k], opts[k + 1..];
      assert PutKey(opts, key, value) == a + ([(key, value)] + b);
      hide FindKey, PairValue;
      PairValueOne(opts[k], other);
      PairValueConcat(a, [opts[k]] + b, other);
      PairValueConcat([opts[k]], b, other);
      PairValueConcat(a, [(key, value)] + b, other);
      PairValueConcat([(key, value)], b, other);
    }
  }

  lemma DropKeyValues(opts: seq<Pair>, key: string, other: string)
    ensures PairValue(DropKey(opts, key), other)
            == if other == key then SecondValue(opts, key) else PairValue(opts, other)
  {
    var k := FindKey(opts, key);
    if k < |opts| {
      AtKey(opts, key);
      var a, b := opts[..k], opts[k + 1..];
      PairValueOne(opts[k], other);
      PairValueConcat(a, b, other);
      PairValueConcat(a, [opts[k]] + b, other);
      PairValueConcat([opts[k]], b, other);
    }
  }

  lemma {:induction false} FindRowConcat(a: Table, b: Table, name: string)
    ensures FindRow(a + b, name) == if FindRow(a, name) < |a| then FindRow(a, name) else |a| + FindRow(b, name)
  {
    var all := a + b;
    assert forall i :: 0 <= i < |a| ==> all[i] == a[i];
    assert forall i :: 0 <= i < |b| ==> all[|a| + i] == b[i];
    var k := FindRow(all, name);
    if FindRow(a, name) == |a| && k < |all| {
      assert all[k] == b[k - |a|];
    }
  }

  lemma FindRowUpdate(t: Table, j: nat, row: Row, name: string)
    requires j < |t| && row.name == t[j].name
    ensures FindRow(t[j := row], name) == FindRow(t, name)
  {
    var t' := t[j := row];
    assert forall i :: 0 <= i < |t| ==> t'[i].name == t[i].name;
  }

  lemma PutValues(t: Table, name: string, key: string, value: string, name': string, key': string)
    ensures ValueAt(Put(t, name, key, value), name', key')
            == if name' == name && key' == key then Some(value) else ValueAt(t, name', key')
  {
    var j := FindRow(t, name);
    if j == |t| {
      FindRowConcat(t, [Row(name, [(key, value)])], name');
      PutKeyValues([], key, value, key');
    } else {
      FindRowUpdate(t, j, Row(name, PutKey(t[j].opts, key, value)), name');
      PutKeyValues(t[j].opts, key, value, key');
    }
  }

  lemma {:induction false} DropValues(t: Table, name: string, key: string, name': string, key': string)
    ensures ValueAt(Drop(t, name, key), name', key')
            == if name' == name && key' == key && FindRow(t, name) < |t|
               then SecondValue(t[FindRow(t, name)].opts, key) else ValueAt(t, name', key')
  {
    var j := FindRow(t, name);
    if j < |t| {
      FindRowUpdate(t, j, Row(name, DropKey(t[j].opts, key)), name');
      DropKeyValues(t[j].opts, key, key');
    }
  }

  // ---- set and get ----

  /** After a clean value is set, it is what is read, and every other key of every section
      reads as before. */
  lemma SetGet(lines: seq<string>, name: string, key: string, value: Value, name': string, key': string)
    requires OneLines(lines) && ValidKey(key) && ValidName(name) && CleanValue(value)
    ensures SetLines(lines, name, key, value).Done?
    ensures ValueAt(TableOf(SetLines(lines, name, key, value).lines), name', key')
            == if name' == name && key' == key then Some(ReadBack(value)) else ValueAt(TableOf(lines), name', key')
  {
    hide TableOf, SetLines, Written, AddSectionLines, Put, ValueAt, ValidKey, CleanValue;
    AddSectionRefines(lines, name);
    SetRefines(lines, name, key, value);
    WrittenClean(AddSectionLines(lines, name), name, key, value);
    PutValues(TableOf(lines), name, key, ReadBack(value), name', key');
  }

  /** A removed key is gone exactly when it stood only once in its section; otherwise the
      next one with that key comes to light. Every other key reads as before. */
  lemma {:induction false} RemoveGet(lines: seq<string>, name: string, key: string, name': string, key': string)
    ensures var t, t' := TableOf(lines), TableOf(RemoveOptionLines(lines, name, key));
            && (!(name' == name && key' == key) ==> ValueAt(t', name', key') == ValueAt(t, name', key'))
            && (ValueAt(t', name, key) ==
                if FindRow(t, name) == |t| then None else SecondValue(t[FindRow(t, name)].opts, key))
  {
    hide TableOf, RemoveOptionLines, Drop, ValueAt, SecondValue;
    RemoveRefines(lines, name, key);
    DropValues(TableOf(lines), name, key, name', key');
    DropValues(TableOf(lines), name, key, name, key);
    assert FindRow(TableOf(lines), name) == |TableOf(lines)| ==> ValueAt(TableOf(lines), name, key) == None by {
      NoRowNoValue(TableOf(lines), name, key);
    }
  }

  lemma {:induction false} NoRowNoValue(t: Table, name: string, key: string)
    ensures FindRow(t, name) == |t| ==> ValueAt(t, name, key) == None
  {
  }

  // ---- writing twice ----

  /** Where an edit of a key lands: the span of lines it exchanges. */
  function EditStart(lines: seq<string>, j: nat, key: string): (e: nat)
    requires j < |Parse(lines)|
    ensures e <= |lines|
  {
    Spans(lines);
    var s := Parse(lines)[j];
    var k := FindOpt(s.opts, key);
    if k < |s.opts| then s.opts[k].start else InsertAt(lines, s.header, s.end)
  }

  function EditEnd(lines: seq<string>, j: nat, key: string): (e: nat)
    requires j < |Parse(lines)|
    ensures EditStart(lines, j, key) <= e <= |lines|
  {
    Spans(lines);
    var s := Parse(lines)[j];
    var k := FindOpt(s.opts, key);
    if k < |s.opts| then s.opts[k].end else InsertAt(lines, s.header, s.end)
  }

  lemma SetInSplices(lines: seq<string>, j: nat, key: string, value: Value)
    requires j < |Parse(lines)|
    ensures var existing := ExistingLines(lines, j, key);
            SetIn(lines, j, key, value)
            == SpliceLines(lines, EditStart(lines, j, key), EditEnd(lines, j, key), Render(key, value, existing))
  {
    hide Parse, Render;
  }

  /** The index after an edit: option `k` exchanged, or a new last option. */
  lemma {:induction false} EditIndex(lines: seq<string>, j: nat, key: string, block: seq<string>)
    requires j < |Parse(lines)| && IsBlock(block)
    ensures var s := Parse(lines)[j];
            var k := FindOpt(s.opts, key);
            var m := if k < |s.opts| then 1 else 0;
            var e0, e1 := EditStart(lines, j, key), EditEnd(lines, j, key);
            Parse(SpliceLines(lines, e0, e1, block))
            == Spliced(Parse(lines), j, k, m, [OptOf(block, e0)], |block| - (e1 - e0))
  {
    Spans(lines);
    hide Parse, BlockValue, Classify, Spliced, SpliceLines, InsertAt, IsContinuation;
    var s := Parse(lines)[j];
    var k := FindOpt(s.opts, key);
    if k < |s.opts| {
      SpliceOption(lines, j, k, block);
    } else {
      SpliceInsert(lines, j, EditStart(lines, j, key), block);
    }
  }

  /** After an edit the same section is found, and in it the key, occupying exactly the
      lines just written. */
  lemma {:induction false} FoundAgain(lines: seq<string>, name: string, key: string, block: seq<string>)
    requires FindSec(Parse(lines), name) < |Parse(lines)|
    requires IsBlock(block) && Classify(block[0]).key == key
    ensures var j := FindSec(Parse(lines), name);
            var e0, e1 := EditStart(lines, j, key), EditEnd(lines, j, key);
            var lines' := SpliceLines(lines, e0, e1, block);
            && FindSec(Parse(lines'), name) == j < |Parse(lines')|
            && EditStart(lines', j, key) == e0 && EditEnd(lines', j, key) == e0 + |block|
            && ExistingLines(lines', j, key) == block
  {
    hide Parse, BlockValue, Classify, Spliced, SpliceLines, IsBlock,
         FindSec, FindOpt, EditStart, EditEnd, ExistingLines;
    var secs, j := Parse(lines), FindSec(Parse(lines), name);
    var k := FindOpt(secs[j].opts, key);
    var e0, e1 := EditStart(lines, j, key), EditEnd(lines, j, key);
    EditIndex(lines, j, key, block);
    SplicedFound(secs, name, k, if k < |secs[j].opts| then 1 else 0, OptOf(block, e0), |block| - (e1 - e0), key);
    SpliceHere(lines, e0, e1, block);
    EditHere(SpliceLines(lines, e0, e1, block), j, key, OptOf(block, e0));
  }

  lemma SpliceHere(lines: seq<string>, e0: nat, e1: nat, block: seq<string>)
    requires e0 <= e1 <= |lines|
    ensures var lines' := SpliceLines(lines, e0, e1, block);
            && e0 + |block| <= |lines'| && lines'[e0..e0 + |block|] == block
  {
  }

  lemma {:induction false} EditHere(lines: seq<string>, j: nat, key: string, o: Opt)
    requires j < |Parse(lines)|
    requires FindOpt(Parse(lines)[j].opts, key) < |Parse(lines)[j].opts|
    requires Parse(lines)[j].opts[FindOpt(Parse(lines)[j].opts, key)] == o
    ensures 0 <= o.start <= o.end <= |lines|
    ensures EditStart(lines, j, key) == o.start && EditEnd(lines, j, key) == o.end
    ensures ExistingLines(lines, j, key) == lines[o.start..o.end]
  {
    Spans(lines);
    hide Parse;
  }

  lemma {:induction false} SplicedFound(secs: seq<Sec>, name: string, k: nat, m: nat, o: Opt, d: int, key: string)
    requires FindSec(secs, name) < |secs|
    requires var s := secs[FindSec(secs, name)]; k == FindOpt(s.opts, key) && k + m <= |s.opts|
    requires o.key == key
    ensures var j := FindSec(secs, name);
            var secs' := Spliced(secs, j, k, m, [o], d);
            && FindSec(secs', name) == j < |secs'|
            && FindOpt(secs'[j].opts, key) == k < |secs'[j].opts| && secs'[j].opts[k] == o
  {
    var j := FindSec(secs, name);
    var secs' := Spliced(secs, j, k, m, [o], d);
    assert forall i :: 0 <= i < j ==> secs'[i] == secs[i];
    assert secs'[j].name == name;
    var opts' := secs'[j].opts;
    assert opts'[k] == o;
    assert forall i :: 0 <= i < k ==> opts'[i] == secs[j].opts[i];
  }

  /** Replacing a span by other lines changes the document. */
  lemma SpliceAgain(lines: seq<string>, e0: nat, e1: nat, block: seq<string>, block': seq<string>)
    requires e0 <= e1 <= |lines|
    ensures var once := SpliceLines(lines, e0, e1, block);
            && e0 + |block| <= |once|
            && (SpliceLines(once, e0, e0 + |block|, block') == once <==> block' == block)
  {
    var once := SpliceLines(lines, e0, e1, block);
    var twice := SpliceLines(once, e0, e0 + |block|, block');
    assert once[..e0] == lines[..e0] && once[e0 + |block|..] == lines[e1..];
    assert once[e0..e0 + |block|] == block;
    if twice == once {
      assert twice[e0..e0 + |block'|] == block';
    }
  }

  lemma {:induction false} SetInTwice(lines: seq<string>, name: string, key: string, value: Value)
    requires OneLines(lines) && ValidKey(key) && FindSec(Parse(lines), name) < |Parse(lines)|
    ensures var j := FindSec(Parse(lines), name);
            var existing := ExistingLines(lines, j, key);
            var once, block := SetIn(lines, j, key, value), Render(key, value, existing);
            && FindSec(Parse(once), name) == j < |Parse(once)|
            && (SetIn(once, j, key, value) == once <==> Render(key, value, block) == block)
  {
    hide Parse, Render, ExistingLines, EditStart, EditEnd, SetIn, IsBlock, Classify, SpliceLines;
    var j := FindSec(Parse(lines), name);
    var existing := ExistingLines(lines, j, key);
    ExistingOneLines(lines, j, key);
    var block := Render(key, value, existing);
    RenderIsBlock(key, value, existing);
    SetInSplices(lines, j, key, value);
    FoundAgain(lines, name, key, block);
    var once := SetIn(lines, j, key, value);
    SetInSplices(once, j, key, value);
    SpliceAgain(lines, EditStart(lines, j, key), EditEnd(lines, j, key), block, Render(key, value, block));
  }

  lemma ExistingOneLines(lines: seq<string>, j: nat, key: string)
    requires OneLines(lines) && j < |Parse(lines)|
    ensures OneLines(ExistingLines(lines, j, key))
  {
    Spans(lines);
    hide Parse;
  }

  /** Setting the same clean list twice leaves the same lines as setting it once. */
  lemma SetListTwice(lines: seq<string>, name: string, key: string, items: seq<string>)
    requires OneLines(lines) && ValidKey(key) && ValidName(name) && CleanItems(items)
    ensures var once := SetLines(lines, name, key, Items(items));
            && once.Done?
            && SetLines(once.lines, name, key, Items(items)) == once
  {
    hide Parse, Render, ExistingLines, SetIn, CleanItems, ValidKey, ValidName;
    var lines1 := AddSectionLines(lines, name);
    AddSectionRefines(lines, name);
    AddedFound(lines, name);
    var j := FindSec(Parse(lines1), name);
    ExistingOneLines(lines1, j, key);
    ListIdempotent(key, items, ExistingLines(lines1, j, key));
    SetInTwice(lines1, name, key, Items(items));
  }

  lemma {:induction false} AddedFound(lines: seq<string>, name: string)
    requires OneLines(lines) && ValidName(name)
    ensures FindSec(Parse(AddSectionLines(lines, name)), name) < |Parse(AddSectionLines(lines, name))|
  {
    hide Parse;
    if FindSec(Parse(lines), name) == |Parse(lines)| {
      AddSectionLocality(lines, name);
    }
  }

  /** The comment a single-line set finds on the key's line, if it has one line. */
  function CommentKept(lines: seq<string>, name: string, key: string): string {
    var j := FindSec(Parse(lines), name);
    if j == |Parse(lines)| then "" else KeptComment(ExistingLines(lines, j, key))
  }

  /** Setting the same clean text twice leaves the same lines as setting it once exactly when
      the text holds an `=` not followed by a comment character, or neither the text nor the
      comment already on the line holds one. */
  lemma SetTextTwice(lines: seq<string>, name: string, key: string, text: string)
    requires OneLines(lines) && ValidKey(key) && ValidName(name) && Clean(text)
    ensures var once := SetLines(lines, name, key, Single(text));
            && once.Done?
            && (SetLines(once.lines, name, key, Single(text)) == once
                <==> StableText(text, CommentKept(lines, name, key)))
  {
    hide Parse, Render, ExistingLines, SetIn, Clean, ValidKey, ValidName, StableText, KeptComment;
    var lines1 := AddSectionLines(lines, name);
    AddSectionRefines(lines, name);
    AddedFound(lines, name);
    var j := FindSec(Parse(lines1), name);
    var existing := ExistingLines(lines1, j, key);
    ExistingOneLines(lines1, j, key);
    SingleIdempotent(key, text, existing);
    SetInTwice(lines1, name, key, Single(text));
    if FindSec(Parse(lines), name) == |Parse(lines)| {
      NewSectionHasNone(lines, name, key);
    }
  }

  lemma {:induction false} NewSectionHasNone(lines: seq<string>, name: string, key: string)
    requires ValidName(name) && FindSec(Parse(lines), name) == |Parse(lines)|
    ensures var lines1 := AddSectionLines(lines, name);
            var j := FindSec(Parse(lines1), name);
            j < |Parse(lines1)| && ExistingLines(lines1, j, key) == [] && KeptComment([]) == ""
  {
    hide Parse;
    AddSectionLocality(lines, name);
    var lines1 := AddSectionLines(lines, name);
    var secs1 := Parse(lines1);
    assert secs1[|secs1| - 1].name == name && secs1[|secs1| - 1].opts == [];
    assert forall i :: 0 <= i < |Parse(lines)| ==> secs1[i].name == Parse(lines)[i].name;
  }
}
