/** How an option is written back, and which of the comments in its old lines survive. The decoration of
    a block is what is remembered of it: for each item the comment behind it and the comments above it, and
    those that close the block. A list is written one item a line, each with what is remembered for it; a
    single value on the key line, with the comment that line had. The lemmas say that what is written is
    one option again, and is read as the value that was set, whatever is remembered. */
module CfgRender {
  import opened Text
  import opened CfgLine
  import opened CfgIndex
  import opened CfgLocality

  // ---- comments an existing block carries ----

  /** Inline comment per item, standalone comments before each item, comments not yet placed. */
  datatype Deco = Deco(inline: map<string, string>, before: map<string, seq<string>>, pending: seq<string>)

  const NO_DECO := Deco(map[], map[], [])

  function DecoStep(d: Deco, raw: string): Deco {
    var text := Strip(raw);
    if text == "" then d
    else if IsComment(raw) then d.(pending := d.pending + [text])
    else
      var item := StripInline(text);
      if item == "" then d
      else
        var comment := CommentIn(text);
        var inline := if comment == "" then d.inline else d.inline[item := comment];
        if d.pending == [] then d.(inline := inline)
        else Deco(inline, d.before[item := d.pending], [])
  }

  function DecoOver(lines: seq<string>): Deco {
    if lines == [] then NO_DECO else DecoStep(DecoOver(lines[..|lines| - 1]), lines[|lines| - 1])
  }

  /** Line 0 is the `key:` line itself. */
  function Decoration(block: seq<string>): Deco {
    if block == [] then NO_DECO else DecoOver(block[1..])
  }

  function CommentsBefore(d: Deco, item: string): seq<string> {
    if item in d.before then d.before[item] else []
  }

  function InlineComment(d: Deco, item: string): string {
    if item in d.inline then d.inline[item] else ""
  }

  // ---- writing ----

  /** What a caller may set: one text, or a list. */
  datatype Value = Single(text: string) | Items(items: seq<string>)

  function Indented(comments: seq<string>): (r: seq<string>)
    ensures |r| == |comments|
    ensures forall i :: 0 <= i < |r| ==> r[i] == INDENT + comments[i]
  {
    seq(|comments|, i requires 0 <= i < |comments| => INDENT + comments[i])
  }

  function WithComment(text: string, comment: string): string {
    if comment == "" then text else text + "  " + comment
  }

  function ItemLines(d: Deco, items: seq<string>): seq<string> {
    if items == [] then []
    else
      var item := items[|items| - 1];
      ItemLines(d, items[..|items| - 1])
      + Indented(CommentsBefore(d, item)) + [INDENT + WithComment(item, InlineComment(d, item))]
  }

  function Block(key: string, items: seq<string>, d: Deco): seq<string> {
    if items == [] then [key + ":"]
    else [key + ":"] + ItemLines(d, items) + Indented(d.pending)
  }

  function NonBlank(items: seq<string>): seq<string> {
    if items == [] then []
    else NonBlank(items[..|items| - 1]) + (if IsBlank(items[|items| - 1]) then [] else [items[|items| - 1]])
  }

  function StripAll(items: seq<string>): (r: seq<string>)
    ensures |r| == |items|
    ensures forall i :: 0 <= i < |r| ==> r[i] == Strip(items[i])
  {
    seq(|items|, i requires 0 <= i < |items| => Strip(items[i]))
  }

  /** `s.split(c, 1)[-1]` */
  function After(s: string, c: char): string {
    var i := IndexOf(s, c, 0);
    if i < |s| then s[i + 1..] else s
  }

  /** The inline comment of a text, or "". */
  function CommentIn(text: string): string {
    Strip(text[|StripInline(text)|..])
  }

  /** The comment kept from an existing one-line option. */
  function TrailingComment(line: string): string {
    CommentIn(After(After(line, ':'), '='))
  }

  function KeptComment(existing: seq<string>): string {
    if |existing| == 1 then TrailingComment(existing[0]) else ""
  }

  function Render(key: string, value: Value, existing: seq<string>): seq<string> {
    match value
    case Items(items) => Block(key, NonBlank(items), Decoration(existing))
    case Single(text) =>
      if '\n' in text then Block(key, StripAll(NonBlank(SplitLines(text))), Decoration(existing))
      else [key + ": " + WithComment(text, KeptComment(existing))]
  }

  // ---- reading a list value ----

  function ListOf(raw: string): seq<string> {
    StripAll(NonBlank(SplitLines(raw)))
  }

  /** The value of an option whose items stand on continuation lines. */
  function ListValue(items: seq<string>): string {
    if items == [] then "" else ListValue(items[..|items| - 1]) + "\n" + items[|items| - 1]
  }

  predicate CleanItem(item: string) {
    Clean(item) && item != ""
  }

  predicate CleanItems(items: seq<string>) {
    forall i :: 0 <= i < |items| ==> CleanItem(items[i])
  }

  predicate IsCommentText(c: string) {
    c != "" && OneLine(c) && Trimmed(c) && IsCommentChar(c[0])
  }

  ghost predicate CommentTexts(d: Deco) {
    && (forall c :: c in d.pending ==> IsCommentText(c))
    && (forall k :: k in d.inline ==> IsCommentText(d.inline[k]))
    && (forall k :: k in d.before ==> forall c :: c in d.before[k] ==> IsCommentText(c))
  }

  lemma {:induction false} NonBlankId(items: seq<string>)
    requires forall i :: 0 <= i < |items| ==> !IsBlank(items[i])
    ensures NonBlank(items) == items
  {
    if items != [] {
      NonBlankId(items[..|items| - 1]);
      assert items == items[..|items| - 1] + [items[|items| - 1]];
    }
  }

  lemma {:induction false} NonBlankItems(items: seq<string>)
    ensures forall x :: x in NonBlank(items) ==> !IsBlank(x) && x in items
  {
    if items != [] {
      NonBlankItems(items[..|items| - 1]);
    }
  }

  lemma CleanItemFacts(item: string)
    requires CleanItem(item)
    ensures !IsBlank(item) && Strip(item) == item && !IsComment(item)
    ensures !IsCommentChar(item[0])
  {
    CleanIff(item);
    assert !CommentAt(item, 0);
    StripTrimmed(item);
    assert LStrip(item) == item;
  }

  lemma InlineTail(text: string) returns (gap: string, comment: string)
    ensures AllSpace(gap) && (comment == "" || IsCommentChar(comment[0]))
    ensures text[|StripInline(text)|..] == gap + comment
  {
    var n := CommentStart(text);
    StripInlineOneLine(text);
    gap := RStripParts(text[..n]);
    comment := text[n..];
    assert text == text[..n] + comment == StripInline(text) + (gap + comment);
  }

  /** The tail of a text from its inline comment on is empty or a comment. */
  lemma CommentTail(text: string)
    ensures var c := CommentIn(text);
            && (c == "" || (IsCommentChar(c[0]) && Trimmed(c)))
            && (OneLine(text) ==> OneLine(c))
  {
    hide StripInline, Strip;
    var gap, comment := InlineTail(text);
    StripIdempotent(text[|StripInline(text)|..]);
    CommentTailStrip(gap, comment);
  }

  lemma CommentTailStrip(gap: string, comment: string)
    requires AllSpace(gap) && (comment == "" || IsCommentChar(comment[0]))
    ensures Strip(gap + comment) == "" || IsCommentChar(Strip(gap + comment)[0])
  {
    LStripPrefix(gap, comment);
    var r := RStripParts(comment);
    if comment != "" {
      assert !IsSpace(comment[0]);
      assert RStrip(comment) != "";
    }
  }

  lemma DecoStepTexts(d: Deco, raw: string)
    requires CommentTexts(d) && OneLine(raw)
    ensures CommentTexts(DecoStep(d, raw))
  {
    var text := Strip(raw);
    StripIdempotent(raw);
    CommentTail(text);
    if IsComment(raw) {
      var l := LStripParts(raw);
      var r := RStripParts(LStrip(raw));
      assert text != "" ==> text[0] == LStrip(raw)[0];
    }
  }

  lemma {:induction false} DecoTexts(lines: seq<string>)
    requires forall i :: 0 <= i < |lines| ==> OneLine(lines[i])
    ensures CommentTexts(DecoOver(lines))
    decreases |lines|
  {
    if lines != [] {
      DecoTexts(lines[..|lines| - 1]);
      DecoStepTexts(DecoOver(lines[..|lines| - 1]), lines[|lines| - 1]);
    }
  }

  lemma DecorationTexts(block: seq<string>)
    requires forall i :: 0 <= i < |block| ==> OneLine(block[i])
    ensures CommentTexts(Decoration(block))
  {
    if block != [] {
      DecoTexts(block[1..]);
    }
  }

  // ---- what the lines of a rendered list are ----

  lemma CommentLine(c: string)
    requires IsCommentText(c)
    ensures IsContinuation(INDENT + c) && IsComment(INDENT + c)
    ensures Strip(INDENT + c) == c && ItemOf(INDENT + c) == "" && OneLine(INDENT + c)
  {
    assert LStrip(c) == c;
    IndentedIsContinuation(c);
    StripTrimmed(c);
    ContIsContinuation(INDENT + c);
  }

  lemma ItemLine(item: string, comment: string)
    requires CleanItem(item) && (comment == "" || IsCommentText(comment))
    ensures var line := INDENT + WithComment(item, comment);
            && IsContinuation(line) && !IsComment(line) && OneLine(line)
            && Strip(line) == WithComment(item, comment)
            && StripInline(Strip(line)) == item && ItemOf(line) == item
            && CommentIn(Strip(line)) == comment
  {
    var w := WithComment(item, comment);
    CleanItemFacts(item);
    CleanIff(item);
    assert w[0] == item[0] && LStrip(w) == w;
    assert Trimmed(w);
    IndentedIsContinuation(w);
    StripTrimmed(w);
    ContIsContinuation(INDENT + w);
    if comment == "" {
      assert w[|item|..] == "";
    } else {
      StripInlineDrops(item, "  ", comment);
      assert w[|item|..] == "  " + comment + "";
      StripIs("  ", comment, "");
    }
  }

  lemma {:induction false} ItemLinesCont(d: Deco, items: seq<string>)
    requires CommentTexts(d) && forall i :: 0 <= i < |items| ==> !IsBlank(items[i])
    ensures forall l :: l in ItemLines(d, items) ==> IsContinuation(l)
    decreases |items|
  {
    if items != [] {
      var item := items[|items| - 1];
      ItemLinesCont(d, items[..|items| - 1]);
      forall l | l in Indented(CommentsBefore(d, item)) ensures IsContinuation(l) {
        var i :| 0 <= i < |CommentsBefore(d, item)| && l == Indented(CommentsBefore(d, item))[i];
        CommentLine(CommentsBefore(d, item)[i]);
      }
      var comment := InlineComment(d, item);
      NotBlankExtend(item, "  " + comment);
      assert item + ("  " + comment) == item + "  " + comment;
      IndentedIsContinuation(WithComment(item, comment));
    }
  }

  lemma NotBlankExtend(s: string, t: string)
    requires !IsBlank(s)
    ensures !IsBlank(s + t)
  {
    BlankIffStrip(s);
    BlankIffStrip(s + t);
    assert forall i :: 0 <= i < |s| ==> (s + t)[i] == s[i];
  }

  lemma IndentedComments(cs: seq<string>)
    requires forall c :: c in cs ==> IsCommentText(c)
    ensures forall i :: 0 <= i < |cs| ==>
      IsContinuation(Indented(cs)[i]) && IsComment(Indented(cs)[i]) && Strip(Indented(cs)[i]) == cs[i]
      && ItemOf(Indented(cs)[i]) == "" && OneLine(Indented(cs)[i])
  {
    forall i | 0 <= i < |cs|
      ensures IsContinuation(Indented(cs)[i]) && IsComment(Indented(cs)[i]) && Strip(Indented(cs)[i]) == cs[i]
              && ItemOf(Indented(cs)[i]) == "" && OneLine(Indented(cs)[i])
    {
      CommentLine(cs[i]);
    }
  }

  lemma LookupTexts(d: Deco, item: string)
    requires CommentTexts(d)
    ensures forall c :: c in CommentsBefore(d, item) ==> IsCommentText(c)
    ensures InlineComment(d, item) == "" || IsCommentText(InlineComment(d, item))
  {
  }

  // ---- a rendered option is the option's lines again ----

  lemma {:induction false} StripNonBlank(items: seq<string>)
    ensures forall i :: 0 <= i < |StripAll(NonBlank(items))| ==> !IsBlank(StripAll(NonBlank(items))[i])
  {
    NonBlankItems(items);
    forall i | 0 <= i < |NonBlank(items)| ensures !IsBlank(Strip(NonBlank(items)[i])) {
      assert NonBlank(items)[i] in NonBlank(items);
      BlankIffStrip(NonBlank(items)[i]);
      StripIdempotent(NonBlank(items)[i]);
      BlankIffStrip(Strip(NonBlank(items)[i]));
    }
  }

  lemma BlockIsBlock(key: string, items: seq<string>, d: Deco)
    requires ValidKey(key) && CommentTexts(d) && forall i :: 0 <= i < |items| ==> !IsBlank(items[i])
    ensures IsBlock(Block(key, items, d)) && Classify(Block(key, items, d)[0]) == Start(key, "")
  {
    StartLine(key, "");
    assert key + ":" + "" == key + ":";
    ItemLinesCont(d, items);
    IndentedComments(d.pending);
  }

  /** Whatever is set, the lines written for it are read as one option with that key. */
  lemma RenderIsBlock(key: string, value: Value, existing: seq<string>)
    requires ValidKey(key) && forall i :: 0 <= i < |existing| ==> OneLine(existing[i])
    ensures IsBlock(Render(key, value, existing))
    ensures Classify(Render(key, value, existing)[0]).key == key
  {
    DecorationTexts(existing);
    match value
    case Items(items) =>
      NonBlankItems(items);
      forall i | 0 <= i < |NonBlank(items)| ensures !IsBlank(NonBlank(items)[i]) {
        assert NonBlank(items)[i] in NonBlank(items);
      }
      BlockIsBlock(key, NonBlank(items), Decoration(existing));
    case Single(text) =>
      if '\n' in text {
        StripNonBlank(SplitLines(text));
        BlockIsBlock(key, StripAll(NonBlank(SplitLines(text))), Decoration(existing));
      } else {
        var rest := WithComment(text, KeptComment(existing));
        StartLine(key, " " + rest);
        assert key + ":" + (" " + rest) == key + ": " + rest;
      }
  }

  // ---- the value read back ----

  lemma {:induction false} CommentsAddNothing(block: seq<string>, cs: seq<string>)
    requires IsBlock(block) && forall c :: c in cs ==> IsCommentText(c)
    ensures IsBlock(block + Indented(cs)) && BlockValue(block + Indented(cs)) == BlockValue(block)
    decreases |cs|
  {
    hide Classify;
    IndentedComments(cs);
    if cs == [] {
      assert block + Indented(cs) == block;
    } else {
      var init := cs[..|cs| - 1];
      CommentsAddNothing(block, init);
      var all := block + Indented(cs);
      assert all[..|all| - 1] == block + Indented(init);
    }
  }

  lemma {:induction false} ItemAdds(block: seq<string>, item: string, comment: string)
    requires IsBlock(block) && CleanItem(item) && (comment == "" || IsCommentText(comment))
    ensures var all := block + [INDENT + WithComment(item, comment)];
            IsBlock(all) && BlockValue(all) == BlockValue(block) + "\n" + item
  {
    ItemLine(item, comment);
    hide Classify;
    var all := block + [INDENT + WithComment(item, comment)];
    assert all[..|all| - 1] == block;
  }

  /** One item with the comments around it. */
  lemma {:induction false} ItemGroupAdds(block: seq<string>, d: Deco, item: string)
    requires IsBlock(block) && CleanItem(item) && CommentTexts(d)
    ensures var all := block + Indented(CommentsBefore(d, item)) + [INDENT + WithComment(item, InlineComment(d, item))];
            IsBlock(all) && BlockValue(all) == BlockValue(block) + "\n" + item
  {
    LookupTexts(d, item);
    hide *;
    CommentsAddNothing(block, CommentsBefore(d, item));
    ItemAdds(block + Indented(CommentsBefore(d, item)), item, InlineComment(d, item));
  }

  lemma KeyLine(key: string)
    requires ValidKey(key)
    ensures Classify(key + ":") == Start(key, "")
    ensures IsBlock([key + ":"]) && BlockValue([key + ":"]) == ""
  {
    StartLine(key, "");
    assert key + ":" + "" == key + ":";
  }

  lemma {:induction false} ItemLinesValue(key: string, d: Deco, items: seq<string>)
    requires ValidKey(key) && CommentTexts(d) && CleanItems(items)
    ensures IsBlock([key + ":"] + ItemLines(d, items))
    ensures BlockValue([key + ":"] + ItemLines(d, items)) == ListValue(items)
    decreases |items|
  {
    hide Classify, IsBlock, BlockValue, Clean, CommentTexts, IsContinuation;
    if items == [] {
      KeyLine(key);
      assert [key + ":"] + ItemLines(d, items) == [key + ":"];
    } else {
      var init, item := items[..|items| - 1], items[|items| - 1];
      ItemLinesValue(key, d, init);
      ItemGroupAdds([key + ":"] + ItemLines(d, init), d, item);
      assert [key + ":"] + ItemLines(d, items)
          == [key + ":"] + ItemLines(d, init)
             + Indented(CommentsBefore(d, item)) + [INDENT + WithComment(item, InlineComment(d, item))];
    }
  }

  ghost predicate CleanValue(value: Value) {
    match value
    case Single(text) => Clean(text)
    case Items(items) => CleanItems(items)
  }

  function ReadBack(value: Value): string {
    match value
    case Single(text) => text
    case Items(items) => ListValue(items)
  }

  lemma SingleReads(text: string, comment: string)
    requires Clean(text) && (comment == "" || IsCommentText(comment))
    ensures StripInline(Strip(" " + WithComment(text, comment))) == text
  {
    CleanIff(text);
    var w := WithComment(text, comment);
    if comment == "" {
      StripIs(" ", text, "");
      assert " " + text + "" == " " + w;
    } else if text == "" {
      StripIs("   ", comment, "");
      assert " " + w == "   " + comment + "";
      assert CommentAt(comment, 0);
      CommentStartIs(comment, 0);
      assert comment[..0] == "";
    } else {
      StripIs(" ", w, "");
      assert " " + w == " " + w + "";
      StripInlineDrops(text, "  ", comment);
    }
  }

  lemma KeptCommentText(existing: seq<string>)
    requires forall i :: 0 <= i < |existing| ==> OneLine(existing[i])
    ensures KeptComment(existing) == "" || IsCommentText(KeptComment(existing))
  {
    if |existing| == 1 {
      CommentTail(After(After(existing[0], ':'), '='));
    }
  }

  lemma RenderSingleValue(key: string, text: string, existing: seq<string>)
    requires ValidKey(key) && Clean(text) && forall i :: 0 <= i < |existing| ==> OneLine(existing[i])
    ensures IsBlock(Render(key, Single(text), existing))
    ensures BlockValue(Render(key, Single(text), existing)) == text
  {
    hide Classify, KeptComment, StripInline, Strip, WithComment, BlockValue, IsBlock;
    var comment := KeptComment(existing);
    var rest := " " + WithComment(text, comment);
    KeptCommentText(existing);
    SingleReads(text, comment);
    StartLine(key, rest);
    assert key + ":" + rest == key + ": " + WithComment(text, comment);
    OneLineBlock(key + ":" + rest);
  }

  lemma OneLineBlock(line: string)
    requires Classify(line).Start?
    ensures IsBlock([line]) && BlockValue([line]) == Classify(line).value
  {
    hide Classify;
  }

  lemma {:induction false} RenderItemsValue(key: string, items: seq<string>, existing: seq<string>)
    requires ValidKey(key) && CleanItems(items) && forall i :: 0 <= i < |existing| ==> OneLine(existing[i])
    ensures IsBlock(Render(key, Items(items), existing))
    ensures BlockValue(Render(key, Items(items), existing)) == ListValue(items)
  {
    var d := Decoration(existing);
    DecorationTexts(existing);
    CleanNonBlank(items);
    KeyLine(key);
    ItemLinesValue(key, d, items);
    hide Classify, IsBlock, BlockValue, ItemLines, Decoration;
    if items != [] {
      CommentsAddNothing([key + ":"] + ItemLines(d, items), d.pending);
    }
  }

  /** A clean value is read back as it was set, whatever comments were kept with it. */
  lemma RenderValue(key: string, value: Value, existing: seq<string>)
    requires ValidKey(key) && CleanValue(value) && forall i :: 0 <= i < |existing| ==> OneLine(existing[i])
    ensures IsBlock(Render(key, value, existing))
    ensures BlockValue(Render(key, value, existing)) == ReadBack(value)
  {
    match value
    case Single(text) => RenderSingleValue(key, text, existing);
    case Items(items) => RenderItemsValue(key, items, existing);
  }

  lemma {:induction false} CleanNonBlank(items: seq<string>)
    requires CleanItems(items)
    ensures NonBlank(items) == items && StripAll(items) == items
  {
    forall i | 0 <= i < |items| ensures !IsBlank(items[i]) && Strip(items[i]) == items[i] {
      CleanItemFacts(items[i]);
    }
    NonBlankId(items);
  }

  /** A list is the join of an empty first line and its items. */
  lemma {:induction false} SplitListValue(items: seq<string>)
    requires CleanItems(items)
    ensures items == [] ==> SplitLines(ListValue(items)) == []
    ensures items != [] ==> SplitLines(ListValue(items)) == [""] + items
  {
    if items != [] {
      ListValueJoin("", items);
      assert "" + ListValue(items) == ListValue(items);
      SplitJoin([""] + items);
    }
  }

  lemma {:induction false} ListValueJoin(head: string, items: seq<string>)
    requires items != []
    ensures head + ListValue(items) == JoinLines([head] + items)
    decreases |items|
  {
    var init, last := items[..|items| - 1], items[|items| - 1];
    assert items == init + [last];
    if init == [] {
      assert [head] + items == [head, last];
      assert ([head] + items)[1..] == [last];
    } else {
      ListValueJoin(head, init);
      JoinSnoc([head] + init, last);
      assert [head] + items == [head] + init + [last];
      assert head + ListValue(items) == (head + ListValue(init)) + "\n" + last;
    }
  }

  lemma {:induction false} JoinSnoc(lines: seq<string>, last: string)
    requires lines != []
    ensures JoinLines(lines + [last]) == JoinLines(lines) + "\n" + last
  {
    assert (lines + [last])[1..] == lines[1..] + [last];
    if |lines| > 1 {
      JoinSnoc(lines[1..], last);
    } else {
      assert lines[1..] + [last] == [last];
    }
  }

  lemma {:induction false} SplitJoin(lines: seq<string>)
    requires lines != [] && lines[|lines| - 1] != "" && forall i :: 0 <= i < |lines| ==> OneLine(lines[i])
    ensures SplitLines(JoinLines(lines)) == lines
  {
    if |lines| == 1 {
      assert IndexOf(lines[0], '\n', 0) == |lines[0]|;
    } else {
      SplitJoin(lines[1..]);
      SplitHead(lines[0], JoinLines(lines[1..]));
    }
  }

  /** A clean list is read back item by item. */
  lemma {:induction false} ListReads(items: seq<string>)
    requires CleanItems(items)
    ensures ListOf(ListValue(items)) == items
  {
    SplitListValue(items);
    CleanNonBlank(items);
    if items != [] {
      DropEmptyHead(items);
    }
  }

  lemma {:induction false} DropEmptyHead(items: seq<string>)
    ensures NonBlank([""] + items) == NonBlank(items)
  {
    if items == [] {
      assert [""] + items == [""];
      assert ([""])[..0] == [];
    } else {
      DropEmptyHead(items[..|items| - 1]);
      assert ([""] + items)[..|items|] == [""] + items[..|items| - 1];
    }
  }
}
