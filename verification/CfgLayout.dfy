/** What is printed and what a list says, character by character. */
module CfgLayout {
  import opened Text
  import opened CfgLine
  import opened CfgLocality
  import opened CfgRender
  import opened CfgGrammar

  // ---- comments ----

  /** Between a text and its inline comment stand blanks only, and the comment is all of the rest. */
  lemma CommentInIs(text: string) returns (gap: string)
    requires Bare(text)
    ensures Blanks(gap) && text == StripInline(text) + gap + CommentIn(text)
  {
    var comment: string;
    gap, comment := InlineTail(text);
    StripInlineOneLine(text);
    assert text == StripInline(text) + (gap + comment);
    hide StripInline;
    if comment == "" {
      BlankIffStrip(gap + comment);
    } else {
      assert comment[|comment| - 1] == text[|text| - 1];
      StripIs(gap, comment, "");
      assert gap + comment + "" == gap + comment;
    }
  }

  /** What stands behind the first `c`; everything, if there is none. */
  lemma AfterIs(s: string, c: char)
    ensures c !in s ==> After(s, c) == s
    ensures forall a, b :: s == a + [c] + b && c !in a ==> After(s, c) == b
  {
    forall a, b | s == a + [c] + b && c !in a ensures After(s, c) == b {
      assert s[|a|] == c && forall j :: 0 <= j < |a| ==> s[j] == a[j];
      assert IndexOf(s, c, 0) == |a|;
      assert s[|a| + 1..] == b;
    }
  }

  // ---- what is printed ----

  lemma {:induction false} PlainItems(items: seq<string>)
    ensures ItemLines(NO_DECO, items) == seq(|items|, i requires 0 <= i < |items| => "    " + items[i])
  {
    if items != [] {
      var init, item := items[..|items| - 1], items[|items| - 1];
      PlainItems(init);
      assert Indented(CommentsBefore(NO_DECO, item)) == [];
      assert seq(|items|, i requires 0 <= i < |items| => "    " + items[i])
        == seq(|init|, i requires 0 <= i < |init| => "    " + init[i]) + ["    " + item];
    }
  }

  /** A new list: the key line, and one indented line for every item that is not blank. */
  lemma {:induction false} ListPrinted(key: string, items: seq<string>)
    requires forall i :: 0 <= i < |items| ==> !Blanks(items[i])
    ensures Render(key, Items(items), [])
            == [key + ":"] + seq(|items|, i requires 0 <= i < |items| => "    " + items[i])
  {
    forall i | 0 <= i < |items| ensures !IsBlank(items[i]) {
      BlankIff(items[i]);
    }
    NonBlankId(items);
    PlainItems(items);
    assert Indented([]) == [];
    if items == [] {
      assert Render(key, Items(items), []) == [key + ":"];
    }
  }

  /** A line of a list: four blanks, and a text without a blank at its ends. If the text holds an inline comment, two
      blanks stand before that. */
  ghost predicate Neat(line: string) {
    && |line| > 4 && line[..4] == "    " && Bare(line[4..])
    && (CommentText(line) || CommentIn(line[4..]) == ""
        || line[4..] == StripInline(line[4..]) + "  " + CommentIn(line[4..]))
  }

  lemma NeatComments(cs: seq<string>)
    requires forall c :: c in cs ==> IsCommentText(c)
    ensures forall l :: l in Indented(cs) ==> Neat(l)
  {
    forall l | l in Indented(cs) ensures Neat(l) {
      var i :| 0 <= i < |cs| && l == Indented(cs)[i];
      CommentLine(cs[i]);
      CommentIff(l);
      assert l[4..] == cs[i];
    }
  }

  lemma NeatItem(item: string, comment: string)
    requires CleanItem(item) && (comment == "" || IsCommentText(comment))
    ensures Neat("    " + WithComment(item, comment))
  {
    ItemLine(item, comment);
    var line := "    " + WithComment(item, comment);
    assert line[4..] == WithComment(item, comment);
    StripIdempotent(line);
  }

  lemma {:induction false} NeatItems(d: Deco, items: seq<string>)
    requires CommentTexts(d) && CleanItems(items)
    ensures forall l :: l in ItemLines(d, items) ==> Neat(l)
    decreases |items|
  {
    hide Neat, CleanItem;
    if items != [] {
      var init, item := items[..|items| - 1], items[|items| - 1];
      NeatItems(d, init);
      LookupTexts(d, item);
      NeatComments(CommentsBefore(d, item));
      NeatItem(item, InlineComment(d, item));
    }
  }

  lemma NeatBlock(key: string, items: seq<string>, d: Deco)
    requires CommentTexts(d) && CleanItems(items)
    ensures Block(key, items, d) != [] && Block(key, items, d)[0] == key + ":"
    ensures forall i :: 1 <= i < |Block(key, items, d)| ==> Neat(Block(key, items, d)[i])
  {
    assert forall c :: c in d.pending ==> IsCommentText(c);
    NeatItems(d, items);
    NeatComments(d.pending);
    hide Neat, ItemLines, Indented, CommentTexts, CleanItem, IsCommentText;
    var lines, block := ItemLines(d, items) + Indented(d.pending), Block(key, items, d);
    assert forall l :: l in lines ==> Neat(l);
    if items != [] {
      assert block == [key + ":"] + lines;
      forall i | 1 <= i < |block| ensures Neat(block[i]) {
        assert block[i] == lines[i - 1] && lines[i - 1] in lines;
      }
    }
  }

  /** Every line of a list of clean items, whatever comments are kept. */
  lemma ListIsNeat(key: string, items: seq<string>, existing: seq<string>)
    requires CleanItems(items) && forall i :: 0 <= i < |existing| ==> OneLine(existing[i])
    ensures var block := Render(key, Items(items), existing);
            block != [] && block[0] == key + ":" && forall i :: 1 <= i < |block| ==> Neat(block[i])
  {
    DecorationTexts(existing);
    forall i | 0 <= i < |items| ensures !IsBlank(items[i]) {
      CleanItemFacts(items[i]);
    }
    NonBlankId(items);
    NeatBlock(key, items, Decoration(existing));
    hide Neat, Block, Decoration, CommentTexts, CleanItem;
  }

  /** A text of one line, with the comment that the line had, two blanks apart. */
  lemma {:induction false} LinePrinted(key: string, text: string, existing: seq<string>)
    requires '\n' !in text
    ensures |existing| != 1 ==> Render(key, Single(text), existing) == [key + ": " + text]
    ensures forall a, b :: existing == [a + ":" + b] && ':' !in a && '=' !in b ==>
      Render(key, Single(text), existing)
      == [if CommentIn(b) == "" then key + ": " + text else key + ": " + text + "  " + CommentIn(b)]
  {
    forall a, b | existing == [a + ":" + b] && ':' !in a && '=' !in b ensures KeptComment(existing) == CommentIn(b) {
      AfterIs(a + ":" + b, ':');
      assert a + ":" + b == a + [':'] + b;
      AfterIs(b, '=');
    }
    hide KeptComment, CommentIn;
    var c := KeptComment(existing);
    assert key + ": " + (text + "  " + c) == key + ": " + text + "  " + c;
  }

  // ---- what a list says ----

  lemma {:induction false} OneLineList(line: string)
    requires '\n' !in line
    ensures ListOf(line) == if Blanks(line) then [] else [Strip(line)]
  {
    BlankIff(line);
    if line != "" {
      assert IndexOf(line, '\n', 0) == |line|;
      assert SplitLines(line) == [line];
      assert [line][..0] == [];
      assert NonBlank([line]) == if IsBlank(line) then [] else [line];
      assert StripAll([line]) == [Strip(line)];
    }
  }

  lemma StripAllConcat(a: seq<string>, b: seq<string>)
    ensures StripAll(a + b) == StripAll(a) + StripAll(b)
  {
  }

  lemma {:induction false} NonBlankConcat(a: seq<string>, b: seq<string>)
    ensures NonBlank(a + b) == NonBlank(a) + NonBlank(b)
    decreases |b|
  {
    if b == [] {
      assert a + b == a;
    } else {
      NonBlankConcat(a, b[..|b| - 1]);
      assert (a + b)[..|a + b| - 1] == a + b[..|b| - 1];
    }
  }

  lemma ListHead(a: string, b: string)
    requires '\n' !in a
    ensures ListOf(a + "\n" + b) == ListOf(a) + ListOf(b)
  {
    SplitHead(a, b);
    NonBlankConcat([a], SplitLines(b));
    StripAllConcat(NonBlank([a]), NonBlank(SplitLines(b)));
    OneLineList(a);
    BlankIff(a);
    assert [a][..0] == [];
  }

  lemma {:induction false} SplitSnoc(raw: string, line: string)
    requires '\n' !in line
    ensures ListOf(raw + "\n" + line) == ListOf(raw) + ListOf(line)
    decreases |raw|
  {
    hide ListOf, SplitLines;
    var i := IndexOf(raw, '\n', 0);
    var a := raw[..i];
    if i == |raw| {
      SplitHead(raw, line);
      ListHead(raw, line);
      OneLineList(raw);
      OneLineList(a);
      assert a == raw;
    } else {
      var rest := raw[i + 1..];
      SplitSnoc(rest, line);
      assert raw == a + "\n" + rest;
      assert raw + "\n" + line == a + "\n" + (rest + "\n" + line);
      ListHead(a, rest + "\n" + line);
      ListHead(a, rest);
    }
  }

  /** One more line adds its text, without the blanks around it, unless it is blank. */
  lemma {:induction false} ListOfLines(raw: string, line: string)
    requires '\n' !in line
    ensures ListOf("") == []
    ensures ListOf(raw + "\n" + line) == ListOf(raw) + if Blanks(line) then [] else [Strip(line)]
  {
    SplitSnoc(raw, line);
    BlankIff(line);
    OneLineList(line);
  }

  // ---- what a block says ----

  /** The lines of an option read one by one: a continuation line adds a line to the value, without its comment, unless
      nothing is left of it. */
  lemma {:induction false} BlockReads(block: seq<string>, line: string)
    requires IsBlock(block) && ContinuationText(line)
    ensures IsBlock([block[0]]) && BlockValue([block[0]]) == Classify(block[0]).value
    ensures IsBlock(block + [line])
    ensures var item := if CommentText(line) then "" else StripInline(Strip(line));
            BlockValue(block + [line]) == if item == "" then BlockValue(block) else BlockValue(block) + "\n" + item
  {
    ContinuationIff(line);
    assert (block + [line])[..|block|] == block;
    hide Classify;
  }
}
