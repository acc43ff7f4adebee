/** Which comments a rewritten option keeps, and what writing the same value twice does. */
module CfgComments {
  import opened Text
  import opened CfgLine
  import opened CfgLocality
  import opened CfgRender

  /** One item line of a block with the standalone comments above it and its inline comment. */
  datatype Entry = Entry(item: string, before: seq<string>, comment: string)

  /** A block as a reader sees it: its items with their comments, then the comments at the end. */
  datatype Notes = Notes(entries: seq<Entry>, trailing: seq<string>)

  function NoteStep(n: Notes, raw: string): Notes {
    var text := Strip(raw);
    if text == "" then n
    else if IsComment(raw) then n.(trailing := n.trailing + [text])
    else
      var item := StripInline(text);
      if item == "" then n
      else Notes(n.entries + [Entry(item, n.trailing, CommentIn(text))], [])
  }

  function NotesOver(n: Notes, lines: seq<string>): Notes {
    if lines == [] then n else NoteStep(NotesOver(n, lines[..|lines| - 1]), lines[|lines| - 1])
  }

  const NO_NOTES := Notes([], [])

  function NotesOf(block: seq<string>): Notes {
    if block == [] then NO_NOTES else NotesOver(NO_NOTES, block[1..])
  }

  // ---- the maps the code builds are those of the entries ----

  function EntryDeco(d: Deco, e: Entry): Deco {
    Deco(if e.comment == "" then d.inline else d.inline[e.item := e.comment],
         if e.before == [] then d.before else d.before[e.item := e.before],
         [])
  }

  function EntriesDeco(entries: seq<Entry>): Deco {
    if entries == [] then NO_DECO
    else EntryDeco(EntriesDeco(entries[..|entries| - 1]), entries[|entries| - 1])
  }

  lemma {:induction false} DecoIsNotes(lines: seq<string>)
    ensures DecoOver(lines)
            == EntriesDeco(NotesOver(NO_NOTES, lines).entries).(pending := NotesOver(NO_NOTES, lines).trailing)
    decreases |lines|
  {
    hide Strip, IsComment, StripInline, CommentIn;
    if lines != [] {
      var init, raw := lines[..|lines| - 1], lines[|lines| - 1];
      DecoIsNotes(init);
      var n, n' := NotesOver(NO_NOTES, init), NotesOver(NO_NOTES, lines);
      if n'.entries != n.entries {
        assert n'.entries[..|n.entries|] == n.entries;
      }
    }
  }

  lemma DecorationIsNotes(block: seq<string>)
    ensures Decoration(block) == EntriesDeco(NotesOf(block).entries).(pending := NotesOf(block).trailing)
  {
    if block != [] {
      DecoIsNotes(block[1..]);
    }
  }

  // ---- the notes of a rendered block ----

  function EntriesOf(d: Deco, items: seq<string>): (r: seq<Entry>)
    ensures |r| == |items|
    ensures forall i :: 0 <= i < |r| ==>
      r[i] == Entry(items[i], CommentsBefore(d, items[i]), InlineComment(d, items[i]))
  {
    seq(|items|, i requires 0 <= i < |items| =>
      Entry(items[i], CommentsBefore(d, items[i]), InlineComment(d, items[i])))
  }

  lemma {:induction false} NotesConcat(n: Notes, a: seq<string>, b: seq<string>)
    ensures NotesOver(n, a + b) == NotesOver(NotesOver(n, a), b)
    decreases |b|
  {
    if b == [] {
      assert a + b == a;
    } else {
      assert (a + b)[..|a + b| - 1] == a + b[..|b| - 1];
      NotesConcat(n, a, b[..|b| - 1]);
    }
  }

  lemma {:induction false} NotesIndented(n: Notes, cs: seq<string>)
    requires forall c :: c in cs ==> IsCommentText(c)
    ensures NotesOver(n, Indented(cs)) == n.(trailing := n.trailing + cs)
    decreases |cs|
  {
    IndentedComments(cs);
    hide Strip, IsComment, StripInline, CommentIn;
    if cs == [] {
      assert n.trailing + cs == n.trailing;
    } else {
      var init := cs[..|cs| - 1];
      NotesIndented(n, init);
      assert cs[|cs| - 1] in cs;
      assert Indented(cs)[..|cs| - 1] == Indented(init);
      assert n.trailing + init + [cs[|cs| - 1]] == n.trailing + cs;
    }
  }

  lemma {:induction false} NoteItem(n: Notes, item: string, comment: string)
    requires CleanItem(item) && (comment == "" || IsCommentText(comment))
    ensures NotesOver(n, [INDENT + WithComment(item, comment)])
            == Notes(n.entries + [Entry(item, n.trailing, comment)], [])
  {
    ItemLine(item, comment);
    var line := INDENT + WithComment(item, comment);
    assert WithComment(item, comment) != "";
    hide WithComment, Strip, StripInline, IsComment, CommentIn;
    assert [line][..0] == [];
  }

  lemma {:induction false} NotesItemLines(d: Deco, items: seq<string>)
    requires CommentTexts(d) && CleanItems(items)
    ensures NotesOver(NO_NOTES, ItemLines(d, items)) == Notes(EntriesOf(d, items), [])
    decreases |items|
  {
    hide CommentTexts, NoteStep, WithComment, Clean;
    if items != [] {
      var init, item := items[..|items| - 1], items[|items| - 1];
      NotesItemLines(d, init);
      LookupTexts(d, item);
      var before, line := Indented(CommentsBefore(d, item)), INDENT + WithComment(item, InlineComment(d, item));
      NotesConcat(NO_NOTES, ItemLines(d, init), before);
      NotesIndented(Notes(EntriesOf(d, init), []), CommentsBefore(d, item));
      NotesConcat(NO_NOTES, ItemLines(d, init) + before, [line]);
      NoteItem(Notes(EntriesOf(d, init), CommentsBefore(d, item)), item, InlineComment(d, item));
      assert [] + CommentsBefore(d, item) == CommentsBefore(d, item);
      assert EntriesOf(d, items)
          == EntriesOf(d, init) + [Entry(item, CommentsBefore(d, item), InlineComment(d, item))];
    }
  }

  /** A rendered list carries exactly the decorations looked up for its items. */
  lemma NotesOfBlock(key: string, items: seq<string>, d: Deco)
    requires CommentTexts(d) && CleanItems(items)
    ensures NotesOf(Block(key, items, d)) == Notes(EntriesOf(d, items), if items == [] then [] else d.pending)
  {
    var block := Block(key, items, d);
    if items == [] {
      assert block[1..] == [];
    } else {
      assert block[1..] == ItemLines(d, items) + Indented(d.pending);
      NotesItemLines(d, items);
      NotesConcat(NO_NOTES, ItemLines(d, items), Indented(d.pending));
      NotesIndented(Notes(EntriesOf(d, items), []), d.pending);
      assert [] + d.pending == d.pending;
    }
  }

  // ---- looking decorations up again ----

  ghost predicate SameLookups(d: Deco, d': Deco, item: string) {
    CommentsBefore(d, item) == CommentsBefore(d', item) && InlineComment(d, item) == InlineComment(d', item)
  }

  ghost predicate Mentions(entries: seq<Entry>, item: string) {
    entries != [] && (entries[|entries| - 1].item == item || Mentions(entries[..|entries| - 1], item))
  }

  lemma {:induction false} MentionsAt(entries: seq<Entry>, i: nat)
    requires i < |entries|
    ensures Mentions(entries, entries[i].item)
    decreases |entries|
  {
    if i < |entries| - 1 {
      MentionsAt(entries[..|entries| - 1], i);
    }
  }

  /** Entries that agree with `d` are looked up as `d` says, repeated or not. */
  lemma {:induction false} LookupAgain(d: Deco, entries: seq<Entry>, item: string)
    requires forall i :: 0 <= i < |entries| ==>
      entries[i].before == CommentsBefore(d, entries[i].item) && entries[i].comment == InlineComment(d, entries[i].item)
    ensures SameLookups(if Mentions(entries, item) then d else NO_DECO, EntriesDeco(entries), item)
    decreases |entries|
  {
    if entries != [] {
      var init, last := entries[..|entries| - 1], entries[|entries| - 1];
      LookupAgain(d, init, item);
      assert last.before == CommentsBefore(d, last.item) && last.comment == InlineComment(d, last.item);
    }
  }

  lemma {:induction false} ItemLinesSame(d: Deco, d': Deco, items: seq<string>)
    requires forall x :: x in items ==> SameLookups(d, d', x)
    ensures ItemLines(d, items) == ItemLines(d', items)
    decreases |items|
  {
    if items != [] {
      ItemLinesSame(d, d', items[..|items| - 1]);
      assert items[|items| - 1] in items;
    }
  }

  lemma LookupAll(d: Deco, items: seq<string>)
    ensures forall x :: x in items ==> SameLookups(d, EntriesDeco(EntriesOf(d, items)), x)
  {
    hide EntriesDeco;
    forall x | x in items ensures SameLookups(d, EntriesDeco(EntriesOf(d, items)), x) {
      LookupAgain(d, EntriesOf(d, items), x);
      var i :| 0 <= i < |items| && items[i] == x;
      MentionsAt(EntriesOf(d, items), i);
    }
  }

  /** Writing the same list a second time changes nothing, repeated items included. */
  lemma ListIdempotent(key: string, items: seq<string>, existing: seq<string>)
    requires CleanItems(items) && forall i :: 0 <= i < |existing| ==> OneLine(existing[i])
    ensures var once := Render(key, Items(items), existing);
            Render(key, Items(items), once) == once
  {
    hide CleanItems, CommentTexts, NotesOf, EntriesDeco, EntriesOf, Decoration, ItemLines, SameLookups;
    var d := Decoration(existing);
    DecorationTexts(existing);
    CleanNonBlank(items);
    var once := Block(key, items, d);
    NotesOfBlock(key, items, d);
    DecorationIsNotes(once);
    LookupAll(d, items);
    forall x | x in items ensures SameLookups(d, Decoration(once), x) {
      PendingApart(d, EntriesDeco(EntriesOf(d, items)), Decoration(once).pending, x);
    }
    ItemLinesSame(d, Decoration(once), items);
  }

  lemma PendingApart(d: Deco, d': Deco, pending: seq<string>, item: string)
    ensures SameLookups(d, d'.(pending := pending), item) <==> SameLookups(d, d', item)
  {
  }

  // ---- conservation ----

  ghost predicate Distinct(entries: seq<Entry>) {
    forall i, j :: 0 <= i < j < |entries| ==> entries[i].item != entries[j].item
  }

  lemma {:induction false} DistinctLookup(entries: seq<Entry>, i: nat)
    requires Distinct(entries) && i < |entries|
    ensures CommentsBefore(EntriesDeco(entries), entries[i].item) == entries[i].before
    ensures InlineComment(EntriesDeco(entries), entries[i].item) == entries[i].comment
    decreases |entries|
  {
    var init, last := entries[..|entries| - 1], entries[|entries| - 1];
    if i < |init| {
      DistinctLookup(init, i);
      assert init[i] == entries[i];
    } else {
      NoLookup(init, last.item);
    }
  }

  lemma {:induction false} NoLookup(entries: seq<Entry>, item: string)
    requires forall e :: e in entries ==> e.item != item
    ensures item !in EntriesDeco(entries).before && item !in EntriesDeco(entries).inline
    decreases |entries|
  {
    if entries != [] {
      NoLookup(entries[..|entries| - 1], item);
      assert entries[|entries| - 1] in entries;
    }
  }

  /** Every commented item of `n` stands in `n'` with the same comments, and the closing
      comments are the same. */
  ghost predicate CommentsSurvive(n: Notes, n': Notes) {
    && (forall e :: e in n.entries && (e.before != [] || e.comment != "") ==> e in n'.entries)
    && n'.trailing == n.trailing
  }

  /** The comments of an entry are those its item ends up with: no entry of the same item has
      the last word over them. */
  predicate HasTheLastWord(entries: seq<Entry>, e: Entry) {
    var d := EntriesDeco(entries);
    e.before == CommentsBefore(d, e.item) && e.comment == InlineComment(d, e.item)
  }

  /** The inline comment that an item ends up with: that of its last entry with one, if there is one. */
  ghost predicate LastComment(entries: seq<Entry>, item: string, comment: string) {
    if comment == "" then forall k :: 0 <= k < |entries| && entries[k].item == item ==> entries[k].comment == ""
    else
      exists k :: 0 <= k < |entries| && entries[k].item == item && entries[k].comment == comment
        && forall l :: k < l < |entries| && entries[l].item == item ==> entries[l].comment == ""
  }

  /** The same of the comments above it. */
  ghost predicate LastBefore(entries: seq<Entry>, item: string, before: seq<string>) {
    if before == [] then forall k :: 0 <= k < |entries| && entries[k].item == item ==> entries[k].before == []
    else
      exists k :: 0 <= k < |entries| && entries[k].item == item && entries[k].before == before
        && forall l :: k < l < |entries| && entries[l].item == item ==> entries[l].before == []
  }

  lemma {:induction false} LastCommentIs(entries: seq<Entry>, item: string)
    ensures LastComment(entries, item, InlineComment(EntriesDeco(entries), item))
    ensures LastBefore(entries, item, CommentsBefore(EntriesDeco(entries), item))
  {
    if entries != [] {
      var init, e := entries[..|entries| - 1], entries[|entries| - 1];
      LastCommentIs(init, item);
      LastSnoc(init, e, item, InlineComment(EntriesDeco(init), item), CommentsBefore(EntriesDeco(init), item));
      assert entries == init + [e];
      hide LastComment, LastBefore;
    }
  }

  lemma LastSnoc(entries: seq<Entry>, e: Entry, item: string, comment: string, before: seq<string>)
    requires LastComment(entries, item, comment) && LastBefore(entries, item, before)
    ensures LastComment(entries + [e], item, if e.item == item && e.comment != "" then e.comment else comment)
    ensures LastBefore(entries + [e], item, if e.item == item && e.before != [] then e.before else before)
  {
    LastCommentSnoc(entries, e, item, comment);
    LastBeforeSnoc(entries, e, item, before);
    hide LastComment, LastBefore;
  }

  lemma LastCommentSnoc(entries: seq<Entry>, e: Entry, item: string, comment: string)
    requires LastComment(entries, item, comment)
    ensures LastComment(entries + [e], item, if e.item == item && e.comment != "" then e.comment else comment)
  {
    var all, n := entries + [e], |entries|;
    assert all[n] == e && forall k :: 0 <= k < n ==> all[k] == entries[k];
    if !(e.item == item && e.comment != "") && comment != "" {
      var k :| 0 <= k < n && entries[k].item == item && entries[k].comment == comment
        && forall l :: k < l < n && entries[l].item == item ==> entries[l].comment == "";
      assert all[k].item == item;
    }
  }

  lemma LastBeforeSnoc(entries: seq<Entry>, e: Entry, item: string, before: seq<string>)
    requires LastBefore(entries, item, before)
    ensures LastBefore(entries + [e], item, if e.item == item && e.before != [] then e.before else before)
  {
    var all, n := entries + [e], |entries|;
    assert all[n] == e && forall k :: 0 <= k < n ==> all[k] == entries[k];
    if !(e.item == item && e.before != []) && before != [] {
      var k :| 0 <= k < n && entries[k].item == item && entries[k].before == before
        && forall l :: k < l < n && entries[l].item == item ==> entries[l].before == [];
      assert all[k].item == item;
    }
  }

  lemma LastIsOne(entries: seq<Entry>, item: string, a: string, b: string, c: seq<string>, d: seq<string>)
    ensures LastComment(entries, item, a) && LastComment(entries, item, b) ==> a == b
    ensures LastBefore(entries, item, c) && LastBefore(entries, item, d) ==> c == d
  {
  }

  /** So an entry has the last word exactly if its comments, of both kinds, are those of the last entry of its item that
      has any of that kind. */
  lemma {:induction false} LastWordIff(entries: seq<Entry>, e: Entry)
    ensures HasTheLastWord(entries, e)
            <==> LastComment(entries, e.item, e.comment) && LastBefore(entries, e.item, e.before)
  {
    var d := EntriesDeco(entries);
    LastCommentIs(entries, e.item);
    LastIsOne(entries, e.item, e.comment, InlineComment(d, e.item), e.before, CommentsBefore(d, e.item));
    hide EntriesDeco, LastComment, LastBefore, CommentsBefore, InlineComment;
  }

  lemma EntriesIn(d: Deco, items: seq<string>, e: Entry)
    ensures e in EntriesOf(d, items)
            <==> e.item in items && e.before == CommentsBefore(d, e.item) && e.comment == InlineComment(d, e.item)
  {
    hide CommentsBefore, InlineComment;
    var r := EntriesOf(d, items);
    if e in r {
      var k :| 0 <= k < |r| && r[k] == e;
      assert items[k] == e.item;
    }
    if e.item in items {
      var k :| 0 <= k < |items| && items[k] == e.item;
      assert r[k].item == e.item;
    }
  }

  /** What stands in a list after it was replaced. */
  lemma RenderedNotes(key: string, items: seq<string>, existing: seq<string>, e: Entry)
    requires CleanItems(items) && forall i :: 0 <= i < |existing| ==> OneLine(existing[i])
    ensures var n, n' := NotesOf(existing), NotesOf(Render(key, Items(items), existing));
            && (e in n'.entries <==> e.item in items && HasTheLastWord(n.entries, e))
            && n'.trailing == if items == [] then [] else n.trailing
  {
    hide CleanItems, CommentTexts, NotesOf, EntriesDeco, EntriesOf, Decoration, Block, CommentsBefore, InlineComment;
    var n, d := NotesOf(existing), Decoration(existing);
    DecorationTexts(existing);
    DecorationIsNotes(existing);
    CleanNonBlank(items);
    NotesOfBlock(key, items, d);
    EntriesIn(d, items, e);
    SameLookup(EntriesDeco(n.entries), n.trailing, e.item);
  }

  lemma SameLookup(d: Deco, pending: seq<string>, item: string)
    ensures CommentsBefore(d.(pending := pending), item) == CommentsBefore(d, item)
    ensures InlineComment(d.(pending := pending), item) == InlineComment(d, item)
  {
  }

  /** Replacing a list keeps every comment on its item exactly when no commented item is left
      out, none is repeated with other comments later on, and the list does not become empty
      under closing comments. */
  lemma CommentConservation(key: string, items: seq<string>, existing: seq<string>)
    requires CleanItems(items) && forall i :: 0 <= i < |existing| ==> OneLine(existing[i])
    ensures var n, n' := NotesOf(existing), NotesOf(Render(key, Items(items), existing));
            CommentsSurvive(n, n') <==>
              && (forall e :: e in n.entries && (e.before != [] || e.comment != "") ==>
                    e.item in items && HasTheLastWord(n.entries, e))
              && (items != [] || n.trailing == [])
  {
    hide CleanItems, NotesOf, HasTheLastWord, Render;
    var n, n' := NotesOf(existing), NotesOf(Render(key, Items(items), existing));
    forall e ensures e in n'.entries <==> e.item in items && HasTheLastWord(n.entries, e) {
      RenderedNotes(key, items, existing, e);
    }
    RenderedNotes(key, items, existing, Entry("", [], ""));
  }

  /** The promise of the tool: keeping all items keeps all comments. */
  lemma AllItemsKeepComments(key: string, items: seq<string>, existing: seq<string>)
    requires CleanItems(items) && forall i :: 0 <= i < |existing| ==> OneLine(existing[i])
    requires Distinct(NotesOf(existing).entries)
    requires items != [] && forall e :: e in NotesOf(existing).entries ==> e.item in items
    ensures CommentsSurvive(NotesOf(existing), NotesOf(Render(key, Items(items), existing)))
    ensures forall e :: e in NotesOf(existing).entries ==> e in NotesOf(Render(key, Items(items), existing)).entries
  {
    hide CleanItems, NotesOf, Render, EntriesDeco, Distinct, CommentsBefore, InlineComment;
    var n := NotesOf(existing);
    forall e | e in n.entries ensures e in NotesOf(Render(key, Items(items), existing)).entries {
      var i :| 0 <= i < |n.entries| && n.entries[i] == e;
      DistinctLookup(n.entries, i);
      RenderedNotes(key, items, existing, e);
    }
    RenderedNotes(key, items, existing, Entry("", [], ""));
  }

  /** An item listed twice with two comments, standalone or inline, cannot keep both, whatever
      the new list is. */
  lemma RepeatedItemLosesComment(key: string, items: seq<string>, existing: seq<string>, a: Entry, b: Entry)
    requires CleanItems(items) && forall i :: 0 <= i < |existing| ==> OneLine(existing[i])
    requires a in NotesOf(existing).entries && b in NotesOf(existing).entries
    requires a != b && a.item == b.item
    requires (a.before != [] || a.comment != "") && (b.before != [] || b.comment != "")
    ensures !CommentsSurvive(NotesOf(existing), NotesOf(Render(key, Items(items), existing)))
  {
    hide CleanItems, NotesOf, EntriesDeco, Render, CommentsSurvive;
    CommentConservation(key, items, existing);
  }

  /** Such a block: the same item twice, each time with its own inline comment. */
  lemma ItemTwice(head: string, item: string, c1: string, c2: string)
    requires CleanItem(item) && IsCommentText(c1) && IsCommentText(c2)
    ensures NotesOf([head, INDENT + WithComment(item, c1), INDENT + WithComment(item, c2)])
            == Notes([Entry(item, [], c1), Entry(item, [], c2)], [])
  {
    hide NoteStep, WithComment, CleanItem, NotesOver;
    var a, b := INDENT + WithComment(item, c1), INDENT + WithComment(item, c2);
    assert [head, a, b][1..] == [a] + [b];
    NotesConcat(NO_NOTES, [a], [b]);
    NoteItem(NO_NOTES, item, c1);
    assert [] + [Entry(item, [], c1)] == [Entry(item, [], c1)];
    NoteItem(Notes([Entry(item, [], c1)], []), item, c2);
    assert [Entry(item, [], c1)] + [Entry(item, [], c2)] == [Entry(item, [], c1), Entry(item, [], c2)];
  }

  /** Writing an empty list drops every comment of the block. */
  lemma EmptyListDropsComments(key: string, existing: seq<string>)
    ensures Render(key, Items([]), existing) == [key + ":"]
    ensures NotesOf(Render(key, Items([]), existing)) == NO_NOTES
  {
    assert [key + ":"][1..] == [];
  }

  // ---- single-line values ----

  lemma {:induction false} IndexOfAt(s: string, c: char, a: string, b: string)
    requires s == a + [c] + b && c !in a
    ensures IndexOf(s, c, 0) == |a| && After(s, c) == b
  {
    assert s[|a|] == c;
    assert forall j :: 0 <= j < |a| ==> s[j] == a[j];
    assert s[|a| + 1..] == b;
  }

  lemma AfterAbsent(s: string, c: char)
    requires c !in s
    ensures After(s, c) == s
  {
  }

  lemma CommentOfBody(body: string, gap: string, comment: string)
    requires (body == "" || !IsSpace(body[|body| - 1])) && forall j :: 0 <= j < |body| ==> !CommentAt(body, j)
    requires AllSpace(gap) && (gap == "" ==> comment == "") && (comment == "" || IsCommentText(comment))
    ensures CommentIn(body + gap + comment) == comment
  {
    var s := body + gap + comment;
    forall j | 0 <= j < |body| + |gap| ensures !CommentAt(s, j) {
      if j < |body| {
        assert s[j] == body[j] && !CommentAt(body, j);
      } else {
        assert s[j] == gap[j - |body|];
      }
    }
    if comment != "" {
      assert s[|body| + |gap|] == comment[0];
      assert s[|body| + |gap| - 1] == gap[|gap| - 1];
    }
    CommentStartIs(s, |body| + |gap|);
    assert s[..|body| + |gap|] == body + gap;
    RStripSuffix(body, gap);
    assert s[|body|..] == gap + comment + "";
    StripIs(gap, comment, "");
  }

  /** What a caller can check: the second write finds the same comment again. */
  predicate StableText(text: string, comment: string) {
    if '=' in text then
      var rest := After(text, '=');
      rest == "" || !IsCommentChar(rest[0])
    else '=' !in comment
  }

  /** The gap `Render` leaves between a text and its comment. */
  function Gap(comment: string): string {
    if comment == "" then "" else "  "
  }

  lemma RenderedBody(key: string, text: string, comment: string)
    requires ValidKey(key)
    ensures TrailingComment(key + ": " + WithComment(text, comment))
            == CommentIn(After(" " + text + Gap(comment) + comment, '='))
  {
    var line, body := key + ": " + WithComment(text, comment), " " + text + Gap(comment) + comment;
    assert line == key + [':'] + body;
    assert forall i :: 0 <= i < |key| ==> !IsSeparator(key[i]);
    IndexOfAt(line, ':', key, body);
  }

  lemma PlainBody(text: string, comment: string)
    requires Clean(text) && (comment == "" || IsCommentText(comment))
    ensures CommentIn(" " + text + Gap(comment) + comment) == comment
  {
    CleanIff(text);
    if text == "" {
      CommentOfBody("", " " + Gap(comment), comment);
      assert " " + text + Gap(comment) + comment == "" + (" " + Gap(comment)) + comment;
    } else {
      forall j | 0 <= j < |text| + 1 ensures !CommentAt(" " + text, j) {
        if j > 0 {
          assert !CommentAt(text, j - 1);
        }
      }
      CommentOfBody(" " + text, Gap(comment), comment);
    }
  }

  lemma TrailingAfterPlain(text: string, comment: string)
    requires Clean(text) && (comment == "" || IsCommentText(comment)) && '=' !in text
    ensures var t := CommentIn(After(" " + text + Gap(comment) + comment, '='));
            if '=' in comment then |t| < |comment| else t == comment
  {
    hide CommentIn, Clean;
    var body := " " + text + Gap(comment) + comment;
    if '=' in comment {
      var i := IndexOf(comment, '=', 0);
      var left, rest := " " + text + Gap(comment) + comment[..i], comment[i + 1..];
      assert comment == comment[..i] + ['='] + rest;
      assert body == left + ['='] + rest;
      IndexOfAt(body, '=', left, rest);
      CommentInShort(rest);
    } else {
      AfterAbsent(body, '=');
      PlainBody(text, comment);
    }
  }

  lemma CommentInShort(s: string)
    ensures |CommentIn(s)| <= |s|
  {
    StripIdempotent(s[|StripInline(s)|..]);
  }

  lemma SplitAtEquals(text: string) returns (left: string, rest: string)
    requires Clean(text) && '=' in text
    ensures text == left + ['='] + rest && '=' !in left && After(text, '=') == rest
    ensures rest == "" || !IsSpace(rest[|rest| - 1])
    ensures forall j :: 0 < j < |rest| ==> !CommentAt(rest, j)
  {
    var i := IndexOf(text, '=', 0);
    left, rest := text[..i], text[i + 1..];
    CleanIff(text);
    forall j | 0 < j < |rest| ensures !CommentAt(rest, j) {
      assert !CommentAt(text, i + 1 + j);
      assert rest[j] == text[i + 1 + j] && rest[j - 1] == text[i + j];
    }
  }

  lemma Regroup(left: string, rest: string, gap: string, comment: string)
    ensures " " + (left + ['='] + rest) + gap + comment == " " + left + ['='] + (rest + gap + comment)
  {
  }

  lemma TrailingAfterEquals(text: string, comment: string)
    requires Clean(text) && (comment == "" || IsCommentText(comment)) && '=' in text
    ensures var t := CommentIn(After(" " + text + Gap(comment) + comment, '='));
            if StableText(text, comment) then t == comment else |t| > |comment|
  {
    hide CommentIn, StripInline, After, IndexOf, Clean, IsCommentText;
    var left, rest := SplitAtEquals(text);
    var tail := rest + Gap(comment) + comment;
    Regroup(left, rest, Gap(comment), comment);
    IndexOfAt(" " + text + Gap(comment) + comment, '=', " " + left, tail);
    CommentAfterEquals(rest, comment);
  }

  lemma CommentAfterEquals(rest: string, comment: string)
    requires rest == "" || !IsSpace(rest[|rest| - 1])
    requires forall j :: 0 < j < |rest| ==> !CommentAt(rest, j)
    requires comment == "" || IsCommentText(comment)
    ensures var t := CommentIn(rest + Gap(comment) + comment);
            if rest == "" || !IsCommentChar(rest[0]) then t == comment else |t| > |comment|
  {
    hide CommentIn;
    if rest != "" && IsCommentChar(rest[0]) {
      WholeComment(rest + Gap(comment) + comment);
    } else {
      CommentOfBody(rest, Gap(comment), comment);
    }
  }

  /** A text that opens with a comment character is a comment altogether. */
  lemma WholeComment(s: string)
    requires Trimmed(s) && s != "" && IsCommentChar(s[0])
    ensures CommentIn(s) == s
  {
    assert CommentAt(s, 0);
    CommentStartIs(s, 0);
    assert s[..0] == "" && s[0..] == s;
    StripTrimmed(s);
  }

  /** Writing the same text a second time changes nothing exactly when the line written
      first is not cut in two by its own `=`. */
  lemma SingleIdempotent(key: string, text: string, existing: seq<string>)
    requires ValidKey(key) && Clean(text) && forall i :: 0 <= i < |existing| ==> OneLine(existing[i])
    ensures var once := Render(key, Single(text), existing);
            Render(key, Single(text), once) == once <==> StableText(text, KeptComment(existing))
  {
    hide CommentIn, StripInline;
    var comment := KeptComment(existing);
    KeptCommentText(existing);
    RenderedBody(key, text, comment);
    if '=' in text {
      TrailingAfterEquals(text, comment);
    } else {
      TrailingAfterPlain(text, comment);
    }
    hide TrailingComment, StableText;
    var once := Render(key, Single(text), existing);
    var line := key + ": " + WithComment(text, comment);
    assert once == [line] && KeptComment(once) == TrailingComment(line);
    WithCommentInjective(text, comment, TrailingComment(line));
  }

  lemma WithCommentInjective(text: string, c: string, c': string)
    ensures WithComment(text, c) == WithComment(text, c') <==> c == c'
  {
    if c != "" && c' != "" && WithComment(text, c) == WithComment(text, c') {
      assert WithComment(text, c)[|text| + 2..] == c && WithComment(text, c')[|text| + 2..] == c';
    }
  }
}
