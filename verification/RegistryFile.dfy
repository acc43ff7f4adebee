/** The registry object: its types, the document behind them, and the file both come from. */
module RegistryFile {
  import opened Text
  import opened CfgLine
  import opened CfgIndex
  import opened CfgRender
  import opened CfgEdit
  import opened CfgTable
  import opened CfgText
  import opened CfgDocuments
  import opened Registry
  import opened RegistryLaws

  // ---- saving, on the lines of the document ----

  function EditLines(lines: seq<string>, section: string, e: Edit): seq<string> {
    match e
    case PutE(key, value) => SetLines(lines, section, key, value).lines
    case DropE(key) => RemoveOptionLines(lines, section, key)
  }

  function EditsLines(lines: seq<string>, section: string, edits: seq<Edit>): seq<string> {
    if edits == [] then lines
    else EditLines(EditsLines(lines, section, edits[..|edits| - 1]), section, edits[|edits| - 1])
  }

  function SaveTypesLines(lines: seq<string>, types: seq<McuType>): seq<string> {
    if types == [] then lines
    else
      var m := types[|types| - 1];
      EditsLines(SaveTypesLines(lines, types[..|types| - 1]), SectionName(m.name), Edits(m))
  }

  function RemoveSectionsLines(lines: seq<string>, names: seq<string>): seq<string> {
    if names == [] then lines
    else RemoveSectionLines(RemoveSectionsLines(lines, names[..|names| - 1]), names[|names| - 1])
  }

  /** Sections to remove, as the index of the document lists them. */
  function Stale(secs: seq<Sec>, types: seq<McuType>): seq<string> {
    if secs == [] then []
    else
      var name := Last(secs).name;
      Stale(secs[..|secs| - 1], types)
      + (if Under(PREFIX, name) && FindType(types, TypeName(name)) == |types| then [name] else [])
  }

  function SaveLines(lines: seq<string>, types: seq<McuType>): seq<string> {
    SaveTypesLines(RemoveSectionsLines(lines, Stale(Live(CfgIndex.Parse(lines)), types)), types)
  }

  /** What the lines of a document can hold at all: names that make a header, items of one line. */
  ghost predicate Storable(m: McuType) {
    && ValidName(SectionName(m.name))
    && forall e :: e in Edits(m) && e.PutE? ==> OneLineValue(e.value)
  }

  ghost predicate Plain(s: string) {
    forall i :: 0 <= i < |s| ==> 'a' <= s[i] <= 'z' || s[i] == '_'
  }

  lemma PlainKey(key: string)
    requires key != "" && Plain(key)
    ensures ValidKey(key)
  {
  }

  lemma PlainConcat(a: string, b: string)
    requires Plain(a) && Plain(b)
    ensures Plain(a + b)
  {
  }

  lemma FirmwareKeys(fw: string)
    requires fw != "" && Plain(fw)
    ensures ValidKey(fw + "_extra_args") && ValidKey(fw + "_makefile_patches")
  {
    assert Plain("_extra_args") && Plain("_makefile_patches");
    PlainConcat(fw, "_extra_args");
    PlainConcat(fw, "_makefile_patches");
    PlainKey(fw + "_extra_args");
    PlainKey(fw + "_makefile_patches");
  }

  lemma PlainWords()
    ensures Plain("klipper") && Plain("katapult")
    ensures Plain("chipset") && Plain("serials") && Plain("katapult_installed")
  {
  }

  lemma EditKeysValid(m: McuType)
    ensures forall i :: 0 <= i < |Edits(m)| ==> ValidKey(Edits(m)[i].key)
  {
    EditKeys(m);
    hide Edits, ValidKey, Plain;
    PlainWords();
    FirmwareKeys("klipper");
    FirmwareKeys("katapult");
    PlainKey("chipset");
    PlainKey("serials");
    PlainKey("katapult_installed");
  }

  lemma RemoveOneLines(lines: seq<string>, name: string, key: string)
    requires OneLines(lines)
    ensures OneLines(RemoveOptionLines(lines, name, key))
  {
    Spans(lines);
    hide CfgIndex.Parse;
  }

  lemma RemoveSectionOneLines(lines: seq<string>, name: string)
    requires OneLines(lines)
    ensures OneLines(RemoveSectionLines(lines, name))
  {
    Spans(lines);
    hide CfgIndex.Parse;
  }

  lemma EditRefines(lines: seq<string>, section: string, e: Edit)
    requires OneLines(lines) && ValidKey(e.key) && ValidName(section)
    requires e.PutE? ==> OneLineValue(e.value)
    ensures OneLines(EditLines(lines, section, e))
    ensures e.DropE? || CleanValue(e.value) ==>
      TableOf(EditLines(lines, section, e)) == EditTable(TableOf(lines), section, e)
  {
    hide TableOf, SetLines, RemoveOptionLines, Put, Drop, ValidKey, ValidName, CleanValue, OneLineValue, Written;
    match e
    case PutE(key, value) =>
      SetOneLines(lines, section, key, value);
      SetRefines(lines, section, key, value);
      AddSectionRefines(lines, section);
      if CleanValue(value) {
        WrittenClean(AddSectionLines(lines, section), section, key, value);
      }
    case DropE(key) =>
      RemoveOneLines(lines, section, key);
      RemoveRefines(lines, section, key);
  }

  lemma {:induction false} EditsRefine(lines: seq<string>, section: string, edits: seq<Edit>)
    requires OneLines(lines) && ValidName(section)
    requires forall i :: 0 <= i < |edits| ==>
      ValidKey(edits[i].key) && (edits[i].PutE? ==> OneLineValue(edits[i].value))
    ensures OneLines(EditsLines(lines, section, edits))
    ensures (forall i :: 0 <= i < |edits| && edits[i].PutE? ==> CleanValue(edits[i].value)) ==>
            TableOf(EditsLines(lines, section, edits)) == EditsTable(TableOf(lines), section, edits)
    decreases |edits|
  {
    hide TableOf, EditLines, EditTable, ValidKey, ValidName, CleanValue, OneLineValue, OneLines;
    if edits != [] {
      EditsRefine(lines, section, edits[..|edits| - 1]);
      EditRefines(EditsLines(lines, section, edits[..|edits| - 1]), section, edits[|edits| - 1]);
    }
  }

  ghost predicate CleanEdit(e: Edit) {
    e.PutE? ==> CleanValue(e.value) && OneLineValue(e.value)
  }

  lemma CleanFirmwareEdits(fw: string, f: Firmware)
    requires CleanFirmware(f)
    ensures |FirmwareEdits(fw, f)| == 2 && forall i :: 0 <= i < 2 ==> CleanEdit(FirmwareEdits(fw, f)[i])
  {
    CleanRendered(f);
    hide StripInline, ValidPatches, RenderPatches, FindArrow, RenderPatch, Strip;
  }

  lemma CleanEdits(m: McuType)
    requires CleanType(m)
    ensures forall i :: 0 <= i < |Edits(m)| ==> CleanEdit(Edits(m)[i])
  {
    hide CleanEdit, FirmwareEdits, CleanFirmware, BaseEdits, Clean;
    CleanBaseEdits(m);
    CleanFirmwareEdits("klipper", m.klipper);
    CleanFirmwareEdits("katapult", m.katapult);
    forall i | 0 <= i < |Edits(m)| ensures CleanEdit(Edits(m)[i]) {
      assert i >= 5 ==> Edits(m)[i] == FirmwareEdits("katapult", m.katapult)[i - 5];
      assert 3 <= i < 5 ==> Edits(m)[i] == FirmwareEdits("klipper", m.klipper)[i - 3];
    }
  }

  lemma CleanBaseEdits(m: McuType)
    requires CleanType(m)
    ensures |BaseEdits(m)| == 3 && forall i :: 0 <= i < 3 ==> CleanEdit(BaseEdits(m)[i])
  {
    FalseReads();
    hide StripInline, CleanFirmware, ParseBool;
  }

  lemma {:induction false} SaveTypesRefine(lines: seq<string>, types: seq<McuType>)
    requires OneLines(lines)
    requires forall i :: 0 <= i < |types| ==> Nameable(types[i].name) && CleanType(types[i])
    ensures OneLines(SaveTypesLines(lines, types))
    ensures TableOf(SaveTypesLines(lines, types)) == SaveTypes(TableOf(lines), types)
    decreases |types|
  {
    hide TableOf, Edits, EditsLines, EditsTable, Nameable, CleanType, OneLines, SectionName, ValidKey, ValidName,
         CleanValue, OneLineValue;
    if types != [] {
      var m := types[|types| - 1];
      SaveTypesRefine(lines, types[..|types| - 1]);
      NameableSection(m.name);
      CleanEdits(m);
      EditKeysValid(m);
      EditsRefine(SaveTypesLines(lines, types[..|types| - 1]), SectionName(m.name), Edits(m));
    }
  }

  lemma {:induction false} RemoveSectionsRefine(lines: seq<string>, names: seq<string>)
    requires OneLines(lines)
    ensures OneLines(RemoveSectionsLines(lines, names))
    ensures TableOf(RemoveSectionsLines(lines, names)) == DropRows(TableOf(lines), names)
    decreases |names|
  {
    hide TableOf, RemoveSectionLines, DropRow;
    if names != [] {
      var init := RemoveSectionsLines(lines, names[..|names| - 1]);
      RemoveSectionsRefine(lines, names[..|names| - 1]);
      RemoveSectionOneLines(init, names[|names| - 1]);
      RemoveSectionRefines(init, names[|names| - 1]);
    }
  }

  // ---- a document that loads has no repeated section ----

  lemma {:induction false} NoDuplicates(secs: seq<Sec>)
    ensures Dups(secs) == [] <==> DistinctRows(View(secs))
    ensures Dups(secs) == [] ==>
      |Live(secs)| == |secs| && forall i :: 0 <= i < |secs| ==> Live(secs)[i].name == secs[i].name
    decreases |secs|
  {
    hide Live, Dups, LiveSec, DistinctRows, View, FindSec;
    if secs == [] {
      NoDuplicatesEmpty();
    } else {
      var init, last := secs[..|secs| - 1], Last(secs);
      NoDuplicates(init);
      SnocParts(secs);
      LiveSnoc(init, last);
      LiveFind(init, last.name);
      DistinctSnoc(init, last);
      NamesSnoc(Live(init), LiveSec(last), init, last);
    }
  }

  lemma NoDuplicatesEmpty()
    ensures Dups([]) == [] && Live([]) == [] && DistinctRows(View([]))
  {
  }

  lemma NamesSnoc(a: seq<Sec>, x: Sec, b: seq<Sec>, y: Sec)
    ensures x.name == y.name && |a| == |b| && (forall i :: 0 <= i < |b| ==> a[i].name == b[i].name) ==>
      forall i :: 0 <= i < |b + [y]| ==> (a + [x])[i].name == (b + [y])[i].name
    ensures LiveSec(y).name == y.name
  {
  }

  lemma {:induction false} DistinctSnoc(init: seq<Sec>, last: Sec)
    ensures DistinctRows(View(init + [last])) <==> DistinctRows(View(init)) && FindSec(init, last.name) == |init|
  {
    var v, n := View(init), |init|;
    var v' := v + [Row(last.name, Pairs(last.opts))];
    ViewConcat(init, [last]);
    assert View([last]) == [Row(last.name, Pairs(last.opts))];
    var found := FindSec(init, last.name);
    assert forall i :: 0 <= i < n && i < found ==> v[i].name != last.name;
    assert found < n ==> v[found].name == last.name;
    hide FindSec, View, Pairs;
    DistinctAppend(v, v'[n], found);
  }

  lemma DistinctAppend(v: Table, row: Row, found: nat)
    requires found <= |v| && (found < |v| ==> v[found].name == row.name)
    requires forall i :: 0 <= i < found ==> v[i].name != row.name
    ensures DistinctRows(v + [row]) <==> DistinctRows(v) && found == |v|
  {
    var v' := v + [row];
    assert forall i :: 0 <= i < |v| ==> v'[i] == v[i];
    if found < |v| {
      assert v'[found].name == v'[|v|].name;
    }
    if DistinctRows(v') {
      forall a, b | 0 <= a < b < |v| ensures v[a].name != v[b].name {
        assert v'[a] == v[a] && v'[b] == v[b];
      }
    }
  }

  lemma {:induction false} StaleIsDoomed(secs: seq<Sec>, names: seq<Sec>, types: seq<McuType>)
    requires |secs| == |names| && forall i :: 0 <= i < |secs| ==> names[i].name == secs[i].name
    ensures Stale(names, types) == Doomed(View(secs), types)
    decreases |secs|
  {
    hide Under, TypeName, FindType;
    if secs != [] {
      var init := secs[..|secs| - 1];
      StaleIsDoomed(init, names[..|secs| - 1], types);
      assert View(secs)[..|secs| - 1] == View(init);
    }
  }

  /** Saving the object is saving its table. */
  lemma SaveRefines(lines: seq<string>, types: seq<McuType>)
    requires OneLines(lines) && Savable(TableOf(lines), types)
    ensures OneLines(SaveLines(lines, types))
    ensures TableOf(SaveLines(lines, types)) == SaveTable(TableOf(lines), types)
  {
    hide SaveTypesLines, RemoveSectionsLines, Stale, Live, SaveTypes, DropRows, Doomed, CleanType, Nameable,
         CfgIndex.Parse;
    var secs := CfgIndex.Parse(lines);
    NoDuplicates(secs);
    StaleIsDoomed(secs, Live(secs), types);
    var lines1 := RemoveSectionsLines(lines, Stale(Live(secs), types));
    RemoveSectionsRefine(lines, Stale(Live(secs), types));
    forall i | 0 <= i < |types| ensures Nameable(types[i].name) && CleanType(types[i]) {
      assert types[i] in types;
    }
    SaveTypesRefine(lines1, types);
  }

  // ---- loading a file ----

  /** The registry in a file: refused when a section is repeated or a patch cannot be read. */
  function LoadLines(lines: seq<string>): Loaded {
    if Dups(CfgIndex.Parse(lines)) != [] then Corrupt else LoadRows(TableOf(lines))
  }

  /** The same from text to text: what is loaded from the file that was written. */
  lemma FileRoundTrip(lines: seq<string>, types: seq<McuType>, name: string)
    requires OneLines(lines) && Savable(TableOf(lines), types) && name != ""
    ensures var t, loaded := TableOf(lines), LoadLines(SplitLines(RenderText(SaveLines(lines, types))));
            && (loaded.Types? <==> LoadsBack(t, types))
            && (loaded.Types? ==> Returned(t, TypeNamed(types, name), TypeNamed(loaded.types, name)))
  {
    hide SaveLines, RenderText, SplitLines, SaveTable, LoadRows, TypeNamed, CfgIndex.Parse,
         Savable, DistinctRows, LoadsBack, Returned;
    var saved := SaveLines(lines, types);
    SaveRefines(lines, types);
    RenderKeepsTable(saved);
    RegistryRoundTrip(TableOf(lines), types, name);
    SavedDistinct(TableOf(lines), types);
    NoDuplicates(CfgIndex.Parse(SplitLines(RenderText(saved))));
  }

  lemma SavedDistinct(t: Table, types: seq<McuType>)
    requires Savable(t, types)
    ensures DistinctRows(SaveTable(t, types))
  {
    hide SaveTable;
    SavedOpts(t, types, "");
  }

  // ---- the object ----

  function LoadNames(t: Table, names: seq<string>): Loaded {
    if names == [] then Types([])
    else
      var before, name := LoadNames(t, names[..|names| - 1]), names[|names| - 1];
      if before.Corrupt? || TypeName(name) == "" then before
      else
        match ReadType(TypeName(name), OptsOr(t, name))
        case Some(m) => Types(PutType(before.types, m))
        case None => Corrupt
  }

  /** Loading section by section, by name, is loading row by row. */
  lemma {:induction false} LoadNamesIsRows(secs: seq<Sec>, t: Table, n: nat)
    requires t == View(secs) && DistinctRows(t) && n <= |secs|
    ensures LoadNames(t, NamesUnder(secs[..n], PREFIX)) == LoadRows(t[..n])
    decreases n
  {
    hide ReadType, TypeName, Under, DistinctRows, OptsAt, PutType, LoadNames, LoadRows;
    if n == 0 {
      NoNames(t);
    } else {
      LoadNamesIsRows(secs, t, n - 1);
      assert secs[..n][..n - 1] == secs[..n - 1] && t[..n] == t[..n - 1] + [t[n - 1]];
      RowAt(t, n - 1);
      var names := NamesUnder(secs[..n - 1], PREFIX);
      NextName(t, names, secs[n - 1].name);
      NextRow(t[..n - 1], t[n - 1]);
      assert names + [] == names;
    }
  }

  lemma {:induction false} NoNames(t: Table)
    ensures LoadNames(t, []) == Types([]) == LoadRows([])
  {
  }

  lemma {:induction false} NextName(t: Table, names: seq<string>, name: string)
    ensures LoadNames(t, names + [name])
            == (var before := LoadNames(t, names);
                if before.Corrupt? || TypeName(name) == "" then before
                else if ReadType(TypeName(name), OptsOr(t, name)).None? then Corrupt
                else Types(PutType(before.types, ReadType(TypeName(name), OptsOr(t, name)).value)))
  {
    hide ReadType, TypeName, OptsOr, PutType;
    assert (names + [name])[..|names|] == names;
  }

  lemma {:induction false} NextRow(t: Table, row: Row)
    ensures LoadRows(t + [row])
            == (var before := LoadRows(t);
                if before.Corrupt? || !IsTypeRow(row) then before
                else if ReadType(TypeName(row.name), row.opts).None? then Corrupt
                else Types(PutType(before.types, ReadType(TypeName(row.name), row.opts).value)))
  {
    hide ReadType, TypeName, IsTypeRow, PutType;
    assert (t + [row])[..|t|] == t;
  }

  /** The index lists the same section names as the file when none is repeated. */
  lemma {:induction false} NamesOfLive(live: seq<Sec>, secs: seq<Sec>, prefix: string)
    requires |live| == |secs| && forall i :: 0 <= i < |secs| ==> live[i].name == secs[i].name
    ensures NamesUnder(live, prefix) == NamesUnder(secs, prefix)
    decreases |secs|
  {
    hide Under;
    if secs != [] {
      NamesOfLive(live[..|secs| - 1], secs[..|secs| - 1], prefix);
    }
  }

  lemma ValueOfOpts(t: Table, section: string, key: string)
    ensures ValueAt(t, section, key) == PairValue(OptsOr(t, section), key)
  {
    assert PairValue([], key) == None;
  }

  method ReadPatches(doc: CfgDocument, section: string, fw: string) returns (patches: Maybe<seq<Patch>>)
    requires doc.Valid()
    ensures patches == ParsePatches(Items0(PairValue(OptsOr(TableOf(doc.lines), section), fw + "_makefile_patches")))
  {
    ValueOfOpts(TableOf(doc.lines), section, fw + "_makefile_patches");
    var items := doc.GetList(section, fw + "_makefile_patches");
    var ps := [];
    for i := 0 to |items|
      invariant ParsePatches(items[..i]) == Some(ps)
    {
      assert items[..i + 1][..i] == items[..i];
      var patch := ParsePatch(items[i]);
      if patch.None? {
        PatchFails(items, i);
        return None;
      }
      ps := ps + [patch.value];
    }
    assert items[..|items|] == items;
    patches := Some(ps);
  }

  lemma {:induction false} PatchFails(items: seq<string>, i: nat)
    requires i < |items| && ParsePatch(items[i]).None?
    ensures ParsePatches(items).None?
    decreases |items|
  {
    if i < |items| - 1 {
      PatchFails(items[..|items| - 1], i);
    }
  }

  method ReadSection(doc: CfgDocument, section: string) returns (m: Maybe<McuType>)
    requires doc.Valid()
    ensures m == ReadType(TypeName(section), OptsOr(TableOf(doc.lines), section))
  {
    hide CfgIndex.Parse, TableOf, ParsePatches, PairValue, OptsAt, ListOf, ParseBool, TypeName, Strip, ValueAt;
    ghost var t := TableOf(doc.lines);
    var chipset := doc.Get(section, "chipset");
    ValueOfOpts(t, section, "chipset");
    var serials := doc.GetList(section, "serials");
    ValueOfOpts(t, section, "serials");
    var klipperArgs := doc.Get(section, "klipper" + "_extra_args");
    ValueOfOpts(t, section, "klipper" + "_extra_args");
    var klipper := ReadPatches(doc, section, "klipper");
    if klipper.None? {
      return None;
    }
    var katapultArgs := doc.Get(section, "katapult" + "_extra_args");
    ValueOfOpts(t, section, "katapult" + "_extra_args");
    var katapult := ReadPatches(doc, section, "katapult");
    if katapult.None? {
      return None;
    }
    var installed := doc.Get(section, "katapult_installed");
    ValueOfOpts(t, section, "katapult_installed");
    m := Some(McuType(TypeName(section), Text0(chipset), serials, Firmware(Text0(klipperArgs), klipper.value),
                      Firmware(Text0(katapultArgs), katapult.value),
                      if installed.None? then None else ParseBool(installed.value)));
  }

  method LoadTypes(doc: CfgDocument, names: seq<string>) returns (loaded: Loaded)
    requires doc.Valid()
    ensures loaded == LoadNames(TableOf(doc.lines), names)
  {
    hide CfgIndex.Parse, Live, Dups, ReadType, TypeName, TableOf, OptsAt;
    ghost var t := TableOf(doc.lines);
    var types := [];
    for i := 0 to |names|
      invariant LoadNames(t, names[..i]) == Types(types)
    {
      assert names[..i + 1][..i] == names[..i];
      if TypeName(names[i]) == "" {
        continue;
      }
      var m := ReadSection(doc, names[i]);
      if m.None? {
        LoadFails(t, names, i);
        return Corrupt;
      }
      types := PutType(types, m.value);
    }
    assert names[..|names|] == names;
    loaded := Types(types);
  }

  method Load(text: string) returns (loaded: Loaded, doc: CfgDocument)
    ensures doc.Valid() && fresh(doc) && doc.lines == SplitLines(text)
    ensures loaded == LoadLines(doc.lines)
  {
    doc := new CfgDocument(text);
    hide CfgIndex.Parse, Live, Dups, LoadNames, LoadRows, DistinctRows, NamesUnder;
    NoDuplicates(CfgIndex.Parse(doc.lines));
    if doc.duplicates != [] {
      return Corrupt, doc;
    }
    var names := doc.SectionNames(PREFIX);
    LoadedNames(doc.sections, doc.lines);
    loaded := LoadTypes(doc, names);
  }

  lemma {:induction false} LoadedNames(live: seq<Sec>, lines: seq<string>)
    requires var secs := CfgIndex.Parse(lines);
             |live| == |secs| && forall i :: 0 <= i < |secs| ==> live[i].name == secs[i].name
    requires DistinctRows(TableOf(lines))
    ensures LoadNames(TableOf(lines), NamesUnder(live, PREFIX)) == LoadRows(TableOf(lines))
  {
    hide CfgIndex.Parse, LoadNames, LoadRows, DistinctRows, NamesUnder;
    var secs, t := CfgIndex.Parse(lines), TableOf(lines);
    NamesOfLive(live, secs, PREFIX);
    LoadNamesIsRows(secs, t, |secs|);
    assert secs[..|secs|] == secs && t[..|secs|] == t;
  }

  lemma {:induction false} LoadFails(t: Table, names: seq<string>, i: nat)
    requires i < |names| && TypeName(names[i]) != "" && ReadType(TypeName(names[i]), OptsOr(t, names[i])).None?
    ensures LoadNames(t, names).Corrupt?
    decreases |names|
  {
    hide ReadType, TypeName, OptsAt;
    if i < |names| - 1 {
      LoadFails(t, names[..|names| - 1], i);
    }
  }

  function WithSerial(m: McuType, serial: string): McuType {
    m.(serials := m.serials + [serial])
  }

  class RegistryObject {
    var types: seq<McuType>
    const doc: CfgDocument

    constructor (types: seq<McuType>, doc: CfgDocument)
      ensures this.types == types && this.doc == doc
    {
      this.types, this.doc := types, doc;
    }

    /** Removes the sections of types that are gone, writes those of the others, and returns
        the text for the file. */
    method Save() returns (text: string)
      requires doc.Valid() && forall i :: 0 <= i < |types| ==> Storable(types[i])
      modifies doc
      ensures doc.Valid() && doc.lines == SaveLines(old(doc.lines), types)
      ensures text == RenderText(doc.lines)
    {
      hide CfgIndex.Parse, Live, Dups, Storable, SectionName, Edits, EditsLines, RemoveSectionsLines, Stale;
      RemoveStale();
      ghost var lines1 := doc.lines;
      for i := 0 to |types|
        invariant doc.Valid() && doc.lines == SaveTypesLines(lines1, types[..i])
      {
        assert types[..i + 1][..i] == types[..i];
        SaveType(types[i]);
      }
      assert types[..|types|] == types;
      text := doc.RenderDocument();
    }

    method RemoveStale()
      requires doc.Valid()
      modifies doc
      ensures doc.Valid()
      ensures doc.lines == RemoveSectionsLines(old(doc.lines), Stale(Live(CfgIndex.Parse(old(doc.lines))), types))
    {
      hide CfgIndex.Parse, Live, Dups, TypeName, Under;
      ghost var lines0 := doc.lines;
      var names := doc.SectionNames(PREFIX);
      var stale := [];
      for i := 0 to |names|
        invariant stale == StaleNames(names[..i], types)
        invariant doc.Valid() && doc.lines == RemoveSectionsLines(lines0, stale)
      {
        assert names[..i + 1][..i] == names[..i];
        if FindType(types, TypeName(names[i])) == |types| {
          var _ := doc.RemoveSection(names[i]);
          assert (stale + [names[i]])[..|stale|] == stale;
          stale := stale + [names[i]];
        }
      }
      assert names[..|names|] == names;
      StaleNamesAre(Live(CfgIndex.Parse(lines0)), types);
    }

    method SaveType(m: McuType)
      requires doc.Valid() && Storable(m)
      modifies doc
      ensures doc.Valid() && doc.lines == EditsLines(old(doc.lines), SectionName(m.name), Edits(m))
    {
      hide CfgIndex.Parse, Live, Dups, SectionName, Edits, SetLines, RemoveOptionLines, ValidKey, OneLineValue;
      var section, edits := SectionName(m.name), Edits(m);
      ghost var lines0 := doc.lines;
      EditKeysValid(m);
      for i := 0 to |edits|
        invariant doc.Valid() && doc.lines == EditsLines(lines0, section, edits[..i])
      {
        assert edits[..i + 1][..i] == edits[..i];
        assert edits[i] in edits;
        match edits[i]
        case PutE(key, value) =>
          var _ := doc.Set(section, key, value);
        case DropE(key) =>
          var _ := doc.RemoveOption(section, key);
      }
      assert edits[..|edits|] == edits;
    }

    // -- changing the types --

    /** Returns false when the serial is already tracked under this type; `None` when there is
        no such type. */
    method AddSerial(name: string, serial: string) returns (added: Maybe<bool>)
      modifies this`types
      ensures added.None? <==> TypeNamed(old(types), name).None?
      ensures added != Some(true) ==> types == old(types)
      ensures added.Some? ==> (added.value <==> serial !in TypeNamed(old(types), name).value.serials)
      ensures forall other :: TypeNamed(types, other) == (
                if other == name && added == Some(true)
                then Some(WithSerial(TypeNamed(old(types), name).value, serial))
                else TypeNamed(old(types), other))
    {
      var k := FindType(types, name);
      if k == |types| {
        return None;
      }
      if serial in types[k].serials {
        return Some(false);
      }
      var m := WithSerial(types[k], serial);
      forall other
        ensures TypeNamed(types[k := m], other) == if other == name then Some(m) else TypeNamed(types, other)
      {
        PutTypeNamed(types, m, other);
      }
      types := types[k := m];
      added := Some(true);
    }

    method RemoveType(name: string) returns (removed: Maybe<McuType>)
      modifies this`types
      ensures removed == TypeNamed(old(types), name)
      ensures types == if removed.None? then old(types)
                       else old(types)[..FindType(old(types), name)] + old(types)[FindType(old(types), name) + 1..]
    {
      var k := FindType(types, name);
      if k == |types| {
        return None;
      }
      removed := Some(types[k]);
      types := types[..k] + types[k + 1..];
    }

    /** The types a serial is tracked under, in order. */
    method FindTypesForSerial(serial: string) returns (names: seq<string>)
      ensures names == Trackers(types, serial)
    {
      names := [];
      for i := 0 to |types|
        invariant names == Trackers(types[..i], serial)
      {
        assert types[..i + 1][..i] == types[..i];
        if serial in types[i].serials {
          names := names + [types[i].name];
        }
      }
      assert types[..|types|] == types;
    }

    /** Which type a serial belongs to, or why that cannot be said. */
    method ResolveSerial(serial: string, wanted: Maybe<string>) returns (r: Resolved)
      ensures IsAnswer(types, serial, wanted, r)
    {
      var elsewhere := FindTypesForSerial(serial);
      if wanted.Some? {
        var k := FindType(types, wanted.value);
        if k == |types| {
          return UnknownType;
        }
        if serial in types[k].serials {
          return Resolved(wanted.value);
        }
        if elsewhere != [] {
          return TrackedElsewhere(elsewhere[0]);
        }
        return UnknownSerial;
      }
      if elsewhere == [] {
        return UnknownSerial;
      }
      if |elsewhere| > 1 {
        return Ambiguous;
      }
      r := Resolved(elsewhere[0]);
    }
  }

  datatype Resolved = Resolved(name: string) | UnknownType | UnknownSerial | TrackedElsewhere(name: string) | Ambiguous

  predicate ListsSerial(types: seq<McuType>, name: string, serial: string) {
    TypeNamed(types, name).Some? && serial in TypeNamed(types, name).value.serials
  }

  /** The one right answer to which type a serial belongs to. */
  predicate IsAnswer(types: seq<McuType>, serial: string, wanted: Maybe<string>, r: Resolved) {
    var trackers := Trackers(types, serial);
    if wanted.None? then
      if trackers == [] then r.UnknownSerial?
      else if |trackers| == 1 then r == Resolved(trackers[0])
      else r.Ambiguous?
    else if TypeNamed(types, wanted.value).None? then r.UnknownType?
    else if ListsSerial(types, wanted.value, serial) then r == Resolved(wanted.value)
    else if trackers == [] then r.UnknownSerial?
    else r == TrackedElsewhere(trackers[0])
  }

  function Trackers(types: seq<McuType>, serial: string): seq<string> {
    if types == [] then []
    else
      Trackers(types[..|types| - 1], serial)
      + (if serial in types[|types| - 1].serials then [types[|types| - 1].name] else [])
  }

  /** They are listed in the order of the types. */
  lemma {:induction false} TrackersInOrder(types: seq<McuType>, serial: string) returns (at: seq<nat>)
    ensures |at| == |Trackers(types, serial)|
    ensures forall k :: 0 <= k < |at| ==> at[k] < |types| && types[at[k]].name == Trackers(types, serial)[k]
    ensures forall k, l :: 0 <= k < l < |at| ==> at[k] < at[l]
    decreases |types|
  {
    if types == [] {
      at := [];
    } else {
      var n := |types| - 1;
      at := TrackersInOrder(types[..n], serial);
      if serial in types[n].serials {
        at := at + [n];
      }
    }
  }

  lemma {:induction false} TrackersOf(types: seq<McuType>, serial: string)
    ensures forall name :: name in Trackers(types, serial)
              <==> exists i :: 0 <= i < |types| && types[i].name == name && serial in types[i].serials
    decreases |types|
  {
    if types != [] {
      var init, last := types[..|types| - 1], types[|types| - 1];
      TrackersOf(init, serial);
      assert forall i :: 0 <= i < |init| ==> init[i] == types[i];
      forall name
        ensures name in Trackers(types, serial)
                <==> exists i :: 0 <= i < |types| && types[i].name == name && serial in types[i].serials
      {
        if name in Trackers(init, serial) {
          var i :| 0 <= i < |init| && init[i].name == name && serial in init[i].serials;
          assert types[i].name == name;
        }
      }
    }
  }

  function StaleNames(names: seq<string>, types: seq<McuType>): seq<string> {
    if names == [] then []
    else
      StaleNames(names[..|names| - 1], types)
      + (if FindType(types, TypeName(names[|names| - 1])) == |types| then [names[|names| - 1]] else [])
  }

  lemma {:induction false} StaleNamesAre(secs: seq<Sec>, types: seq<McuType>)
    ensures StaleNames(NamesUnder(secs, PREFIX), types) == Stale(secs, types)
    decreases |secs|
  {
    hide TypeName, Under, FindType;
    if secs != [] {
      var init, name := secs[..|secs| - 1], Last(secs).name;
      StaleNamesAre(init, types);
      var names := NamesUnder(init, PREFIX);
      assert (names + [name])[..|names|] == names && names + [] == names;
    }
  }
}
