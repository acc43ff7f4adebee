/** What a save does to the lines of the file that are not its own. The steps of `CfgKeep` are put together over all
    edits of a section, over all types, and over the sections that are removed before; the settings are one section
    with edits that only put. The keys that are edited are those of the types that are saved, the names that go are
    those of sections whose type is gone, and the lines that come from nowhere are blank lines and headers. The result
    says, for every single line of the old file, where it is in the new one, and for every line of the new file where it
    comes from, in the order of both. It holds for every document of lines, with sections and keys repeated or not. */
module SavedLines {
  import opened Text
  import opened CfgLine
  import opened CfgIndex
  import opened CfgRender
  import opened CfgEdit
  import opened CfgTable
  import opened CfgDocuments
  import opened Registry
  import opened RegistryLaws
  import opened RegistryFile
  import opened Settings
  import opened CfgKeep

  // ---- the edits of one section ----

  ghost predicate Makable(e: Edit) {
    ValidKey(e.key) && (e.PutE? ==> OneLineValue(e.value))
  }

  /** The keys of a section that edits speak of, and those they drop. */
  ghost function KeysOf(section: string, edits: seq<Edit>): Keys {
    set e | e in edits :: (section, e.key)
  }

  ghost function DroppedKeys(section: string, edits: seq<Edit>): Keys {
    set e | e in edits && e.DropE? :: (section, e.key)
  }

  /** Blank lines and headers of a name. */
  ghost predicate Plainly(added: seq<string>, names: set<string>) {
    forall i :: 0 <= i < |added| ==> added[i] == "" || exists name :: name in names && added[i] == "[" + name + "]"
  }

  lemma AddedIsPlain(lines: seq<string>, name: string)
    ensures |lines| <= |AddSectionLines(lines, name)| && Plainly(AddSectionLines(lines, name)[|lines|..], {name})
  {
    hide CfgIndex.Parse;
    var added := AddSectionLines(lines, name)[|lines|..];
    forall i | 0 <= i < |added| ensures added[i] == "" || exists n :: n in {name} && added[i] == "[" + n + "]" {
      assert added[i] == "" || (name in {name} && added[i] == "[" + name + "]");
    }
  }

  lemma NothingIsPlain(names: set<string>)
    ensures Plainly([], names)
  {
  }

  /** One edit keeps every line that is not its own. */
  lemma EditKeeps(lines: seq<string>, section: string, e: Edit, keys: Keys) returns (added: seq<string>)
    requires OneLines(lines) && ValidName(section) && Makable(e) && (section, e.key) in keys
    ensures OneLines(EditLines(lines, section, e)) && Plainly(added, {section})
    ensures Unowned(EditLines(lines, section, e), if e.PutE? then keys else keys - {(section, e.key)}, {})
            == Unowned(lines, keys, {}) + added
  {
    hide SetLines, RemoveOptionLines, Unowned, ValidKey, ValidName, OneLineValue, Plainly;
    match e
    case PutE(key, value) =>
      SetOneLines(lines, section, key, value);
      SetKeeps(lines, section, key, value, keys);
      AddedIsPlain(lines, section);
      added := AddSectionLines(lines, section)[|lines|..];
    case DropE(key) =>
      RemoveOneLines(lines, section, key);
      RemoveOptionKeeps(lines, section, key, keys);
      added := [];
      assert Plainly([], {section}) by { NothingIsPlain({section}); }
  }

  lemma PlainlyConcat(a: seq<string>, b: seq<string>, m: set<string>, n: set<string>)
    requires Plainly(a, m) && Plainly(b, n) && m <= n
    ensures Plainly(a + b, n)
  {
  }

  lemma LastEdit(section: string, edits: seq<Edit>, keys: Keys)
    requires edits != [] && DistinctKeys(edits) && KeysOf(section, edits) <= keys
    ensures var init, e := edits[..|edits| - 1], edits[|edits| - 1];
            && DistinctKeys(init) && KeysOf(section, init) <= keys
            && (section, e.key) in keys - DroppedKeys(section, init)
            && keys - DroppedKeys(section, edits)
               == (if e.PutE? then keys - DroppedKeys(section, init)
                   else keys - DroppedKeys(section, init) - {(section, e.key)})
  {
    var init, e := edits[..|edits| - 1], edits[|edits| - 1];
    assert edits == init + [e];
    assert e in edits;
    assert (section, e.key) in KeysOf(section, edits);
  }

  /** So do all edits of a section; a key that was dropped is nobody's from then on. */
  lemma {:induction false} EditsKeep(lines: seq<string>, section: string, edits: seq<Edit>, keys: Keys)
      returns (added: seq<string>)
    requires OneLines(lines) && ValidName(section) && DistinctKeys(edits) && KeysOf(section, edits) <= keys
    requires forall i :: 0 <= i < |edits| ==> Makable(edits[i])
    ensures OneLines(EditsLines(lines, section, edits)) && Plainly(added, {section})
    ensures Unowned(EditsLines(lines, section, edits), keys - DroppedKeys(section, edits), {})
            == Unowned(lines, keys, {}) + added
    decreases |edits|
  {
    hide EditLines, Unowned, ValidName, Makable, Plainly;
    if edits == [] {
      added := [];
      assert keys - DroppedKeys(section, edits) == keys;
      NothingIsPlain({section});
    } else {
      var init, e := edits[..|edits| - 1], edits[|edits| - 1];
      LastEdit(section, edits, keys);
      var before := EditsKeep(lines, section, init, keys);
      var more := EditKeeps(EditsLines(lines, section, init), section, e, keys - DroppedKeys(section, init));
      added := before + more;
      assert Unowned(lines, keys, {}) + before + more == Unowned(lines, keys, {}) + added;
      PlainlyConcat(before, more, {section}, {section});
    }
  }

  // ---- the edits of all types ----

  ghost function TypeKeys(types: seq<McuType>): Keys {
    set m, e | m in types && e in Edits(m) :: (SectionName(m.name), e.key)
  }

  ghost function TypeDrops(types: seq<McuType>): Keys {
    set m, e | m in types && e in Edits(m) && e.DropE? :: (SectionName(m.name), e.key)
  }

  ghost function SectionNames(types: seq<McuType>): set<string> {
    set m | m in types :: SectionName(m.name)
  }

  lemma SectionNameOf(a: string, b: string)
    requires SectionName(a) == SectionName(b)
    ensures a == b
  {
    assert SectionName(a)[|PREFIX| + 1..] == a && SectionName(b)[|PREFIX| + 1..] == b;
  }

  lemma LastType(types: seq<McuType>, keys: Keys)
    requires types != [] && DistinctTypes(types) && TypeKeys(types) <= keys
    ensures var init, m := types[..|types| - 1], types[|types| - 1];
            && DistinctTypes(init) && TypeKeys(init) <= keys
            && KeysOf(SectionName(m.name), Edits(m)) <= keys - TypeDrops(init)
            && keys - TypeDrops(types) == keys - TypeDrops(init) - DroppedKeys(SectionName(m.name), Edits(m))
            && SectionNames(init) <= SectionNames(types) && SectionName(m.name) in SectionNames(types)
  {
    hide Edits, SectionName;
    var init, m := types[..|types| - 1], types[|types| - 1];
    assert types == init + [m];
    assert forall n :: n in init ==> n.name != m.name;
    forall k | k in KeysOf(SectionName(m.name), Edits(m)) ensures k in keys - TypeDrops(init) {
      var e :| e in Edits(m) && k == (SectionName(m.name), e.key);
      assert m in types && k in TypeKeys(types);
      if k in TypeDrops(init) {
        var n, f :| n in init && f in Edits(n) && f.DropE? && k == (SectionName(n.name), f.key);
        SectionNameOf(n.name, m.name);
      }
    }
    assert forall n :: n in types <==> n in init || n == m;
    assert TypeDrops(types) == TypeDrops(init) + DroppedKeys(SectionName(m.name), Edits(m));
    assert forall k :: k in TypeKeys(init) ==> k in TypeKeys(types);
  }

  lemma NoTypes(keys: Keys)
    ensures keys - TypeDrops([]) == keys && Plainly([], SectionNames([]))
  {
  }

  lemma Joined(a: seq<string>, b: seq<string>, m: set<string>, name: string, n: set<string>)
      returns (added: seq<string>)
    requires Plainly(a, m) && Plainly(b, {name}) && m <= n && name in n
    ensures added == a + b && Plainly(added, n)
  {
    added := a + b;
  }

  lemma EditsMakable(m: McuType)
    requires Storable(m)
    ensures DistinctKeys(Edits(m)) && ValidName(SectionName(m.name))
    ensures forall i :: 0 <= i < |Edits(m)| ==> Makable(Edits(m)[i])
  {
    EditKeys(m);
    EditKeysValid(m);
    hide Edits, ValidKey, OneLineValue;
    forall i | 0 <= i < |Edits(m)| ensures Makable(Edits(m)[i]) {
      assert Edits(m)[i] in Edits(m);
    }
  }

  lemma {:induction false} TypesKeep(lines: seq<string>, types: seq<McuType>, keys: Keys) returns (added: seq<string>)
    requires OneLines(lines) && DistinctTypes(types) && TypeKeys(types) <= keys
    requires forall m :: m in types ==> Storable(m)
    ensures OneLines(SaveTypesLines(lines, types)) && Plainly(added, SectionNames(types))
    ensures Unowned(SaveTypesLines(lines, types), keys - TypeDrops(types), {}) == Unowned(lines, keys, {}) + added
    decreases |types|
  {
    hide Edits, EditsLines, Unowned, Storable, ValidName, Makable, Plainly, TypeKeys, TypeDrops, KeysOf, DroppedKeys,
         SectionName, SectionNames, DistinctTypes, DistinctKeys;
    if types == [] {
      added := [];
      NoTypes(keys);
    } else {
      var init, m := types[..|types| - 1], types[|types| - 1];
      assert m in types;
      EditsMakable(m);
      LastType(types, keys);
      var before := TypesKeep(lines, init, keys);
      var more := EditsKeep(SaveTypesLines(lines, init), SectionName(m.name), Edits(m), keys - TypeDrops(init));
      added := Joined(before, more, SectionNames(init), SectionName(m.name), SectionNames(types));
      assert Unowned(lines, keys, {}) + before + more == Unowned(lines, keys, {}) + added;
    }
  }

  // ---- the sections that go ----

  /** The names of sections whose type is gone. */
  ghost function GoneNames(lines: seq<string>, types: seq<McuType>): set<string> {
    set s | s in CfgIndex.Parse(lines) && Under(PREFIX, s.name)
            && (forall m :: m in types ==> m.name != TypeName(s.name)) :: s.name
  }

  ghost predicate DistinctNames(names: seq<string>) {
    forall i, j :: 0 <= i < j < |names| ==> names[i] != names[j]
  }

  lemma {:induction false} LiveDistinct(secs: seq<Sec>)
    ensures forall i, j :: 0 <= i < j < |Live(secs)| ==> Live(secs)[i].name != Live(secs)[j].name
  {
    if secs != [] {
      LiveDistinct(secs[..|secs| - 1]);
      hide FindSec;
    }
  }

  lemma {:induction false} StaleNames(secs: seq<Sec>, types: seq<McuType>)
    requires forall i, j :: 0 <= i < j < |secs| ==> secs[i].name != secs[j].name
    ensures DistinctNames(Stale(secs, types))
    ensures forall name :: name in Stale(secs, types)
              <==> Under(PREFIX, name) && FindType(types, TypeName(name)) == |types|
                   && exists i :: 0 <= i < |secs| && secs[i].name == name
  {
    hide Under, FindType, TypeName;
    if secs != [] {
      var init, last := secs[..|secs| - 1], Last(secs);
      StaleNames(init, types);
      assert secs[|secs| - 1].name == last.name;
      assert forall i :: 0 <= i < |init| ==> init[i] == secs[i];
    }
  }

  lemma {:induction false} StaleAreGone(lines: seq<string>, types: seq<McuType>)
    ensures var stale := Stale(Live(CfgIndex.Parse(lines)), types);
            && DistinctNames(stale) && (set n | n in stale) == GoneNames(lines, types)
  {
    hide CfgIndex.Parse, Under, TypeName, Live, Stale;
    var secs := CfgIndex.Parse(lines);
    var live := Live(secs);
    LiveDistinct(secs);
    StaleNames(live, types);
    forall name ensures name in Stale(live, types) <==> name in GoneNames(lines, types) {
      LiveFind(secs, name);
      assert FindSec(live, name) < |live| <==> exists i :: 0 <= i < |live| && live[i].name == name;
      assert FindSec(secs, name) < |secs| ==> secs[FindSec(secs, name)] in secs;
      var k := FindType(types, TypeName(name));
      assert k < |types| ==> types[k] in types;
    }
  }

  lemma {:induction false} SectionsKeep(lines: seq<string>, names: seq<string>, keys: Keys, gone: set<string>)
    requires OneLines(lines) && DistinctNames(names) && (forall n :: n in names ==> n in gone)
    requires forall k :: k in keys ==> k.0 !in gone
    ensures OneLines(RemoveSectionsLines(lines, names))
    ensures Unowned(RemoveSectionsLines(lines, names), keys, gone - set n | n in names) == Unowned(lines, keys, gone)
    decreases |names|
  {
    hide RemoveSectionLines, Unowned;
    if names == [] {
      assert gone - (set n | n in names) == gone;
    } else {
      var init, last := names[..|names| - 1], names[|names| - 1];
      SectionsKeep(lines, init, keys, gone);
      var before, left := RemoveSectionsLines(lines, init), gone - set n | n in init;
      assert last in left;
      RemoveSectionOneLines(before, last);
      RemoveSectionKeeps(before, last, keys, left);
      assert names == init + [last];
      assert left - {last} == gone - set n | n in names;
    }
  }

  // ---- the save ----

  /** Line `i` belongs to an option that saving the types sets or drops, or to a section that it removes. */
  ghost predicate Touched(lines: seq<string>, types: seq<McuType>, i: int) {
    Owned(CfgIndex.Parse(lines), TypeKeys(types), GoneNames(lines, types), i)
  }

  /** Line `l` belongs to an option that saving the types set. */
  ghost predicate Printed(lines: seq<string>, types: seq<McuType>, l: int) {
    Edited(CfgIndex.Parse(lines), TypeKeys(types) - TypeDrops(types), l)
  }

  lemma {:induction false} SaveIs(lines: seq<string>, types: seq<McuType>)
    ensures SaveLines(lines, types)
            == SaveTypesLines(RemoveSectionsLines(lines, Stale(Live(CfgIndex.Parse(lines)), types)), types)
  {
    hide CfgIndex.Parse, SaveTypesLines, RemoveSectionsLines, Stale, Live;
  }

  lemma TypesStay(lines: seq<string>, types: seq<McuType>)
    requires DistinctTypes(types)
    ensures forall k :: k in TypeKeys(types) ==> k.0 !in GoneNames(lines, types)
  {
    hide CfgIndex.Parse, Edits, SectionName, Nameable, Under, TypeName;
    forall k | k in TypeKeys(types) ensures k.0 !in GoneNames(lines, types) {
      var m, e :| m in types && e in Edits(m) && k == (SectionName(m.name), e.key);
      NameableSection(m.name);
    }
  }

  lemma SaveUnowned(lines: seq<string>, types: seq<McuType>) returns (added: seq<string>)
    requires OneLines(lines) && DistinctTypes(types) && forall m :: m in types ==> Storable(m)
    ensures Plainly(added, SectionNames(types))
    ensures Unowned(SaveLines(lines, types), TypeKeys(types) - TypeDrops(types), {})
            == Unowned(lines, TypeKeys(types), GoneNames(lines, types)) + added
  {
    StaleAreGone(lines, types);
    TypesStay(lines, types);
    var keys, gone, stale := TypeKeys(types), GoneNames(lines, types), Stale(Live(CfgIndex.Parse(lines)), types);
    hide *;
    SectionsKeep(lines, stale, keys, gone);
    assert gone - (set n | n in stale) == {};
    added := TypesKeep(RemoveSectionsLines(lines, stale), types, keys);
    SaveIs(lines, types);
  }

  /** Saving the types keeps every other line of the file, in order; anything else in it is an option that was set,
      a blank line or the header of a type. */
  lemma SaveKeepsLines(lines: seq<string>, types: seq<McuType>) returns (to: seq<int>)
    requires OneLines(lines) && DistinctTypes(types) && forall m :: m in types ==> Storable(m)
    ensures var saved := SaveLines(lines, types);
            && |to| == |lines|
            && (forall i :: 0 <= i < |lines| && !Touched(lines, types, i) ==>
                  0 <= to[i] < |saved| && saved[to[i]] == lines[i])
            && (forall i, k :: 0 <= i < k < |lines| && !Touched(lines, types, i) && !Touched(lines, types, k) ==>
                  to[i] < to[k])
            && (forall l :: 0 <= l < |saved| ==>
                  || Printed(saved, types, l) || saved[l] == ""
                  || (exists m :: m in types && saved[l] == "[" + SectionName(m.name) + "]")
                  || (exists i :: 0 <= i < |lines| && !Touched(lines, types, i) && to[i] == l))
  {
    var saved := SaveLines(lines, types);
    var added := SaveUnowned(lines, types);
    var keys, gone := TypeKeys(types), GoneNames(lines, types);
    to := UnownedWent(lines, keys, gone, saved, keys - TypeDrops(types), added);
    hide *;
  }

  // ---- the settings ----

  ghost function OptionKeys(): Keys {
    set f | f in FIELDS :: (SETTINGS, f)
  }

  lemma OptionEditsKeys(s: Options)
    ensures DistinctKeys(OptionEdits(s)) && (forall i :: 0 <= i < |OptionEdits(s)| ==> Makable(OptionEdits(s)[i]))
    ensures KeysOf(SETTINGS, OptionEdits(s)) <= OptionKeys() && DroppedKeys(SETTINGS, OptionEdits(s)) == {}
  {
    FieldKeys();
    FieldsDistinct();
    hide FIELDS, ValidKey, TextOf;
    var edits := OptionEdits(s);
    forall i | 0 <= i < |edits| ensures Makable(edits[i]) {
      assert edits[i].key == FIELDS[i];
    }
    forall k | k in KeysOf(SETTINGS, edits) ensures k in OptionKeys() {
      var e :| e in edits && k == (SETTINGS, e.key);
      var i :| 0 <= i < |edits| && edits[i] == e;
      assert FIELDS[i] in FIELDS;
    }
    assert forall e :: e in edits ==> e.PutE?;
  }

  /** Line `i` belongs to an option of the settings. */
  ghost predicate OfSettings(lines: seq<string>, i: int) {
    Edited(CfgIndex.Parse(lines), OptionKeys(), i)
  }

  lemma SettingsWent(lines: seq<string>, saved: seq<string>, added: seq<string>, to: seq<int>)
    requires Plainly(added, {SETTINGS})
    requires Went(lines, i => Owned(CfgIndex.Parse(lines), OptionKeys(), {}, i), saved,
                  i => Owned(CfgIndex.Parse(saved), OptionKeys(), {}, i), added, to)
    ensures |to| == |lines|
    ensures forall i :: 0 <= i < |lines| && !OfSettings(lines, i) ==>
              0 <= to[i] < |saved| && saved[to[i]] == lines[i]
    ensures forall i, k :: 0 <= i < k < |lines| && !OfSettings(lines, i) && !OfSettings(lines, k) ==> to[i] < to[k]
    ensures forall l :: 0 <= l < |saved| ==>
              || OfSettings(saved, l) || saved[l] == "" || saved[l] == "[" + SETTINGS + "]"
              || (exists i :: 0 <= i < |lines| && !OfSettings(lines, i) && to[i] == l)
  {
    hide CfgIndex.Parse, Owned, Edited, OptionKeys;
    forall i ensures Owned(CfgIndex.Parse(lines), OptionKeys(), {}, i) == OfSettings(lines, i) {
      OwnedByEdits(CfgIndex.Parse(lines), OptionKeys(), i);
    }
    forall i ensures Owned(CfgIndex.Parse(saved), OptionKeys(), {}, i) == OfSettings(saved, i) {
      OwnedByEdits(CfgIndex.Parse(saved), OptionKeys(), i);
    }
    assert forall i :: 0 <= i < |added| ==> added[i] == "" || added[i] == "[" + SETTINGS + "]";
  }

  /** Saving the settings keeps every line that belongs to none of them, in order; anything else is a setting,
      a blank line or the header of their section. */
  lemma SettingsKeepLines(lines: seq<string>, s: Options) returns (to: seq<int>)
    requires OneLines(lines)
    ensures var saved := EditsLines(lines, SETTINGS, OptionEdits(s));
            && |to| == |lines|
            && (forall i :: 0 <= i < |lines| && !OfSettings(lines, i) ==>
                  0 <= to[i] < |saved| && saved[to[i]] == lines[i])
            && (forall i, k :: 0 <= i < k < |lines| && !OfSettings(lines, i) && !OfSettings(lines, k) ==> to[i] < to[k])
            && (forall l :: 0 <= l < |saved| ==>
                  || OfSettings(saved, l) || saved[l] == "" || saved[l] == "[" + SETTINGS + "]"
                  || (exists i :: 0 <= i < |lines| && !OfSettings(lines, i) && to[i] == l))
  {
    var saved := EditsLines(lines, SETTINGS, OptionEdits(s));
    SettingsName();
    OptionEditsKeys(s);
    hide *;
    var added := EditsKeep(lines, SETTINGS, OptionEdits(s), OptionKeys());
    assert OptionKeys() - {} == OptionKeys();
    to := UnownedWent(lines, OptionKeys(), {}, saved, OptionKeys(), added);
    SettingsWent(lines, saved, added, to);
  }
}
