/** What the registry keeps when it is saved into a table and loaded from it again. The values under one key are
    taken as a list, in file order, for a key that is dropped may have a second value behind the first; the sections
    that name one type are taken as a list too, for the last one is what is loaded. With that, a save and a load are
    compared type by type: which types come back, as what, and which section or value is in the way of those that do
    not. Types are compared in a normal form, because white space around arguments and patches that say nothing are
    not written. In the end the order of sections, keys and types is followed through both. */
module RegistryLaws {
  import opened Text
  import opened CfgLine
  import opened CfgRender
  import opened CfgTable
  import opened CfgLaws
  import opened CfgDocuments
  import opened Registry

  // ---- edits of one section ----

  ghost predicate DistinctKeys(edits: seq<Edit>) {
    forall i, j :: 0 <= i < j < |edits| ==> edits[i].key != edits[j].key
  }

  /** All values under a key, in file order. */
  function ValuesOf(opts: seq<Pair>, key: string): seq<string> {
    if opts == [] then []
    else
      ValuesOf(opts[..|opts| - 1], key) + (if opts[|opts| - 1].0 == key then [opts[|opts| - 1].1] else [])
  }

  lemma {:induction false} ValuesConcat(a: seq<Pair>, b: seq<Pair>, key: string)
    ensures ValuesOf(a + b, key) == ValuesOf(a, key) + ValuesOf(b, key)
    decreases |b|
  {
    if b == [] {
      assert a + b == a;
    } else {
      assert (a + b)[..|a + b| - 1] == a + b[..|b| - 1];
      ValuesConcat(a, b[..|b| - 1], key);
    }
  }

  lemma {:induction false} NoValues(opts: seq<Pair>, key: string)
    requires forall i :: 0 <= i < |opts| ==> opts[i].0 != key
    ensures ValuesOf(opts, key) == []
    decreases |opts|
  {
    if opts != [] {
      NoValues(opts[..|opts| - 1], key);
    }
  }

  lemma {:induction false} ValuesOne(p: Pair, key: string)
    ensures ValuesOf([p], key) == if p.0 == key then [p.1] else []
  {
    assert [p][..0] == [];
  }

  /** The values around one entry. */
  lemma {:induction false} ValuesAround(a: seq<Pair>, p: Pair, b: seq<Pair>, key: string)
    ensures ValuesOf(a + [p] + b, key) == ValuesOf(a, key) + (if p.0 == key then [p.1] else []) + ValuesOf(b, key)
  {
    ValuesOne(p, key);
    ValuesConcat(a + [p], b, key);
    ValuesConcat(a, [p], key);
  }

  /** A key reads as the first value, and the second one comes to light when it goes. */
  lemma {:induction false} ValuesFound(opts: seq<Pair>, key: string)
    ensures PairValue(opts, key) == if ValuesOf(opts, key) == [] then None else Some(ValuesOf(opts, key)[0])
    ensures SecondValue(opts, key) == if |ValuesOf(opts, key)| < 2 then None else Some(ValuesOf(opts, key)[1])
  {
    FirstValue(opts, key);
    var k := FindKey(opts, key);
    if k < |opts| {
      KeyAround(opts, key, key);
      FirstValue(opts[k + 1..], key);
      hide ValuesOf, PairValue;
    }
  }

  lemma {:induction false} FirstValue(opts: seq<Pair>, key: string)
    ensures PairValue(opts, key) == if ValuesOf(opts, key) == [] then None else Some(ValuesOf(opts, key)[0])
  {
    if FindKey(opts, key) < |opts| {
      KeyAround(opts, key, key);
    } else {
      NoValues(opts, key);
    }
  }

  lemma {:induction false} KeyAround(opts: seq<Pair>, key: string, other: string)
    requires FindKey(opts, key) < |opts|
    ensures var k := FindKey(opts, key);
            && opts == opts[..k] + [opts[k]] + opts[k + 1..] && opts[k].0 == key
            && ValuesOf(opts[..k], key) == []
            && ValuesOf(opts, other)
               == ValuesOf(opts[..k], other) + (if other == key then [opts[k].1] else [])
                  + ValuesOf(opts[k + 1..], other)
  {
    var k := FindKey(opts, key);
    AtKey(opts, key);
    NoValues(opts[..k], key);
    ValuesAround(opts[..k], opts[k], opts[k + 1..], other);
  }

  function Rest<T>(s: seq<T>): seq<T> {
    if s == [] then [] else s[1..]
  }

  lemma {:induction false} PutValuesOf(opts: seq<Pair>, k: string, value: string, key: string)
    ensures ValuesOf(PutKey(opts, k, value), key)
            == if k != key then ValuesOf(opts, key) else [value] + Rest(ValuesOf(opts, key))
  {
    hide ValuesOf;
    var j := FindKey(opts, k);
    if j == |opts| {
      NoValues(opts, k);
      ValuesOne((k, value), key);
      ValuesConcat(opts, [(k, value)], key);
    } else {
      KeyAround(opts, k, key);
      assert PutKey(opts, k, value) == opts[..j] + [(k, value)] + opts[j + 1..];
      hide FindKey, PutKey;
      ValuesAround(opts[..j], (k, value), opts[j + 1..], key);
    }
  }

  lemma {:induction false} DropValuesOf(opts: seq<Pair>, k: string, key: string)
    ensures ValuesOf(DropKey(opts, k), key) == if k != key then ValuesOf(opts, key) else Rest(ValuesOf(opts, key))
  {
    hide ValuesOf;
    var j := FindKey(opts, k);
    if j == |opts| {
      NoValues(opts, k);
    } else {
      KeyAround(opts, k, key);
      assert DropKey(opts, k) == opts[..j] + opts[j + 1..];
      hide FindKey, DropKey;
      ValuesConcat(opts[..j], opts[j + 1..], key);
    }
  }

  function After(values: seq<string>, e: Edit): seq<string> {
    (if e.PutE? then [ReadBack(e.value)] else []) + Rest(values)
  }

  lemma {:induction false} EditValues(opts: seq<Pair>, e: Edit, key: string)
    ensures ValuesOf(ApplyEdit(opts, e), key)
            == if e.key != key then ValuesOf(opts, key) else After(ValuesOf(opts, key), e)
  {
    hide ValuesOf, PutKey, DropKey, ReadBack;
    match e
    case PutE(k, value) => PutValuesOf(opts, k, ReadBack(value), key);
    case DropE(k) =>
      DropValuesOf(opts, k, key);
      assert [] + Rest(ValuesOf(opts, key)) == Rest(ValuesOf(opts, key));
  }

  lemma {:induction false} EditsKeep(opts: seq<Pair>, edits: seq<Edit>, key: string)
    requires forall i :: 0 <= i < |edits| ==> edits[i].key != key
    ensures ValuesOf(ApplyEdits(opts, edits), key) == ValuesOf(opts, key)
    ensures PairValue(ApplyEdits(opts, edits), key) == PairValue(opts, key)
    decreases |edits|
  {
    hide PairValue, ApplyEdit, ValuesOf;
    if edits != [] {
      var init, e := edits[..|edits| - 1], edits[|edits| - 1];
      EditsKeep(opts, init, key);
      EditValues(ApplyEdits(opts, init), e, key);
    }
    FirstValue(opts, key);
    FirstValue(ApplyEdits(opts, edits), key);
  }

  lemma {:induction false} EditsValues(opts: seq<Pair>, edits: seq<Edit>, i: nat)
    requires DistinctKeys(edits) && i < |edits|
    ensures ValuesOf(ApplyEdits(opts, edits), edits[i].key)
            == After(ValuesOf(opts, edits[i].key), edits[i])
    decreases |edits|
  {
    hide ApplyEdit, ValuesOf, After;
    var init, e := edits[..|edits| - 1], edits[|edits| - 1];
    if i < |init| {
      EditsValues(opts, init, i);
    } else {
      EditsKeep(opts, init, e.key);
    }
    EditValues(ApplyEdits(opts, init), e, edits[i].key);
  }

  /** Each edit's key ends up as that edit says; a dropped one as the second value under it,
      if there is one. */
  lemma {:induction false} EditsSet(opts: seq<Pair>, edits: seq<Edit>, i: nat)
    requires DistinctKeys(edits) && i < |edits|
    ensures PairValue(ApplyEdits(opts, edits), edits[i].key)
            == if edits[i].PutE? then Some(ReadBack(edits[i].value)) else SecondValue(opts, edits[i].key)
  {
    hide PairValue, SecondValue, ApplyEdits, ReadBack, ValuesOf;
    EditsValues(opts, edits, i);
    ValuesFound(opts, edits[i].key);
    ValuesFound(ApplyEdits(opts, edits), edits[i].key);
  }

  // ---- tables ----

  function OptsAt(t: Table, name: string): Maybe<seq<Pair>> {
    var j := FindRow(t, name);
    if j == |t| then None else Some(t[j].opts)
  }

  function OptsOr(t: Table, name: string): seq<Pair> {
    var o := OptsAt(t, name);
    if o.Some? then o.value else []
  }

  lemma {:induction false} RowAt(t: Table, j: nat)
    requires DistinctRows(t) && j < |t|
    ensures FindRow(t, t[j].name) == j && OptsAt(t, t[j].name) == Some(t[j].opts)
  {
  }

  lemma {:induction false} EditsTableRow(t: Table, name: string, edits: seq<Edit>)
    requires edits != [] && edits[0].PutE?
    ensures EditsTable(t, name, edits)
            == if FindRow(t, name) < |t| then t[FindRow(t, name) := Row(name, ApplyEdits(OptsOr(t, name), edits))]
               else t + [Row(name, ApplyEdits([], edits))]
    decreases |edits|
  {
    hide ReadBack;
    var init, e := edits[..|edits| - 1], edits[|edits| - 1];
    var j := FindRow(t, name);
    if |edits| == 1 {
      assert init == [];
      assert PutKey([], e.key, ReadBack(e.value)) == [(e.key, ReadBack(e.value))];
    } else {
      EditsTableRow(t, name, init);
      var t1 := EditsTable(t, name, init);
      if j < |t| {
        FindRowUpdate(t, j, t1[j], name);
      } else {
        assert FindRow([t1[|t|]], name) == 0;
        FindRowConcat(t, [t1[|t|]], name);
      }
      EditTableRow(t1, name, e);
    }
  }

  lemma {:induction false} EditTableRow(t: Table, name: string, e: Edit)
    requires FindRow(t, name) < |t|
    ensures EditTable(t, name, e) == t[FindRow(t, name) := Row(name, ApplyEdit(t[FindRow(t, name)].opts, e))]
  {
  }

  /** Writing one type touches its own section only. */
  lemma {:induction false} EditsTableOpts(t: Table, name: string, edits: seq<Edit>, other: string)
    requires edits != [] && edits[0].PutE? && DistinctRows(t)
    ensures DistinctRows(EditsTable(t, name, edits))
    ensures OptsAt(EditsTable(t, name, edits), other)
            == if other == name then Some(ApplyEdits(OptsOr(t, name), edits)) else OptsAt(t, other)
  {
    hide ApplyEdits;
    EditsTableRow(t, name, edits);
    var j, row := FindRow(t, name), Row(name, ApplyEdits(OptsOr(t, name), edits));
    if j < |t| {
      FindRowUpdate(t, j, row, other);
    } else {
      FindRowConcat(t, [row], other);
    }
  }

  lemma OptsAtConcat(a: Table, b: Table, name: string)
    ensures OptsAt(a + b, name) == if OptsAt(a, name).Some? then OptsAt(a, name) else OptsAt(b, name)
  {
    FindRowConcat(a, b, name);
  }

  lemma OptsAtNone(t: Table, name: string)
    requires forall i :: 0 <= i < |t| ==> t[i].name != name
    ensures OptsAt(t, name) == None
  {
  }

  lemma DropRowDistinct(t: Table, name: string)
    requires DistinctRows(t)
    ensures DistinctRows(DropRow(t, name))
  {
    hide FindRow;
  }

  lemma AroundRow(t: Table, j: nat)
    requires DistinctRows(t) && j < |t|
    ensures t == t[..j] + ([t[j]] + t[j + 1..])
    ensures OptsAt(t[..j], t[j].name) == None && OptsAt(t[j + 1..], t[j].name) == None
  {
    OptsAtNone(t[..j], t[j].name);
    OptsAtNone(t[j + 1..], t[j].name);
  }

  lemma DropRowOpts(t: Table, name: string, other: string)
    requires DistinctRows(t)
    ensures DistinctRows(DropRow(t, name))
    ensures OptsAt(DropRow(t, name), other) == if other == name then None else OptsAt(t, other)
  {
    DropRowDistinct(t, name);
    hide DistinctRows;
    var j := FindRow(t, name);
    if j < |t| {
      var row := t[j];
      assert OptsAt([row], other) == if row.name == other then Some(row.opts) else None;
      AroundRow(t, j);
      hide OptsAt, FindRow;
      OptsAtConcat(t[..j], [row] + t[j + 1..], other);
      OptsAtConcat([row], t[j + 1..], other);
      OptsAtConcat(t[..j], t[j + 1..], other);
    }
  }

  lemma {:induction false} DropRowsOpts(t: Table, names: seq<string>, other: string)
    requires DistinctRows(t)
    ensures DistinctRows(DropRows(t, names))
    ensures OptsAt(DropRows(t, names), other) == if other in names then None else OptsAt(t, other)
    decreases |names|
  {
    hide OptsAt, DistinctRows;
    if names != [] {
      DropRowsOpts(t, names[..|names| - 1], other);
      DropRowOpts(DropRows(t, names[..|names| - 1]), names[|names| - 1], other);
    }
  }

  lemma {:induction false} DoomedIff(t: Table, types: seq<McuType>, name: string)
    ensures name in Doomed(t, types)
            <==> FindRow(t, name) < |t| && Under(PREFIX, name) && FindType(types, TypeName(name)) == |types|
    decreases |t|
  {
    if t != [] {
      var init, row := t[..|t| - 1], t[|t| - 1];
      DoomedIff(init, types, name);
      assert t == init + [row];
      FindRowConcat(init, [row], name);
    }
  }

  // ---- saving all types ----

  ghost predicate DistinctTypes(types: seq<McuType>) {
    && (forall i, j :: 0 <= i < j < |types| ==> types[i].name != types[j].name)
    && (forall i :: 0 <= i < |types| ==> Nameable(types[i].name))
  }

  /** After saving, the section of a type is its old section with the edits of that type,
      and every other section is as before. */
  lemma {:induction false} SaveTypesOpts(t: Table, types: seq<McuType>, name: string)
    requires DistinctRows(t) && DistinctTypes(types)
    ensures DistinctRows(SaveTypes(t, types))
    ensures OptsAt(SaveTypes(t, types), name)
            == (var k := FindType(types, TypeName(name));
                if k < |types| && name == SectionName(types[k].name)
                then Some(ApplyEdits(OptsOr(t, name), Edits(types[k]))) else OptsAt(t, name))
    decreases |types|
  {
    hide OptsAt, DistinctRows, Edits, ApplyEdits, Nameable, SectionName, TypeName;
    if types != [] {
      var init, m := types[..|types| - 1], types[|types| - 1];
      SaveTypesOpts(t, init, name);
      EditsStart(m);
      EditsTableOpts(SaveTypes(t, init), SectionName(m.name), Edits(m), name);
      FindTypeSnoc(types, TypeName(name));
      if name == SectionName(m.name) {
        NameableSection(m.name);
        assert FindType(init, m.name) == |init|;
      }
    }
  }

  lemma EditsStart(m: McuType)
    ensures Edits(m) != [] && Edits(m)[0].PutE?
  {
  }

  lemma FindTypeSnoc(types: seq<McuType>, name: string)
    requires types != []
    ensures var init := types[..|types| - 1];
            FindType(types, name)
            == if FindType(init, name) < |init| then FindType(init, name)
               else if types[|types| - 1].name == name then |types| - 1 else |types|
  {
    var init := types[..|types| - 1];
    assert forall i :: 0 <= i < |init| ==> init[i] == types[i];
  }

  // ---- reading a saved section ----

  ghost predicate CleanFirmware(f: Firmware) {
    && Clean(Strip(f.extraArgs))
    && forall i :: 0 <= i < |f.patches| && IsValidPatch(f.patches[i]) ==>
         && Trimmed(f.patches[i].file) && Trimmed(f.patches[i].line)
         && FindArrow(f.patches[i].file) == |f.patches[i].file|
         && Clean(RenderPatch(f.patches[i]))
  }

  /** Values the format can hold. */
  ghost predicate CleanType(m: McuType) {
    && Clean(m.chipset) && CleanItems(m.serials) && CleanFirmware(m.klipper) && CleanFirmware(m.katapult)
  }

  function NormalFirmware(f: Firmware): Firmware {
    Firmware(Strip(f.extraArgs), ValidPatches(f.patches))
  }

  /** What a type is after being written: arguments stripped, patches that say nothing
      dropped, and a boot loader either missing or not mentioned. */
  function Normal(m: McuType): McuType {
    m.(klipper := NormalFirmware(m.klipper), katapult := NormalFirmware(m.katapult),
       installed := if m.installed == Some(false) then Some(false) else None)
  }

  predicate KatapultInstalled(m: McuType) {
    m.installed != Some(false)
  }

  lemma {:induction false} ValidPatchesAre(ps: seq<Patch>)
    ensures forall p :: p in ValidPatches(ps) ==> p in ps && IsValidPatch(p)
    decreases |ps|
  {
    if ps != [] {
      ValidPatchesAre(ps[..|ps| - 1]);
    }
  }

  lemma {:induction false} PatchesReadBack(ps: seq<Patch>)
    requires forall p :: p in ps ==>
      IsValidPatch(p) && Trimmed(p.file) && Trimmed(p.line) && FindArrow(p.file) == |p.file|
    ensures ParsePatches(RenderPatches(ps)) == Some(ps)
    decreases |ps|
  {
    hide ParsePatch, RenderPatch, FindArrow;
    if ps != [] {
      var init, p := ps[..|ps| - 1], ps[|ps| - 1];
      PatchesReadBack(init);
      PatchRoundTrip(p);
      assert RenderPatches(ps)[..|ps| - 1] == RenderPatches(init);
      assert ps == init + [p];
    }
  }

  lemma CleanRendered(f: Firmware)
    requires CleanFirmware(f)
    ensures CleanItems(RenderPatches(ValidPatches(f.patches)))
    ensures forall p :: p in ValidPatches(f.patches) ==>
      Trimmed(p.file) && Trimmed(p.line) && FindArrow(p.file) == |p.file|
  {
    var ps := ValidPatches(f.patches);
    ValidPatchesAre(f.patches);
    forall p | p in ps
      ensures Trimmed(p.file) && Trimmed(p.line) && FindArrow(p.file) == |p.file| && Clean(RenderPatch(p))
    {
      var i :| 0 <= i < |f.patches| && f.patches[i] == p;
    }
    hide FindArrow, Clean, ValidPatches;
    forall i | 0 <= i < |ps| ensures CleanItem(RenderPatches(ps)[i]) {
      assert ps[i] in ps;
    }
  }

  lemma {:induction false} ParsedValid(items: seq<string>)
    ensures ParsePatches(items).Some? ==> ValidPatches(ParsePatches(items).value) == ParsePatches(items).value
    decreases |items|
  {
    hide FindArrow, Strip;
    if items != [] {
      var n := |items| - 1;
      ParsedValid(items[..n]);
      if ParsePatches(items).Some? {
        var before, p := ParsePatches(items[..n]).value, ParsePatch(items[n]).value;
        assert (before + [p])[..|before|] == before;
      }
    }
  }

  /** What the patches under a key are read as; `behind` is what stood behind the first one. */
  lemma PatchesRead(value: Maybe<string>, behind: Maybe<string>, f: Firmware)
    requires CleanFirmware(f)
    requires value == if ValidPatches(f.patches) == [] then behind
                      else Some(ListValue(RenderPatches(ValidPatches(f.patches))))
    ensures ParsePatches(Items0(value)) == Some(ValidPatches(f.patches))
            <==> (ValidPatches(f.patches) == [] ==> Items0(behind) == [])
    ensures ParsePatches(Items0(value)).Some?
            <==> (ValidPatches(f.patches) == [] ==> ParsePatches(Items0(behind)).Some?)
  {
    var ps := ValidPatches(f.patches);
    ValidPatchesAre(f.patches);
    CleanRendered(f);
    hide ValidPatches, RenderPatch, FindArrow, ListOf, Clean, ParsePatch;
    if ps != [] {
      ListReads(RenderPatches(ps));
      PatchesReadBack(ps);
    }
  }

  /** The two keys of a firmware say nothing when they are dropped. */
  ghost predicate FirmwareSilent(opts: seq<Pair>, fw: string, f: Firmware) {
    && (Strip(f.extraArgs) == "" ==> Text0(SecondValue(opts, fw + "_extra_args")) == "")
    && (ValidPatches(f.patches) == [] ==> Items0(SecondValue(opts, fw + "_makefile_patches")) == [])
  }

  /** The patches that come to light when none are left can be parsed. */
  ghost predicate FirmwareReadable(opts: seq<Pair>, fw: string, f: Firmware) {
    ValidPatches(f.patches) == [] ==> ParsePatches(Items0(SecondValue(opts, fw + "_makefile_patches"))).Some?
  }

  lemma FirmwareReads(opts: seq<Pair>, opts': seq<Pair>, fw: string, f: Firmware)
    requires CleanFirmware(f)
    requires PairValue(opts', fw + "_extra_args")
          == if Strip(f.extraArgs) != "" then Some(Strip(f.extraArgs)) else SecondValue(opts, fw + "_extra_args")
    requires PairValue(opts', fw + "_makefile_patches")
          == if ValidPatches(f.patches) == [] then SecondValue(opts, fw + "_makefile_patches")
             else Some(ListValue(RenderPatches(ValidPatches(f.patches))))
    ensures ReadFirmware(opts', fw) == Some(NormalFirmware(f)) <==> FirmwareSilent(opts, fw, f)
    ensures ReadFirmware(opts', fw).Some? <==> FirmwareReadable(opts, fw, f)
    ensures ReadFirmware(opts', fw).Some? ==>
      NormalFirmware(ReadFirmware(opts', fw).value) == ReadFirmware(opts', fw).value
  {
    hide ParsePatches, PairValue, SecondValue, Items0, ValidPatches, ListValue, RenderPatches, Strip;
    var args, patches := PairValue(opts', fw + "_extra_args"), PairValue(opts', fw + "_makefile_patches");
    PatchesRead(patches, SecondValue(opts, fw + "_makefile_patches"), f);
    ParsedValid(Items0(patches));
    StripIdempotent(f.extraArgs);
    if args.Some? {
      StripIdempotent(args.value);
    }
    StripTrimmed("");
  }

  lemma FalseReads()
    ensures ParseBool("false") == Some(false) && Clean("false")
  {
    StripTrimmed("false");
    assert "false"[1..] == "alse" && "alse"[1..] == "lse" && "lse"[1..] == "se" && "se"[1..] == "e" && "e"[1..] == "";
    assert Lower("e") == "e" && Lower("se") == "se" && Lower("lse") == "lse" && Lower("alse") == "alse";
    assert Lower("false") == "false";
    CleanIff("false");
    forall j | 0 <= j < 5 ensures !CommentAt("false", j) {
    }
  }

  lemma EditKeys(m: McuType)
    ensures |Edits(m)| == 7
    ensures Edits(m)[0].key == "chipset" && Edits(m)[1].key == "serials" && Edits(m)[2].key == "katapult_installed"
    ensures Edits(m)[3].key == "klipper" + "_extra_args" && Edits(m)[4].key == "klipper" + "_makefile_patches"
    ensures Edits(m)[5].key == "katapult" + "_extra_args" && Edits(m)[6].key == "katapult" + "_makefile_patches"
    ensures DistinctKeys(Edits(m))
  {
    var e := Edits(m);
    assert |e[0].key| == 7 && |e[1].key| == 7 && e[0].key[0] == 'c' && e[1].key[0] == 's';
    assert |e[2].key| == 18 && |e[3].key| == 18 && e[2].key[1] == 'a' && e[3].key[1] == 'l';
    assert |e[4].key| == 24 && |e[5].key| == 19 && |e[6].key| == 25;
  }

  /** What was read says what the type says, up to white space, patches that say nothing, and a boot
      loader that is mentioned without being missing. */
  predicate SaysTheSame(loaded: Maybe<McuType>, m: McuType) {
    loaded.Some? && Normal(loaded.value) == Normal(m)
  }

  /** What stood behind the keys that saving drops says nothing about the type. */
  ghost predicate Silent(opts: seq<Pair>, m: McuType) {
    && (m.installed != Some(false) ==> Truth(SecondValue(opts, "katapult_installed")) != Some(false))
    && FirmwareSilent(opts, "klipper", m.klipper) && FirmwareSilent(opts, "katapult", m.katapult)
  }

  ghost predicate SavedReads(opts: seq<Pair>, m: McuType) {
    FirmwareReadable(opts, "klipper", m.klipper) && FirmwareReadable(opts, "katapult", m.katapult)
  }

  /** A section with a clean type's edits is read as that type exactly when nothing comes to
      light under the keys they drop: a dropped key that stood twice still has its second value.
      And it is read at all exactly when such values can be parsed. */
  lemma {:induction false} TypeReads(opts: seq<Pair>, m: McuType)
    requires CleanType(m)
    ensures ReadType(m.name, ApplyEdits(opts, Edits(m))).Some? <==> SavedReads(opts, m)
    ensures SaysTheSame(ReadType(m.name, ApplyEdits(opts, Edits(m))), m) <==> Silent(opts, m)
  {
    hide PairValue, SecondValue, ListValue, ReadFirmware, CleanFirmware, FirmwareSilent, FirmwareReadable,
         RenderPatches, ValidPatches, Strip, ParseBool, ListOf, NormalFirmware, ApplyEdits;
    EditKeys(m);
    var e, opts' := Edits(m), ApplyEdits(opts, Edits(m));
    FirmwareReads(opts, opts', "klipper", m.klipper) by {
      EditsSet(opts, e, 3);
      EditsSet(opts, e, 4);
    }
    FirmwareReads(opts, opts', "katapult", m.katapult) by {
      EditsSet(opts, e, 5);
      EditsSet(opts, e, 6);
    }
    EditsSet(opts, e, 0);
    EditsSet(opts, e, 1);
    EditsSet(opts, e, 2);
    StripTrimmed(m.chipset);
    ListReads(m.serials);
    FalseReads();
  }

  // ---- loading a whole table ----

  lemma PutTypeNamed(types: seq<McuType>, m: McuType, name: string)
    ensures TypeNamed(PutType(types, m), name) == if name == m.name then Some(m) else TypeNamed(types, name)
  {
    var types' := PutType(types, m);
    var k := FindType(types, m.name);
    if k < |types| {
      assert forall i :: 0 <= i < |types| ==> types'[i].name == types[i].name;
    } else {
      FindTypeSnoc(types', name);
      assert types'[..|types|] == types;
    }
  }

  lemma ReadTypeName(name: string, opts: seq<Pair>)
    ensures ReadType(name, opts).Some? ==> ReadType(name, opts).value.name == name
  {
  }

  predicate Names(row: Row, name: string) {
    Under(PREFIX, row.name) && TypeName(row.name) == name
  }

  /** The sections whose header names a type, in file order: the one this tool writes, and any
      that a hand wrote with more blanks in it. */
  function Named(t: Table, name: string): Table {
    if t == [] then []
    else Named(t[..|t| - 1], name) + (if Names(t[|t| - 1], name) then [t[|t| - 1]] else [])
  }

  ghost predicate Readable(t: Table) {
    forall i :: 0 <= i < |t| && IsTypeRow(t[i]) ==> ReadType(TypeName(t[i].name), t[i].opts).Some?
  }

  /** A table loads exactly when every type section in it can be read, and each type is what
      the last section that names it says. */
  lemma {:induction false} LoadRowsNamed(t: Table, name: string)
    requires name != ""
    ensures LoadRows(t).Types? <==> Readable(t)
    ensures Readable(t) ==>
      TypeNamed(LoadRows(t).types, name)
      == if Named(t, name) == [] then None else ReadType(name, Named(t, name)[|Named(t, name)| - 1].opts)
    decreases |t|
  {
    hide ReadType, TypeName, Under, TypeNamed, PutType, Readable;
    if t == [] {
      NothingLoaded(name);
    } else {
      var init, row := t[..|t| - 1], t[|t| - 1];
      LoadRowsNamed(init, name);
      ReadableSnoc(t);
      if IsTypeRow(row) && Readable(t) {
        ReadTypeName(TypeName(row.name), row.opts);
        PutTypeNamed(LoadRows(init).types, ReadType(TypeName(row.name), row.opts).value, name);
      }
    }
  }

  lemma NothingLoaded(name: string)
    ensures Readable([]) && TypeNamed([], name) == None
  {
  }

  lemma ReadableSnoc(t: Table)
    requires t != []
    ensures var init, row := t[..|t| - 1], t[|t| - 1];
            Readable(t) <==> Readable(init) && (IsTypeRow(row) ==> ReadType(TypeName(row.name), row.opts).Some?)
  {
    hide ReadType, TypeName, Under;
    var init, n := t[..|t| - 1], |t| - 1;
    assert forall i :: 0 <= i < n ==> init[i] == t[i];
    if Readable(init) && (IsTypeRow(t[n]) ==> ReadType(TypeName(t[n].name), t[n].opts).Some?) {
      forall i | 0 <= i < |t| && IsTypeRow(t[i]) ensures ReadType(TypeName(t[i].name), t[i].opts).Some? {
        assert i < n ==> init[i] == t[i];
      }
    }
  }

  // ---- the sections of one type, through a save ----

  lemma {:induction false} NamedConcat(a: Table, b: Table, name: string)
    ensures Named(a + b, name) == Named(a, name) + Named(b, name)
    decreases |b|
  {
    hide Names;
    if b == [] {
      assert a + b == a;
    } else {
      assert (a + b)[..|a + b| - 1] == a + b[..|b| - 1];
      NamedConcat(a, b[..|b| - 1], name);
    }
  }

  lemma {:induction false} NamedAround(a: Table, row: Row, b: Table, name: string)
    ensures Named(a + [row] + b, name) == Named(a, name) + (if Names(row, name) then [row] else []) + Named(b, name)
  {
    hide Names;
    assert [row][..0] == [];
    NamedConcat(a + [row], b, name);
    NamedConcat(a, [row], name);
  }

  lemma {:induction false} NamedAre(t: Table, name: string)
    ensures forall row :: row in Named(t, name) <==> row in t && Names(row, name)
    decreases |t|
  {
    hide Names;
    if t != [] {
      NamedAre(t[..|t| - 1], name);
      assert t == t[..|t| - 1] + [t[|t| - 1]];
    }
  }

  lemma {:induction false} DropRowNamed(t: Table, section: string, name: string)
    requires !(Under(PREFIX, section) && TypeName(section) == name)
    ensures Named(DropRow(t, section), name) == Named(t, name)
  {
    hide Under, TypeName, Named;
    var j := FindRow(t, section);
    if j < |t| {
      AroundIndex(t, j, t[j]);
      assert DropRow(t, section) == t[..j] + t[j + 1..];
      hide DropRow, FindRow;
      assert Named(t[..j], name) + [] + Named(t[j + 1..], name) == Named(t[..j], name) + Named(t[j + 1..], name);
      NamedAround(t[..j], t[j], t[j + 1..], name);
      NamedConcat(t[..j], t[j + 1..], name);
    }
  }

  lemma {:induction false} DropRowsNamed(t: Table, sections: seq<string>, name: string)
    requires forall s :: s in sections ==> !(Under(PREFIX, s) && TypeName(s) == name)
    ensures Named(DropRows(t, sections), name) == Named(t, name)
    decreases |sections|
  {
    hide Under, TypeName, DropRow, Named;
    if sections != [] {
      DropRowsNamed(t, sections[..|sections| - 1], name);
      DropRowNamed(DropRows(t, sections[..|sections| - 1]), sections[|sections| - 1], name);
    }
  }

  /** The first row with a name that names the type, among all rows and among those. */
  lemma {:induction false} FindNamed(t: Table, section: string, name: string)
    requires Under(PREFIX, section) && TypeName(section) == name
    ensures var j, ns := FindRow(t, section), Named(t, name);
            if j == |t| then FindRow(ns, section) == |ns|
            else
              && FindRow(ns, section) == |Named(t[..j], name)|
              && ns == Named(t[..j], name) + [t[j]] + Named(t[j + 1..], name)
  {
    hide Under, TypeName;
    var j, ns := FindRow(t, section), Named(t, name);
    NamedAre(t, name);
    if j < |t| {
      var a := t[..j];
      assert t == a + [t[j]] + t[j + 1..];
      NamedAround(a, t[j], t[j + 1..], name);
      NamedAre(a, name);
      var na := Named(a, name);
      forall i | 0 <= i < |na| ensures ns[i].name != section {
        assert ns[i] == na[i] && na[i] in na;
      }
      assert ns[|na|] == t[j];
    } else {
      forall i | 0 <= i < |ns| ensures ns[i].name != section {
        assert ns[i] in ns;
      }
    }
  }

  /** Editing a section is editing it among the sections that name the type. */
  lemma {:induction false} EditsNamed(t: Table, section: string, edits: seq<Edit>, name: string)
    requires edits != [] && edits[0].PutE?
    ensures Named(EditsTable(t, section, edits), name)
            == if Under(PREFIX, section) && TypeName(section) == name then EditsTable(Named(t, name), section, edits)
               else Named(t, name)
  {
    hide Under, TypeName, ApplyEdits, EditsTable;
    var j := FindRow(t, section);
    EditsTableRow(t, section, edits);
    EditsTableRow(Named(t, name), section, edits);
    if j < |t| {
      UpdateNamed(t, j, Row(section, ApplyEdits(OptsOr(t, section), edits)), name);
    } else {
      NamedConcat(t, [Row(section, ApplyEdits([], edits))], name);
      assert [Row(section, ApplyEdits([], edits))][..0] == [];
    }
    if Under(PREFIX, section) && TypeName(section) == name {
      FindNamed(t, section, name);
    }
  }

  lemma {:induction false} UpdateNamed(t: Table, j: nat, row: Row, name: string)
    requires j < |t| && t[j].name == row.name
    ensures var ns, n := Named(t, name), |Named(t[..j], name)|;
            if Names(row, name) then n < |ns| && ns[n] == t[j] && Named(t[j := row], name) == ns[n := row]
            else Named(t[j := row], name) == ns
  {
    hide Named, Under, TypeName;
    AroundIndex(t, j, row);
    NamedAround(t[..j], t[j], t[j + 1..], name);
    NamedAround(t[..j], row, t[j + 1..], name);
    UpdateMiddle(Named(t[..j], name), t[j], row, Named(t[j + 1..], name));
  }

  lemma AroundIndex<T>(s: seq<T>, j: nat, x: T)
    requires j < |s|
    ensures s == s[..j] + [s[j]] + s[j + 1..] && s[j := x] == s[..j] + [x] + s[j + 1..]
  {
  }

  lemma UpdateMiddle<T>(a: seq<T>, x: T, y: T, b: seq<T>)
    ensures (a + [x] + b)[|a| := y] == a + [y] + b && (a + [x] + b)[|a|] == x
  {
  }

  lemma {:induction false} SaveTypesNamed(t: Table, types: seq<McuType>, name: string)
    requires DistinctTypes(types)
    ensures Named(SaveTypes(t, types), name)
            == (var k := FindType(types, name);
                if k == |types| then Named(t, name)
                else EditsTable(Named(t, name), SectionName(name), Edits(types[k])))
    decreases |types|
  {
    hide Named, EditsTable, Edits, Nameable, SectionName, TypeName, Under;
    if types != [] {
      var init, m := types[..|types| - 1], types[|types| - 1];
      SaveTypesNamed(t, init, name);
      EditsStart(m);
      NameableSection(m.name);
      EditsNamed(SaveTypes(t, init), SectionName(m.name), Edits(m), name);
      FindTypeSnoc(types, name);
      assert FindType(init, m.name) == |init|;
    }
  }

  // ---- the round trip ----

  /** A registry the format can hold, beside a file without repeated sections. */
  ghost predicate Savable(t: Table, types: seq<McuType>) {
    && DistinctRows(t) && DistinctTypes(types)
    && forall m :: m in types ==> CleanType(m)
  }

  /** The section of a type after saving, or of anything else. */
  lemma {:induction false} SavedOpts(t: Table, types: seq<McuType>, name: string)
    requires DistinctRows(t) && DistinctTypes(types)
    ensures DistinctRows(SaveTable(t, types))
    ensures OptsAt(SaveTable(t, types), name)
            == (var k := FindType(types, TypeName(name));
                if k < |types| && name == SectionName(types[k].name)
                then Some(ApplyEdits(OptsOr(t, name), Edits(types[k])))
                else if Under(PREFIX, name) && k == |types| then None
                else OptsAt(t, name))
  {
    var t1 := DropRows(t, Doomed(t, types));
    DropRowsOpts(t, Doomed(t, types), name);
    SaveTypesOpts(t1, types, name);
    DoomedIff(t, types, name);
    hide SaveTypes, DropRows, Doomed, Edits, ApplyEdits, TypeName, SectionName, Under, DistinctRows, DistinctTypes;
  }

  /** One item a line, and nothing else. */
  ghost predicate Lists(v: Maybe<string>, items: seq<string>) {
    v.Some? && ListOf(v.value) == items
  }

  /** What the options say of a firmware, key by key, and what they said before. */
  ghost predicate FirmwareSaid(opts: seq<Pair>, was: seq<Pair>, extra: string, patches: string, f: Firmware) {
    && PairValue(opts, extra)
       == (if Strip(f.extraArgs) != "" then Some(Strip(f.extraArgs)) else SecondValue(was, extra))
    && (if ValidPatches(f.patches) != [] then Lists(PairValue(opts, patches), RenderPatches(ValidPatches(f.patches)))
        else PairValue(opts, patches) == SecondValue(was, patches))
  }

  ghost predicate TypeSaid(opts: seq<Pair>, was: seq<Pair>, m: McuType) {
    && PairValue(opts, "chipset") == Some(m.chipset)
    && Lists(PairValue(opts, "serials"), m.serials)
    && PairValue(opts, "katapult_installed")
       == (if m.installed == Some(false) then Some("false") else SecondValue(was, "katapult_installed"))
    && FirmwareSaid(opts, was, "klipper_extra_args", "klipper_makefile_patches", m.klipper)
    && FirmwareSaid(opts, was, "katapult_extra_args", "katapult_makefile_patches", m.katapult)
  }

  /** What the section of a type says after a save, key by key. */
  lemma {:induction false} SavedSays(t: Table, types: seq<McuType>, m: McuType)
    requires Savable(t, types) && m in types
    ensures var saved, was := OptsAt(SaveTable(t, types), "mcu " + m.name), OptsOr(t, "mcu " + m.name);
            saved.Some? && TypeSaid(saved.value, was, m)
  {
    SavedOptsOf(t, types, m);
    EditsSay(OptsOr(t, "mcu " + m.name), m);
    hide *;
  }

  lemma {:induction false} EditsSay(was: seq<Pair>, m: McuType)
    requires CleanType(m)
    ensures TypeSaid(ApplyEdits(was, Edits(m)), was, m)
  {
    EditKeys(m);
    KeyNames();
    EditsAre(m);
    var e := Edits(m);
    hide Edits, BaseEdits, DistinctKeys, ApplyEdits, Strip, RenderPatches, ValidPatches, ListValue, ListOf, SecondValue,
         PairValue,
         FindArrow, StripInline, CleanFirmware, FirmwareSaid;
    EditsSet(was, e, 0);
    EditsSet(was, e, 1);
    EditsSet(was, e, 2);
    ListReads(m.serials);
    FirmwareSays(was, e, 3, "klipper_extra_args", "klipper_makefile_patches", m.klipper);
    FirmwareSays(was, e, 5, "katapult_extra_args", "katapult_makefile_patches", m.katapult);
  }

  lemma EditsAre(m: McuType)
    ensures |Edits(m)| == 7
    ensures Edits(m)[0] == PutE("chipset", Single(m.chipset)) && Edits(m)[1] == PutE("serials", Items(m.serials))
    ensures Edits(m)[2] == if m.installed == Some(false) then PutE("katapult_installed", Single("false"))
                           else DropE("katapult_installed")
    ensures FirmwareEdits("klipper", m.klipper) == [Edits(m)[3], Edits(m)[4]]
    ensures FirmwareEdits("katapult", m.katapult) == [Edits(m)[5], Edits(m)[6]]
  {
    hide ValidPatches, RenderPatches, Strip;
  }

  lemma KeyNames()
    ensures "klipper" + "_extra_args" == "klipper_extra_args" && "katapult" + "_extra_args" == "katapult_extra_args"
    ensures "klipper" + "_makefile_patches" == "klipper_makefile_patches"
    ensures "katapult" + "_makefile_patches" == "katapult_makefile_patches"
  {
  }

  lemma {:induction false} FirmwareSays(was: seq<Pair>, e: seq<Edit>, i: nat, extra: string, patches: string,
                                        f: Firmware)
    requires CleanFirmware(f) && DistinctKeys(e) && i + 1 < |e|
    requires e[i] == if Strip(f.extraArgs) != "" then PutE(extra, Single(Strip(f.extraArgs))) else DropE(extra)
    requires var ps := ValidPatches(f.patches);
             e[i + 1] == if ps != [] then PutE(patches, Items(RenderPatches(ps))) else DropE(patches)
    ensures FirmwareSaid(ApplyEdits(was, e), was, extra, patches, f)
  {
    hide ApplyEdits, Strip, RenderPatches, ValidPatches, ListValue, ListOf, SecondValue, PairValue, CleanFirmware,
         DistinctKeys;
    EditsSet(was, e, i);
    EditsSet(was, e, i + 1);
    FirmwareLists(f);
  }

  lemma FirmwareLists(f: Firmware)
    requires CleanFirmware(f)
    ensures ListOf(ListValue(RenderPatches(ValidPatches(f.patches)))) == RenderPatches(ValidPatches(f.patches))
  {
    CleanRendered(f);
    ListReads(RenderPatches(ValidPatches(f.patches)));
  }

  lemma SavedOptsOf(t: Table, types: seq<McuType>, m: McuType)
    requires Savable(t, types) && m in types
    ensures var section := "mcu " + m.name;
            && CleanType(m)
            && OptsAt(SaveTable(t, types), section) == Some(ApplyEdits(OptsOr(t, section), Edits(m)))
  {
    var section := "mcu " + m.name;
    assert SectionName(m.name) == section;
    var i :| 0 <= i < |types| && types[i] == m;
    NameableSection(m.name);
    assert FindType(types, m.name) == i;
    SavedOpts(t, types, section);
  }

  /** The sections that name a type after saving: those that did before, with the type's edits
      in its own one, which is added behind them if there was none; for a name that is no
      longer a type, none. */
  lemma {:induction false} SavedNamed(t: Table, types: seq<McuType>, name: string)
    requires DistinctRows(t) && DistinctTypes(types)
    ensures Named(SaveTable(t, types), name)
            == (var k := FindType(types, name);
                if k == |types| then []
                else EditsTable(Named(t, name), SectionName(name), Edits(types[k])))
  {
    hide SaveTypes, DropRows, Doomed, Edits, EditsTable, TypeName, SectionName, Under, DistinctRows,
         DistinctTypes, Named;
    var names := Doomed(t, types);
    if FindType(types, name) < |types| {
      forall s | s in names ensures !(Under(PREFIX, s) && TypeName(s) == name) {
        DoomedIff(t, types, s);
      }
      DropRowsNamed(t, names, name);
      SaveTypesNamed(DropRows(t, names), types, name);
    } else {
      NamedAre(SaveTable(t, types), name);
      forall row | row in SaveTable(t, types) ensures !Names(row, name) {
        var i :| 0 <= i < |SaveTable(t, types)| && SaveTable(t, types)[i] == row;
        SavedOpts(t, types, row.name);
        RowAt(SaveTable(t, types), i);
      }
      EmptyWithout(Named(SaveTable(t, types), name));
    }
  }

  lemma EmptyWithout<T>(s: seq<T>)
    ensures (forall x :: x !in s) ==> s == []
  {
    if s != [] {
      assert s[0] in s;
    }
  }

  /** Another spelling of the type's header stands behind its own section. */
  predicate Shadowed(t: Table, name: string) {
    FindRow(Named(t, name), SectionName(name)) + 1 < |Named(t, name)|
  }

  /** What a type's section says after saving. */
  function Saved(t: Table, m: McuType): seq<Pair> {
    ApplyEdits(OptsOr(t, SectionName(m.name)), Edits(m))
  }

  /** What a saved type is loaded from: its own section, or the last one that shadows it. */
  function LoadedFrom(t: Table, m: McuType): seq<Pair> {
    if Shadowed(t, m.name) then Named(t, m.name)[|Named(t, m.name)| - 1].opts else Saved(t, m)
  }

  lemma {:induction false} OptsNamed(t: Table, name: string)
    requires Nameable(name)
    ensures OptsAt(Named(t, name), SectionName(name)) == OptsAt(t, SectionName(name))
  {
    hide SectionName, Named, Nameable, TypeName, Under;
    NameableSection(name);
    FindNamed(t, SectionName(name), name);
  }

  lemma {:induction false} SavedLast(t: Table, types: seq<McuType>, k: nat)
    requires Savable(t, types) && k < |types|
    ensures var m := types[k];
            var ns := Named(SaveTable(t, types), m.name);
            && ns != [] && ns[|ns| - 1].opts == LoadedFrom(t, m)
            && forall row :: row in ns <==>
                 row == Row(SectionName(m.name), Saved(t, m))
                 || (row in Named(t, m.name) && row.name != SectionName(m.name))
  {
    hide SaveTable, Edits, ApplyEdits, SectionName, CleanType, Nameable, Named, EditsTable, DistinctRows, FindRow,
         PutRow;
    var m := types[k];
    var ns, row := Named(t, m.name), Row(SectionName(m.name), Saved(t, m));
    NamedDistinct(t, m.name);
    SavedIsPut(t, types, k);
    forall x ensures x in PutRow(ns, row) <==> x == row || (x in ns && x.name != row.name) {
      PutRowMembers(ns, row, x);
    }
    PutRowLast(ns, row);
  }

  /** A row in the place of the first one of its name, or at the end. */
  function PutRow(ns: Table, row: Row): Table {
    var j := FindRow(ns, row.name);
    if j < |ns| then ns[j := row] else ns + [row]
  }

  lemma {:induction false} SavedIsPut(t: Table, types: seq<McuType>, k: nat)
    requires Savable(t, types) && k < |types|
    ensures var m := types[k];
            Named(SaveTable(t, types), m.name) == PutRow(Named(t, m.name), Row(SectionName(m.name), Saved(t, m)))
  {
    hide SaveTable, Edits, ApplyEdits, SectionName, CleanType, Nameable, Named, EditsTable, DistinctRows, FindRow;
    var m := types[k];
    SavedNamed(t, types, m.name);
    EditsStart(m);
    OptsNamed(t, m.name);
    EditsTableRow(Named(t, m.name), SectionName(m.name), Edits(m));
  }

  lemma {:induction false} PutRowLast(ns: Table, row: Row)
    ensures var r := PutRow(ns, row);
            && r != []
            && r[|r| - 1].opts == if FindRow(ns, row.name) + 1 < |ns| then ns[|ns| - 1].opts else row.opts
  {
    hide FindRow;
  }

  lemma PutRowMembers(ns: Table, row: Row, x: Row)
    requires DistinctRows(ns)
    ensures x in PutRow(ns, row) <==> x == row || (x in ns && x.name != row.name)
  {
    hide FindRow;
    var j, r := FindRow(ns, row.name), PutRow(ns, row);
    assert r[j] == row;
    if x in ns && x.name != row.name {
      var i :| 0 <= i < |ns| && ns[i] == x;
      assert r[i] == x;
    }
    if x in r && x != row {
      var i :| 0 <= i < |r| && r[i] == x;
      assert i != j && x == ns[i];
    }
  }

  lemma {:induction false} NamedDistinct(t: Table, name: string)
    requires DistinctRows(t)
    ensures DistinctRows(Named(t, name))
    decreases |t|
  {
    hide Names;
    if t != [] {
      var init, row := t[..|t| - 1], t[|t| - 1];
      NamedDistinct(init, name);
      NamedAre(init, name);
      var ns := Named(init, name);
      forall i | 0 <= i < |ns| ensures ns[i].name != row.name {
        assert ns[i] in ns;
      }
    }
  }

  /** Every section that a save leaves can be read, as far as that can be told before: what comes to
      light in those it writes, and those it does not touch although their header names a type. */
  ghost predicate LoadsBack(t: Table, types: seq<McuType>) {
    forall m :: m in types ==>
      && SavedReads(OptsOr(t, SectionName(m.name)), m)
      && AliasesRead(t, m.name)
  }

  ghost predicate AliasesRead(t: Table, name: string) {
    forall row :: row in Named(t, name) && row.name != SectionName(name) ==> ReadType(name, row.opts).Some?
  }

  lemma SavedReadable(t: Table, types: seq<McuType>)
    requires Savable(t, types)
    ensures Readable(SaveTable(t, types)) <==> LoadsBack(t, types)
  {
    hide SaveTable, Edits, ApplyEdits, SectionName, CleanType, Nameable, Named, DistinctRows, ReadType, TypeName, Under,
         SavedReads, LoadedFrom;
    var t' := SaveTable(t, types);
    forall m | m in types
      ensures SavedReads(OptsOr(t, SectionName(m.name)), m) <==> ReadType(m.name, Saved(t, m)).Some?
    {
      TypeReads(OptsOr(t, SectionName(m.name)), m);
    }
    hide Saved;
    if Readable(t') {
      forall m | m in types
        ensures ReadType(m.name, Saved(t, m)).Some? && AliasesRead(t, m.name)
      {
        var k :| 0 <= k < |types| && types[k] == m;
        SavedLast(t, types, k);
        NamedAre(t', m.name);
        NameNotEmpty(m.name);
        assert forall row :: row in Named(t', m.name) ==> ReadType(m.name, row.opts).Some?;
        assert Row(SectionName(m.name), Saved(t, m)) in Named(t', m.name);
      }
    }
    if LoadsBack(t, types) {
      forall i | 0 <= i < |t'| && IsTypeRow(t'[i]) ensures ReadType(TypeName(t'[i].name), t'[i].opts).Some? {
        var name := TypeName(t'[i].name);
        NamedAre(t', name);
        assert t'[i] in Named(t', name);
        SavedNamed(t, types, name);
        SavedLast(t, types, FindType(types, name));
        assert types[FindType(types, name)] in types && AliasesRead(t, name);
      }
    }
  }

  lemma NameNotEmpty(name: string)
    requires Nameable(name)
    ensures name != ""
  {
  }

  ghost predicate ComesBack(t: Table, m: McuType) {
    if Shadowed(t, m.name) then SaysTheSame(ReadType(m.name, LoadedFrom(t, m)), m)
    else Silent(OptsOr(t, SectionName(m.name)), m)
  }

  /** What is loaded for a name, when `saved` is what the registry had for it. */
  ghost predicate Returned(t: Table, saved: Maybe<McuType>, loaded: Maybe<McuType>) {
    match saved
    case None => loaded == None
    case Some(m) => loaded == ReadType(m.name, LoadedFrom(t, m)) && (SaysTheSame(loaded, m) <==> ComesBack(t, m))
  }

  /** Saving and loading: the file loads exactly when every section left in it can be read;
      what is loaded are the types that were saved and no others; and a type comes back
      exactly if no other spelling of its header stands behind its section and what stood
      behind the keys that were dropped says nothing, or if the last such spelling already
      says the same. */
  lemma RegistryRoundTrip(t: Table, types: seq<McuType>, name: string)
    requires Savable(t, types) && name != ""
    ensures LoadRows(SaveTable(t, types)).Types? <==> LoadsBack(t, types)
    ensures LoadsBack(t, types) ==>
      Returned(t, TypeNamed(types, name), TypeNamed(LoadRows(SaveTable(t, types)).types, name))
  {
    hide SaveTable, Edits, ApplyEdits, SectionName, ReadType, CleanType, Nameable, LoadRows, SaysTheSame, Named, Silent,
         Readable, LoadsBack;
    LoadRowsNamed(SaveTable(t, types), name);
    SavedReadable(t, types);
    SavedNamed(t, types, name);
    var k := FindType(types, name);
    if k < |types| {
      SavedLast(t, types, k);
      assert types[k] in types;
      TypeReads(OptsOr(t, SectionName(name)), types[k]);
    }
  }

  /** The normal form says what the type says: the same board, the same arguments up to white
      space at the ends, the same patches that say something, the same boot loader. */
  lemma NormalKeeps(m: McuType)
    ensures Normal(m).name == m.name && Normal(m).chipset == m.chipset && Normal(m).serials == m.serials
    ensures Strip(Normal(m).klipper.extraArgs) == Strip(m.klipper.extraArgs)
    ensures Strip(Normal(m).katapult.extraArgs) == Strip(m.katapult.extraArgs)
    ensures ValidPatches(Normal(m).klipper.patches) == ValidPatches(m.klipper.patches)
    ensures ValidPatches(Normal(m).katapult.patches) == ValidPatches(m.katapult.patches)
    ensures KatapultInstalled(Normal(m)) == KatapultInstalled(m)
    ensures Normal(Normal(m)) == Normal(m)
  {
    StripIdempotent(m.klipper.extraArgs);
    StripIdempotent(m.katapult.extraArgs);
    hide Strip;
    ValidPatchesId(m.klipper.patches);
    ValidPatchesId(m.katapult.patches);
  }

  lemma {:induction false} ValidPatchesId(ps: seq<Patch>)
    ensures ValidPatches(ValidPatches(ps)) == ValidPatches(ps)
    decreases |ps|
  {
    if ps != [] {
      var init, p := ValidPatches(ps[..|ps| - 1]), ps[|ps| - 1];
      ValidPatchesId(ps[..|ps| - 1]);
      if IsValidPatch(p) {
        assert (init + [p])[..|init|] == init;
      } else {
        assert init + [] == init;
      }
    }
  }

  /** Saving leaves every section alone that is no type section, and in a type section every
      key it does not know. */
  lemma {:induction false} SaveKeepsOthers(t: Table, types: seq<McuType>, name: string, key: string)
    requires DistinctRows(t) && DistinctTypes(types)
    ensures !Under(PREFIX, name) ==> OptsAt(SaveTable(t, types), name) == OptsAt(t, name)
    ensures (forall m, e :: m in types && e in Edits(m) ==> e.key != key)
              && Under(PREFIX, name) && FindType(types, TypeName(name)) < |types| ==>
            PairValue(OptsOr(SaveTable(t, types), name), key) == PairValue(OptsOr(t, name), key)
  {
    hide SaveTable, Edits, ApplyEdits, TypeName, SectionName, Nameable, PairValue;
    SavedOpts(t, types, name);
    var k := FindType(types, TypeName(name));
    if k < |types| && name == SectionName(types[k].name)
          && (forall m, e :: m in types && e in Edits(m) ==> e.key != key) {
      var edits := Edits(types[k]);
      assert types[k] in types;
      forall i | 0 <= i < |edits| ensures edits[i].key != key {
        assert edits[i] in edits;
      }
      EditsKeep(OptsOr(t, name), edits, key);
    }
    if k < |types| {
      NameableSection(types[k].name);
    }
  }

  /** An edit of a section that is no type section does not change the registry view. */
  lemma {:induction false} OtherSectionKept(t: Table, name: string, edits: seq<Edit>)
    requires !Under(PREFIX, name)
    ensures LoadRows(EditsTable(t, name, edits)) == LoadRows(t)
    decreases |edits|
  {
    hide ReadBack, ReadType, TypeName, Under, LoadRows;
    if edits != [] {
      var init, e := edits[..|edits| - 1], edits[|edits| - 1];
      OtherSectionKept(t, name, init);
      OtherRowKept(EditsTable(t, name, init), name, e);
    }
  }

  lemma {:induction false} OtherRowKept(t: Table, name: string, e: Edit)
    requires !Under(PREFIX, name)
    ensures LoadRows(EditTable(t, name, e)) == LoadRows(t)
  {
    var t', j := EditTable(t, name, e), FindRow(t, name);
    if j == |t| {
      assert t' == t || (t'[..|t'| - 1] == t && t'[|t'| - 1].name == name);
    } else {
      LoadRowsSkip(t, t', j);
    }
  }

  lemma {:induction false} LoadRowsSkip(t: Table, t': Table, j: nat)
    requires j < |t| == |t'| && (forall i :: 0 <= i < |t| && i != j ==> t'[i] == t[i])
    requires !Under(PREFIX, t[j].name) && t'[j].name == t[j].name
    ensures LoadRows(t') == LoadRows(t)
    decreases |t|
  {
    hide ReadType, TypeName, Under;
    var init, init' := t[..|t| - 1], t'[..|t| - 1];
    if j < |init| {
      LoadRowsSkip(init, init', j);
    } else {
      assert init == init';
    }
  }

  /** A type in whose file another spelling stands behind its section cannot be edited: whatever
      is saved, what is loaded is what was loaded before. */
  lemma {:induction false} AliasShadowsEdit(t: Table, types: seq<McuType>, k: nat)
    requires Savable(t, types) && k < |types| && Shadowed(t, types[k].name)
    requires LoadRows(t).Types? && LoadRows(SaveTable(t, types)).Types?
    ensures TypeNamed(LoadRows(SaveTable(t, types)).types, types[k].name) == TypeNamed(LoadRows(t).types, types[k].name)
  {
    hide SaveTable, Edits, ApplyEdits, ReadType, CleanType, Nameable, LoadRows, Normal, Named, Readable,
         LoadsBack, SectionName;
    var name := types[k].name;
    NameNotEmpty(name);
    assert FindType(types, name) == k;
    RegistryRoundTrip(t, types, name);
    LoadRowsNamed(t, name);
  }

  /** Such a file: a blank too many in the second header. */
  lemma BlankTooMany(a: seq<Pair>, b: seq<Pair>)
    ensures Nameable("ebb") && Shadowed([Row("mcu ebb", a), Row("mcu  ebb", b)], "ebb")
  {
    ShortNames();
    var t := [Row("mcu ebb", a), Row("mcu  ebb", b)];
    assert t[..1] == [t[0]] && t[..1][..0] == [];
    hide TypeName;
    assert Names(t[0], "ebb") && Names(t[1], "ebb");
    assert Named(t[..1], "ebb") == [t[0]];
    assert Named(t, "ebb") == t;
  }

  lemma ShortNames()
    ensures Nameable("ebb") && SectionName("ebb") == "mcu ebb"
    ensures TypeName("mcu ebb") == "ebb" && TypeName("mcu  ebb") == "ebb"
  {
    assert "mcu ebb"[3..] == " " + "ebb" + "" && "mcu  ebb"[3..] == "  " + "ebb" + "";
    StripIs(" ", "ebb", "");
    StripIs("  ", "ebb", "");
  }

  /** A key that stood twice comes back when it is dropped. */
  lemma {:induction false} SecondComesBack(opts: seq<Pair>, m: McuType, raw: string)
    requires CleanType(m) && m.installed != Some(false)
    requires SecondValue(opts, "katapult_installed") == Some(raw) && ParseBool(raw) == Some(false)
    ensures ReadType(m.name, ApplyEdits(opts, Edits(m))).Some? ==>
      !KatapultInstalled(ReadType(m.name, ApplyEdits(opts, Edits(m))).value)
  {
    hide ParseBool, ReadFirmware, PairValue, SecondValue, ApplyEdits;
    EditKeys(m);
    EditsSet(opts, Edits(m), 2);
  }

  // ---- in which order ----

  /** What edits put, in their order. */
  ghost function PutsOf(edits: seq<Edit>): seq<Pair> {
    if edits == [] then []
    else
      var e := edits[|edits| - 1];
      PutsOf(edits[..|edits| - 1]) + if e.PutE? then [(e.key, ReadBack(e.value))] else []
  }

  lemma {:induction false} NoPutOf(edits: seq<Edit>, key: string)
    requires forall i :: 0 <= i < |edits| ==> edits[i].key != key
    ensures forall i :: 0 <= i < |PutsOf(edits)| ==> PutsOf(edits)[i].0 != key
    decreases |edits|
  {
    if edits != [] {
      NoPutOf(edits[..|edits| - 1], key);
    }
  }

  /** A section that was not there has the keys that are put, in the order of the edits. */
  lemma {:induction false} NewSectionInOrder(edits: seq<Edit>)
    requires DistinctKeys(edits)
    ensures ApplyEdits([], edits) == PutsOf(edits)
    decreases |edits|
  {
    if edits != [] {
      var init, e := edits[..|edits| - 1], edits[|edits| - 1];
      NewSectionInOrder(init);
      var before := PutsOf(init);
      assert forall i :: 0 <= i < |init| ==> init[i] == edits[i];
      NoPutOf(init, e.key);
      assert FindKey(before, e.key) == |before|;
    }
  }

  ghost function RowNames(t: Table): seq<string> {
    seq(|t|, i requires 0 <= i < |t| => t[i].name)
  }

  /** The sections of types that have none yet, in the order of the types. */
  ghost function NewNames(t: Table, types: seq<McuType>): seq<string> {
    if types == [] then []
    else
      var name := "mcu " + types[|types| - 1].name;
      NewNames(t, types[..|types| - 1]) + if FindRow(t, name) == |t| then [name] else []
  }

  /** A save leaves the sections that stay in their order, and adds those of new types behind them in theirs. */
  lemma {:induction false} SectionsInOrder(t: Table, types: seq<McuType>)
    requires DistinctTypes(types)
    ensures RowNames(SaveTypes(t, types)) == RowNames(t) + NewNames(t, types)
    decreases |types|
  {
    if types == [] {
      assert RowNames(t) + [] == RowNames(t);
    } else {
      var init, m := types[..|types| - 1], types[|types| - 1];
      NextType(t, types);
      hide *;
      SectionsInOrder(t, init);
      var before, name := SaveTypes(t, init), "mcu " + m.name;
      SaveTypeNames(before, m);
      NewNamesAre(t, init, m.name);
      NamesFind(t, before, NewNames(t, init), name);
      Appended(RowNames(t), NewNames(t, init), name);
    }
  }

  lemma Appended(a: seq<string>, b: seq<string>, x: string)
    ensures a + b + [x] == a + (b + [x]) && b + [] == b
  {
  }

  lemma NextType(t: Table, types: seq<McuType>)
    requires types != [] && DistinctTypes(types)
    ensures var init, m, name := types[..|types| - 1], types[|types| - 1], "mcu " + types[|types| - 1].name;
            && SaveTypes(t, types) == EditsTable(SaveTypes(t, init), name, Edits(m))
            && NewNames(t, types) == NewNames(t, init) + (if FindRow(t, name) == |t| then [name] else [])
            && (forall i :: 0 <= i < |init| ==> init[i].name != m.name) && DistinctTypes(init)
  {
    hide Edits, EditsTable, FindRow, Nameable;
    assert SectionName(types[|types| - 1].name) == "mcu " + types[|types| - 1].name;
  }

  lemma {:induction false} SaveTypeNames(t: Table, m: McuType)
    ensures var t', name := EditsTable(t, "mcu " + m.name, Edits(m)), "mcu " + m.name;
            RowNames(t') == if FindRow(t, name) == |t| then RowNames(t) + [name] else RowNames(t)
  {
    var name, edits := "mcu " + m.name, Edits(m);
    assert edits != [] && edits[0] == BaseEdits(m)[0];
    hide ApplyEdits, Edits, EditsTable;
    EditsTableRow(t, name, edits);
    EditedNames(t, FindRow(t, name), Row(name, ApplyEdits(OptsOr(t, name), edits)));
    EditedNames(t, |t|, Row(name, ApplyEdits([], edits)));
    hide FindRow, RowNames;
  }

  lemma EditedNames(t: Table, j: nat, row: Row)
    requires j <= |t| && (j < |t| ==> t[j].name == row.name)
    ensures j < |t| ==> RowNames(t[j := row]) == RowNames(t)
    ensures RowNames(t + [row]) == RowNames(t) + [row.name]
  {
  }

  lemma {:induction false} NewNamesAre(t: Table, types: seq<McuType>, other: string)
    requires forall i :: 0 <= i < |types| ==> types[i].name != other
    ensures ("mcu " + other) !in NewNames(t, types)
    decreases |types|
  {
    if types != [] {
      NewNamesAre(t, types[..|types| - 1], other);
      var name := types[|types| - 1].name;
      assert ("mcu " + name)[4..] == name && ("mcu " + other)[4..] == other;
    }
  }

  lemma {:induction false} NamesFind(t: Table, t': Table, added: seq<string>, name: string)
    requires RowNames(t') == RowNames(t) + added && name !in added
    ensures FindRow(t', name) == |t'| <==> FindRow(t, name) == |t|
  {
    assert |t'| == |t| + |added|;
    assert forall i :: 0 <= i < |t| ==> t'[i].name == RowNames(t')[i] == t[i].name;
    forall i | |t| <= i < |t'| ensures t'[i].name != name {
      assert t'[i].name == RowNames(t')[i] == added[i - |t|];
    }
    var j := FindRow(t', name);
    if j < |t'| {
      assert j < |t| && t[j].name == name;
    }
    if FindRow(t, name) < |t| {
      assert t'[FindRow(t, name)].name == name;
    }
  }

  ghost function TypeNames(types: seq<McuType>): seq<string> {
    seq(|types|, i requires 0 <= i < |types| => types[i].name)
  }

  /** The names of types in a table, each where it is first met. */
  ghost function FirstNames(t: Table): seq<string> {
    if t == [] then []
    else
      var before, row := FirstNames(t[..|t| - 1]), t[|t| - 1];
      if IsTypeRow(row) && TypeName(row.name) !in before then before + [TypeName(row.name)] else before
  }

  /** Types are loaded in the order in which the file first names them. */
  lemma {:induction false} LoadedInOrder(t: Table)
    requires LoadRows(t).Types?
    ensures TypeNames(LoadRows(t).types) == FirstNames(t)
  {
    if t != [] {
      var init, row := t[..|t| - 1], t[|t| - 1];
      hide IsTypeRow, TypeName, ReadFirmware;
      LoadedInOrder(init);
      var before := LoadRows(init).types;
      if IsTypeRow(row) {
        var m := ReadType(TypeName(row.name), row.opts).value;
        PutNames(before, m);
      }
    }
  }

  lemma PutNames(types: seq<McuType>, m: McuType)
    ensures TypeNames(PutType(types, m))
            == if m.name in TypeNames(types) then TypeNames(types) else TypeNames(types) + [m.name]
  {
    var k := FindType(types, m.name);
    if k < |types| {
      assert TypeNames(types)[k] == m.name;
    } else {
      assert forall i :: 0 <= i < |types| ==> TypeNames(types)[i] != m.name;
    }
  }
}
