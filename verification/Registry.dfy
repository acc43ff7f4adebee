/** The board registry kept in the `[mcu ...]` sections, and the settings beside it. */
module Registry {
  import opened Text
  import opened CfgLine
  import opened CfgIndex
  import opened CfgRender
  import opened CfgEdit
  import opened CfgTable
  import opened CfgLaws
  import opened CfgText
  import opened CfgDocuments

  datatype Patch = Patch(file: string, line: string)

  datatype Firmware = Firmware(extraArgs: string, patches: seq<Patch>)

  /** `installed` is the setting of the boot loader block; absent means installed. */
  datatype McuType = McuType(name: string, chipset: string, serials: seq<string>,
                             klipper: Firmware, katapult: Firmware, installed: Maybe<bool>)

  const PREFIX := "mcu"
  const SETTINGS := "updater"

  function SectionName(mcuType: string): string {
    PREFIX + " " + mcuType
  }

  // ---- names ----

  predicate NameChar(c: char) {
    'A' <= c <= 'Z' || 'a' <= c <= 'z' || '0' <= c <= '9' || c == '.' || c == '_' || c == '-'
  }

  const TYPE_NAME_MAX := 64

  /** What `validate_type_name` lets through. */
  predicate ValidTypeName(name: string) {
    && Strip(name) != "" && Strip(name) == name
    && |name| <= TYPE_NAME_MAX
    && name != "." && name != ".."
    && forall i :: 0 <= i < |name| ==> NameChar(name[i])
  }

  /** Up to 64 letters, digits, dots, underscores and hyphens, and neither `.` nor `..`. */
  lemma TypeNameIff(name: string)
    ensures ValidTypeName(name) <==>
      && 1 <= |name| <= 64 && name != "." && name != ".."
      && forall i :: 0 <= i < |name| ==>
           var c := name[i] as int; 65 <= c <= 90 || 97 <= c <= 122 || 48 <= c <= 57 || name[i] in {'.', '_', '-'}
  {
    if name != "" && forall i :: 0 <= i < |name| ==> NameChar(name[i]) {
      assert NameChar(name[0]) && NameChar(name[|name| - 1]);
      StripTrimmed(name);
    }
    hide Strip;
  }

  /** The type a section name stands for: the rest behind the prefix, stripped. */
  function TypeName(section: string): string {
    if |section| < |PREFIX| then "" else Strip(section[|PREFIX|..])
  }

  predicate IsTypeRow(row: Row) {
    Under(PREFIX, row.name) && TypeName(row.name) != ""
  }

  /** A name a header can hold. */
  predicate Nameable(name: string) {
    name != "" && Trimmed(name) && ValidName(SectionName(name))
  }

  /** A name that was let through makes a header that reads back as its section and as its type. */
  lemma ValidSection(name: string)
    requires ValidTypeName(name)
    ensures Nameable(name) && TypeName(SectionName(name)) == name && Under(PREFIX, SectionName(name))
  {
    var s := SectionName(name);
    StripTrimmed(name);
    var l, r := StripParts(name);
    assert s[0] == 'm' && s[|s| - 1] == name[|name| - 1];
    forall i | 0 <= i < |s| ensures s[i] != ']' && s[i] != '\n' {
      if i >= 4 {
        assert s[i] == name[i - 4] && NameChar(name[i - 4]);
      } else {
        assert s[i] == "mcu "[i];
      }
    }
    NameableSection(name);
  }

  lemma NameableSection(name: string)
    requires Nameable(name)
    ensures ValidName(SectionName(name)) && TypeName(SectionName(name)) == name && Under(PREFIX, SectionName(name))
  {
    var s := SectionName(name);
    assert s[3..] == " " + name + "";
    StripIs(" ", name, "");
    assert PREFIX + " " <= s;
  }

  /** A header is that of a type exactly if it says `mcu`, a blank, and a name; the bare `mcu` names none. */
  lemma TypeHeader(section: string)
    ensures Under("mcu", section) <==> section == "mcu" || (|section| >= 4 && section[..4] == "mcu ")
    ensures forall opts :: IsTypeRow(Row(section, opts)) <==>
      |section| >= 4 && section[..4] == "mcu " && Strip(section[4..]) != ""
    ensures |section| >= 4 && section[..4] == "mcu " ==> TypeName(section) == Strip(section[4..])
    ensures forall name :: SectionName(name) == "mcu " + name
  {
    if |section| >= 4 && section[..4] == "mcu " {
      assert section[3..] == " " + section[4..] + "" && section[3] == ' ';
      var l, r := StripParts(section[4..]);
      assert section[3..] == (" " + l) + Strip(section[4..]) + r;
      StripIs(" " + l, Strip(section[4..]), r);
      assert section[..3] + section[3..4] + section[4..] == section;
      assert "mcu" + " " <= section;
    }
  }

  /** So does every name that is read from a header, whatever characters it has. */
  lemma ReadNameable(section: string)
    requires ValidName(section) && Under(PREFIX, section) && TypeName(section) != ""
    ensures Nameable(TypeName(section))
  {
    var rest, name := section[|PREFIX|..], TypeName(section);
    var l, r := StripParts(rest);
    assert forall i :: 0 <= i < |rest| ==> rest[i] == section[|PREFIX| + i];
    assert forall i :: 0 <= i < |name| ==> name[i] == rest[|l| + i];
    var s := SectionName(name);
    forall i | 0 <= i < |s| ensures s[i] != ']' && s[i] != '\n' {
      if i >= 4 {
        assert s[i] == name[i - 4];
      } else {
        assert s[i] == "mcu "[i];
      }
    }
  }

  // ---- values ----

  function LowerChar(c: char): char {
    if 'A' <= c <= 'Z' then (c as int + 32) as char else c
  }

  function Lower(s: string): string {
    if s == "" then "" else [LowerChar(s[0])] + Lower(s[1..])
  }

  /** Truthiness of a value; `None` when it is not recognised. */
  function ParseBool(raw: string): Maybe<bool> {
    var value := Lower(Strip(raw));
    if value in {"true", "yes", "on", "1"} then Some(true)
    else if value in {"false", "no", "off", "0"} then Some(false)
    else None
  }

  /** The text is this word, in whatever case. */
  ghost predicate Spells(text: string, word: string) {
    |text| == |word| && forall i :: 0 <= i < |word| ==>
      text[i] == word[i] || ('A' <= text[i] <= 'Z' && text[i] as int + 32 == word[i] as int)
  }

  lemma {:induction false} LowerIs(s: string)
    ensures |Lower(s)| == |s| && forall i :: 0 <= i < |s| ==> Lower(s)[i] == LowerChar(s[i])
  {
    if s != "" {
      LowerIs(s[1..]);
    }
  }

  lemma {:induction false} LowerSpells(text: string, word: string)
    requires forall i :: 0 <= i < |word| ==> !('A' <= word[i] <= 'Z')
    ensures Lower(text) == word <==> Spells(text, word)
  {
    LowerIs(text);
    if Lower(text) == word {
      assert forall i :: 0 <= i < |word| ==> Lower(text)[i] == word[i];
    }
    if Spells(text, word) {
      assert forall i :: 0 <= i < |word| ==> text[i] == word[i] || 'A' <= text[i] <= 'Z';
    }
  }

  /** The words of yes and no; anything else means neither. */
  lemma TruthIff(raw: string)
    ensures var text := Strip(raw);
            var yes := Spells(text, "true") || Spells(text, "yes") || Spells(text, "on") || Spells(text, "1");
            var no := Spells(text, "false") || Spells(text, "no") || Spells(text, "off") || Spells(text, "0");
            && !(yes && no)
            && ParseBool(raw) == if yes then Some(true) else if no then Some(false) else None
  {
    var text := Strip(raw);
    LowerSpells(text, "true");
    LowerSpells(text, "yes");
    LowerSpells(text, "on");
    LowerSpells(text, "1");
    LowerSpells(text, "false");
    LowerSpells(text, "no");
    LowerSpells(text, "off");
    LowerSpells(text, "0");
    hide Lower, Strip, Spells;
  }

  const ARROW := "->"

  predicate ArrowAt(s: string, j: nat) {
    j + 1 < |s| && s[j] == '-' && s[j + 1] == '>'
  }

  /** Index of the first `->` at or after `i`, or |s|. */
  function FindArrow(s: string, i: nat := 0): (r: nat)
    requires i <= |s|
    ensures i <= r <= |s|
    ensures r < |s| ==> ArrowAt(s, r)
    ensures forall j :: i <= j < r ==> !ArrowAt(s, j)
    decreases |s| - i
  {
    if i == |s| || ArrowAt(s, i) then i else FindArrow(s, i + 1)
  }

  predicate IsValidPatch(p: Patch) {
    p.file != "" && p.line != ""
  }

  function ParsePatch(raw: string): Maybe<Patch> {
    var i := FindArrow(raw);
    if i == |raw| then None
    else
      var p := Patch(Strip(raw[..i]), Strip(raw[i + 2..]));
      if IsValidPatch(p) then Some(p) else None
  }

  function RenderPatch(p: Patch): string {
    p.file + " " + ARROW + " " + p.line
  }

  /** A hyphen with a `>` behind it. */
  ghost predicate HasArrow(s: string) {
    exists j :: 0 <= j < |s| - 1 && s[j] == '-' && s[j + 1] == '>'
  }

  /** The line of a patch: a file, the first arrow, and what to append, neither of them blank. */
  lemma PatchLine(file: string, line: string)
    requires !HasArrow(file)
    ensures ParsePatch(file) == None
    ensures ParsePatch(file + "->" + line)
            == if Strip(file) == "" || Strip(line) == "" then None else Some(Patch(Strip(file), Strip(line)))
    ensures RenderPatch(Patch(file, line)) == file + " -> " + line
  {
    hide Strip;
    var s, n := file + "->" + line, |file|;
    assert ArrowAt(s, n);
    forall j | 0 <= j < n ensures !ArrowAt(s, j) {
      assert s[j] == file[j] && (j + 1 < n ==> s[j + 1] == file[j + 1]);
      assert j + 1 == n ==> s[j + 1] == '-';
    }
    assert FindArrow(s) == n;
    assert s[..n] == file && s[n + 2..] == line;
    assert FindArrow(file) == n;
    assert file + " " + "->" + " " + line == file + " -> " + line;
  }

  /** A patch is read back from its line exactly when both parts are trimmed, not empty, and
      the target holds no arrow of its own. */
  lemma PatchRoundTrip(p: Patch)
    ensures ParsePatch(RenderPatch(p)) == Some(p)
            <==> IsValidPatch(p) && Trimmed(p.file) && Trimmed(p.line) && FindArrow(p.file) == |p.file|
  {
    var s := RenderPatch(p);
    var n, i := |p.file|, FindArrow(s);
    assert ArrowAt(s, n + 1);
    assert forall j :: 0 <= j < n ==> s[j] == p.file[j];
    if FindArrow(p.file) < n {
      assert ArrowAt(s, FindArrow(p.file));
      var _, _ := StripParts(s[..i]);
    } else {
      forall j | 0 <= j < n + 1 ensures !ArrowAt(s, j) {
        assert j < n ==> !ArrowAt(p.file, j);
      }
      assert i == n + 1;
      assert s[..n + 1] == "" + p.file + " " && s[n + 3..] == " " + p.line + "";
      PaddedStrip("", p.file, " ");
      PaddedStrip(" ", p.line, "");
      hide FindArrow, Strip;
    }
  }

  lemma PaddedStrip(l: string, s: string, r: string)
    requires AllSpace(l) && AllSpace(r)
    ensures Strip(l + s + r) == s <==> Trimmed(s)
  {
    if Trimmed(s) {
      StripIs(l, s, r);
    } else {
      var _, _ := StripParts(l + s + r);
    }
  }

  function ParsePatches(items: seq<string>): Maybe<seq<Patch>> {
    if items == [] then Some([])
    else
      match (ParsePatches(items[..|items| - 1]), ParsePatch(items[|items| - 1]))
      case (Some(ps), Some(p)) => Some(ps + [p])
      case _ => None
  }

  function RenderPatches(ps: seq<Patch>): (r: seq<string>)
    ensures |r| == |ps|
    ensures forall i :: 0 <= i < |r| ==> r[i] == RenderPatch(ps[i])
  {
    seq(|ps|, i requires 0 <= i < |ps| => RenderPatch(ps[i]))
  }

  function ValidPatches(ps: seq<Patch>): seq<Patch> {
    if ps == [] then []
    else ValidPatches(ps[..|ps| - 1]) + (if IsValidPatch(ps[|ps| - 1]) then [ps[|ps| - 1]] else [])
  }

  // ---- loading ----

  function Text0(v: Maybe<string>): string {
    if v.None? then "" else Strip(v.value)
  }

  function Items0(v: Maybe<string>): seq<string> {
    if v.None? then [] else ListOf(v.value)
  }

  function Truth(v: Maybe<string>): Maybe<bool> {
    if v.None? then None else ParseBool(v.value)
  }

  function ReadFirmware(opts: seq<Pair>, fw: string): Maybe<Firmware> {
    match ParsePatches(Items0(PairValue(opts, fw + "_makefile_patches")))
    case Some(ps) => Some(Firmware(Text0(PairValue(opts, fw + "_extra_args")), ps))
    case None => None
  }

  /** One section as a type; `None` when a patch line cannot be parsed. */
  function ReadType(name: string, opts: seq<Pair>): Maybe<McuType> {
    match (ReadFirmware(opts, "klipper"), ReadFirmware(opts, "katapult"))
    case (Some(klipper), Some(katapult)) =>
      Some(McuType(name, Text0(PairValue(opts, "chipset")), Items0(PairValue(opts, "serials")), klipper, katapult,
                   Truth(PairValue(opts, "katapult_installed"))))
    case _ => None
  }

  function FindType(types: seq<McuType>, name: string): (k: nat)
    ensures k <= |types|
    ensures k < |types| ==> types[k].name == name
    ensures forall i :: 0 <= i < k ==> types[i].name != name
  {
    if types == [] || types[0].name == name then 0 else 1 + FindType(types[1..], name)
  }

  /** Assignment to a dictionary of types. */
  function PutType(types: seq<McuType>, m: McuType): seq<McuType> {
    var k := FindType(types, m.name);
    if k == |types| then types + [m] else types[k := m]
  }

  function TypeNamed(types: seq<McuType>, name: string): Maybe<McuType> {
    var k := FindType(types, name);
    if k == |types| then None else Some(types[k])
  }

  datatype Loaded = Types(types: seq<McuType>) | Corrupt

  /** The registry view of a document without repeated sections. */
  function LoadRows(t: Table): Loaded {
    if t == [] then Types([])
    else
      var before, row := LoadRows(t[..|t| - 1]), t[|t| - 1];
      if before.Corrupt? || !IsTypeRow(row) then before
      else
        match ReadType(TypeName(row.name), row.opts)
        case Some(m) => Types(PutType(before.types, m))
        case None => Corrupt
  }

  ghost predicate DistinctRows(t: Table) {
    forall i, j :: 0 <= i < j < |t| ==> t[i].name != t[j].name
  }

  // ---- saving ----

  datatype Edit = PutE(key: string, value: CfgRender.Value) | DropE(key: string)

  function FirmwareEdits(fw: string, f: Firmware): seq<Edit> {
    var patches := ValidPatches(f.patches);
    [if Strip(f.extraArgs) != "" then PutE(fw + "_extra_args", Single(Strip(f.extraArgs)))
     else DropE(fw + "_extra_args"),
     if patches != [] then PutE(fw + "_makefile_patches", Items(RenderPatches(patches)))
     else DropE(fw + "_makefile_patches")]
  }

  function BaseEdits(m: McuType): seq<Edit> {
    [PutE("chipset", Single(m.chipset)), PutE("serials", Items(m.serials)),
     if m.installed == Some(false) then PutE("katapult_installed", Single("false")) else DropE("katapult_installed")]
  }

  /** What saving does to the section of one type, in order. */
  function Edits(m: McuType): seq<Edit> {
    BaseEdits(m) + FirmwareEdits("klipper", m.klipper) + FirmwareEdits("katapult", m.katapult)
  }

  function ApplyEdit(opts: seq<Pair>, e: Edit): seq<Pair> {
    match e
    case PutE(key, value) => PutKey(opts, key, ReadBack(value))
    case DropE(key) => DropKey(opts, key)
  }

  function ApplyEdits(opts: seq<Pair>, edits: seq<Edit>): seq<Pair> {
    if edits == [] then opts
    else ApplyEdit(ApplyEdits(opts, edits[..|edits| - 1]), edits[|edits| - 1])
  }

  function EditTable(t: Table, name: string, e: Edit): Table {
    match e
    case PutE(key, value) => Put(t, name, key, ReadBack(value))
    case DropE(key) => Drop(t, name, key)
  }

  function EditsTable(t: Table, name: string, edits: seq<Edit>): Table {
    if edits == [] then t
    else EditTable(EditsTable(t, name, edits[..|edits| - 1]), name, edits[|edits| - 1])
  }

  function SaveTypes(t: Table, types: seq<McuType>): Table {
    if types == [] then t
    else
      var m := types[|types| - 1];
      EditsTable(SaveTypes(t, types[..|types| - 1]), SectionName(m.name), Edits(m))
  }

  /** Sections of types that are no longer there, and the bare `[mcu]`. */
  function Doomed(t: Table, types: seq<McuType>): seq<string> {
    if t == [] then []
    else
      var row := t[|t| - 1];
      Doomed(t[..|t| - 1], types)
      + (if Under(PREFIX, row.name) && FindType(types, TypeName(row.name)) == |types| then [row.name] else [])
  }

  function DropRows(t: Table, names: seq<string>): Table {
    if names == [] then t else DropRow(DropRows(t, names[..|names| - 1]), names[|names| - 1])
  }

  function SaveTable(t: Table, types: seq<McuType>): Table {
    SaveTypes(DropRows(t, Doomed(t, types)), types)
  }
}
