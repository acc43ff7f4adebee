/** The `[updater]` section, which shares the file with the registry: three kinds of fields, read key by
    key and written field by field, with everything else in the file left as it is. A key may spell a
    field with dashes; a key that is no field belongs to a newer version and is skipped. What is read
    is checked: a value that does not parse is an error, a missing section means the defaults. */
module Settings {
  import opened Text
  import opened CfgLine
  import opened CfgIndex
  import opened CfgRender
  import opened CfgEdit
  import opened CfgTable
  import opened CfgLaws
  import opened CfgText
  import opened CfgDocuments
  import opened Registry
  import opened RegistryLaws
  import opened RegistryFile

  const BOOL_FIELDS := {"clean_before_build", "dry_run", "enable_flashing", "allow_flash_while_printing"}
  const INT_FIELDS := {"make_jobs", "log_ring_size"}
  const STR_FIELDS := {"service", "service_backend", "display_source", "platformio_bin"}
  const BACKENDS := {"moonraker", "systemd", "null"}

  /** In the order they are written. */
  const FIELDS := ["make_jobs", "clean_before_build", "service", "service_backend", "dry_run", "enable_flashing",
                   "allow_flash_while_printing", "log_ring_size", "display_source", "platformio_bin"]

  datatype Options = Options(bools: map<string, bool>, ints: map<string, int>, strs: map<string, string>)

  const DEFAULTS := Options(
    map["clean_before_build" := true, "dry_run" := false, "enable_flashing" := false,
        "allow_flash_while_printing" := false],
    map["make_jobs" := 0, "log_ring_size" := 2000],
    map["service" := "klipper", "service_backend" := "moonraker", "display_source" := "", "platformio_bin" := ""])

  predicate Complete(s: Options) {
    s.bools.Keys == BOOL_FIELDS && s.ints.Keys == INT_FIELDS && s.strs.Keys == STR_FIELDS
  }

  // ---- numbers ----

  function DigitChar(d: nat): char
    requires d < 10
  {
    ('0' as int + d) as char
  }

  function Digits(n: nat): string {
    if n < 10 then [DigitChar(n)] else Digits(n / 10) + [DigitChar(n % 10)]
  }

  function IntText(n: int): string {
    if n < 0 then "-" + Digits(-n) else Digits(n)
  }

  predicate IsDigit(c: char) {
    '0' <= c <= '9'
  }

  /** Decimal digits, with single underscores allowed between them. */
  function NatOf(s: string): Maybe<nat>
    decreases |s|
  {
    if s == "" || !IsDigit(s[|s| - 1]) then None
    else
      var d, rest := s[|s| - 1] as nat - '0' as nat, s[..|s| - 1];
      if rest == "" then Some(d)
      else
        match NatOf(if rest[|rest| - 1] == '_' then rest[..|rest| - 1] else rest)
        case Some(v) => Some(10 * v + d)
        case None => None
  }

  function IntOf(raw: string): Maybe<int> {
    var t := Strip(raw);
    if t != "" && (t[0] == '-' || t[0] == '+') then
      match NatOf(t[1..])
      case Some(v) => var n: int := v; Some(if t[0] == '-' then -n else n)
      case None => None
    else
      match NatOf(t)
      case Some(v) => Some(v)
      case None => None
  }

  /** Digits, with single underscores between them. */
  ghost predicate Numeral(s: string) {
    && s != "" && '0' <= s[0] <= '9' && '0' <= s[|s| - 1] <= '9'
    && forall i :: 0 < i < |s| - 1 ==> MidNumeral(s, i)
  }

  ghost predicate MidNumeral(s: string, i: int)
    requires 0 < i < |s| - 1
  {
    '0' <= s[i] <= '9' || (s[i] == '_' && '0' <= s[i - 1] <= '9' && '0' <= s[i + 1] <= '9')
  }

  ghost function Decimal(s: string): int {
    if s == "" then 0
    else
      var before, c := Decimal(s[..|s| - 1]), s[|s| - 1];
      if c == '_' then before else 10 * before + (c as int - '0' as int)
  }

  lemma {:induction false} NatIff(s: string)
    ensures NatOf(s).Some? <==> Numeral(s)
    ensures Numeral(s) ==> NatOf(s).value == Decimal(s)
    decreases |s|
  {
    if s != "" && IsDigit(s[|s| - 1]) {
      var rest := s[..|s| - 1];
      if rest == "" {
        assert Decimal(rest) == 0;
      } else {
        var inner := if rest[|rest| - 1] == '_' then rest[..|rest| - 1] else rest;
        NatIff(inner);
        NumeralStep(s, rest, inner);
      }
    }
  }

  lemma {:induction false} NumeralStep(s: string, rest: string, inner: string)
    requires s != "" && IsDigit(s[|s| - 1]) && rest == s[..|s| - 1] && rest != ""
    requires inner == if rest[|rest| - 1] == '_' then rest[..|rest| - 1] else rest
    ensures Numeral(s) <==> Numeral(inner)
    ensures Decimal(rest) == Decimal(inner)
  {
    assert rest[|rest| - 1] == s[|s| - 2];
    if Numeral(s) {
      NumeralInner(s, inner);
    }
    if Numeral(inner) {
      NumeralOuter(s, inner);
    }
    hide Numeral;
  }

  lemma NumeralInner(s: string, inner: string)
    requires Numeral(s) && |s| >= 2
    requires inner == if s[|s| - 2] == '_' then s[..|s| - 2] else s[..|s| - 1]
    ensures Numeral(inner)
  {
    var k := |s| - 2;
    assert k > 0 ==> MidNumeral(s, k);
    assert forall i :: 0 <= i < |inner| ==> inner[i] == s[i];
    forall i | 0 < i < |inner| - 1 ensures MidNumeral(inner, i) {
      assert MidNumeral(s, i);
    }
  }

  lemma NumeralOuter(s: string, inner: string)
    requires Numeral(inner) && |s| >= 2 && '0' <= s[|s| - 1] <= '9'
    requires inner == if s[|s| - 2] == '_' then s[..|s| - 2] else s[..|s| - 1]
    ensures Numeral(s)
  {
    assert forall i :: 0 <= i < |inner| ==> inner[i] == s[i];
    forall i | 0 < i < |s| - 1 ensures MidNumeral(s, i) {
      if i < |inner| - 1 {
        assert MidNumeral(inner, i);
      }
    }
  }

  /** What is read as a number: digits, with a sign before them or without. */
  lemma {:induction false} NumberIff(raw: string)
    ensures var t := Strip(raw);
            IntOf(raw) == if Numeral(t) then Some(Decimal(t))
                          else if t != "" && t[0] == '-' && Numeral(t[1..]) then Some(-Decimal(t[1..]))
                          else if t != "" && t[0] == '+' && Numeral(t[1..]) then Some(Decimal(t[1..]))
                          else None
  {
    hide Strip;
    var t := Strip(raw);
    NatIff(t);
    if t != "" {
      NatIff(t[1..]);
    }
    hide NatOf, Decimal;
  }

  lemma {:induction false} DigitsRead(n: nat)
    ensures NatOf(Digits(n)) == Some(n)
    ensures Digits(n) != "" && forall i :: 0 <= i < |Digits(n)| ==> IsDigit(Digits(n)[i])
  {
    if n < 10 {
      assert [DigitChar(n)][..0] == "";
    } else {
      DigitsRead(n / 10);
      var s := Digits(n);
      assert s[..|s| - 1] == Digits(n / 10);
      assert IsDigit(Digits(n / 10)[|Digits(n / 10)| - 1]);
      assert 10 * (n / 10) + n % 10 == n;
    }
  }

  lemma IntReads(n: int)
    ensures IntOf(IntText(n)) == Some(n) && Clean(IntText(n))
  {
    var s := IntText(n);
    DigitsRead(if n < 0 then -n else n);
    assert Trimmed(s);
    StripTrimmed(s);
    CleanIff(s);
    assert forall j :: 0 <= j < |s| ==> IsDigit(s[j]) || s[j] == '-';
    if n < 0 {
      assert s[1..] == Digits(-n);
    }
  }

  // ---- loading ----

  function Underscored(key: string): string {
    if key == "" then "" else [if key[0] == '-' then '_' else key[0]] + Underscored(key[1..])
  }

  /** Keys in the order of their first occurrence. */
  function LiveKeys(opts: seq<Pair>): seq<string> {
    if opts == [] then []
    else
      var init, key := LiveKeys(opts[..|opts| - 1]), opts[|opts| - 1].0;
      if key in init then init else init + [key]
  }

  function Assign(s: Options, name: string, raw: string): Maybe<Options> {
    if name in BOOL_FIELDS then
      match ParseBool(raw)
      case Some(b) => Some(s.(bools := s.bools[name := b]))
      case None => None
    else if name in INT_FIELDS then
      match IntOf(raw)
      case Some(n) => Some(s.(ints := s.ints[name := n]))
      case None => None
    else if name in STR_FIELDS then Some(s.(strs := s.strs[name := Strip(raw)]))
    else Some(s)
  }

  function LoadKeys(opts: seq<Pair>, keys: seq<string>): Maybe<Options> {
    if keys == [] then Some(DEFAULTS)
    else
      var before, key := LoadKeys(opts, keys[..|keys| - 1]), keys[|keys| - 1];
      var raw := PairValue(opts, key);
      if before.None? || raw.None? then before else Assign(before.value, Underscored(key), raw.value)
  }

  /** A section of this name stands in the table more than once. */
  predicate Repeated(t: Table, name: string) {
    var j := FindRow(t, name);
    j < |t| && FindRow(t[j + 1..], name) < |t| - j - 1
  }

  /** The settings in a table; `None` where the original refuses the file. */
  function LoadOptions(t: Table): Maybe<Options> {
    if Repeated(t, SETTINGS) then None
    else
      match OptsAt(t, SETTINGS)
      case None => Some(DEFAULTS)
      case Some(opts) =>
        match LoadKeys(opts, LiveKeys(opts))
        case Some(s) =>
          if "service_backend" in s.strs && s.strs["service_backend"] in BACKENDS then Some(s) else None
        case None => None
  }

  // ---- saving ----

  function TextOf(s: Options, field: string): string {
    if field in s.bools then (if s.bools[field] then "true" else "false")
    else if field in s.ints then IntText(s.ints[field])
    else if field in s.strs then s.strs[field]
    else ""
  }

  function OptionEdits(s: Options): (r: seq<Edit>)
    ensures |r| == |FIELDS|
    ensures forall i :: 0 <= i < |FIELDS| ==> r[i] == PutE(FIELDS[i], Single(TextOf(s, FIELDS[i])))
  {
    seq(|FIELDS|, i requires 0 <= i < |FIELDS| => PutE(FIELDS[i], Single(TextOf(s, FIELDS[i]))))
  }

  function SaveOptions(t: Table, s: Options): Table {
    EditsTable(t, SETTINGS, OptionEdits(s))
  }

  ghost predicate CleanOptions(s: Options) {
    Complete(s) && forall f :: f in s.strs ==> Clean(s.strs[f])
  }

  // ---- fields one by one ----

  datatype Setting = Flag(b: bool) | Number(n: int) | Word(text: string)

  predicate IsField(f: string) {
    f in BOOL_FIELDS || f in INT_FIELDS || f in STR_FIELDS
  }

  function FieldOf(s: Options, f: string): Maybe<Setting> {
    if f in s.bools then Some(Flag(s.bools[f]))
    else if f in s.ints then Some(Number(s.ints[f]))
    else if f in s.strs then Some(Word(s.strs[f]))
    else None
  }

  function ParseField(f: string, raw: string): Maybe<Setting> {
    if f in BOOL_FIELDS then
      match ParseBool(raw)
      case Some(b) => Some(Flag(b))
      case None => None
    else if f in INT_FIELDS then
      match IntOf(raw)
      case Some(n) => Some(Number(n))
      case None => None
    else Some(Word(Strip(raw)))
  }

  /** The last key that means a field. */
  function Spelling(keys: seq<string>, f: string): Maybe<string> {
    if keys == [] then None
    else if Underscored(keys[|keys| - 1]) == f then Some(keys[|keys| - 1])
    else Spelling(keys[..|keys| - 1], f)
  }

  function RawOf(opts: seq<Pair>, key: string): string {
    var v := PairValue(opts, key);
    if v.Some? then v.value else ""
  }

  /** Every key that means a field has a value of its kind. */
  ghost predicate AllParse(opts: seq<Pair>, keys: seq<string>) {
    forall k :: k in keys && IsField(Underscored(k)) ==> ParseField(Underscored(k), RawOf(opts, k)).Some?
  }

  /** A key that means a field without being written as it. */
  ghost predicate Dashed(key: string) {
    !IsField(key) && IsField(Underscored(key))
  }

  /** Keys with dashes do not contradict: each has a value of its field's kind, and where one
      of them is the last to spell a field that is also there under its own name, it says
      what is saved. */
  ghost predicate DashesAgree(opts: seq<Pair>, s: Options) {
    var keys := LiveKeys(opts);
    && (forall k :: k in keys && Dashed(k) ==> ParseField(Underscored(k), RawOf(opts, k)).Some?)
    && (forall f :: IsField(f) && f in keys ==>
          Spelling(keys, f) == Some(f) || Said(opts, keys, f) == FieldOf(s, f))
  }

  function Said(opts: seq<Pair>, keys: seq<string>, f: string): Maybe<Setting> {
    match Spelling(keys, f)
    case None => FieldOf(DEFAULTS, f)
    case Some(k) => ParseField(f, RawOf(opts, k))
  }

  // ---- laws ----

  lemma FieldSets(f: string)
    ensures f in FIELDS <==> IsField(f)
    ensures !(f in BOOL_FIELDS && f in INT_FIELDS) && !(f in BOOL_FIELDS && f in STR_FIELDS)
    ensures !(f in INT_FIELDS && f in STR_FIELDS)
  {
  }

  lemma FieldsDistinct()
    ensures forall i, j :: 0 <= i < j < |FIELDS| ==> FIELDS[i] != FIELDS[j]
  {
    var f := FIELDS;
    assert |f[0]| == 9 && |f[1]| == 18 && |f[2]| == 7 && |f[3]| == 15 && |f[4]| == 7;
    assert |f[5]| == 15 && |f[6]| == 26 && |f[7]| == 13 && |f[8]| == 14 && |f[9]| == 14;
    assert f[2][0] == 's' && f[4][0] == 'd' && f[3][0] == 's' && f[5][0] == 'e' && f[8][0] == 'd' && f[9][0] == 'p';
  }

  lemma {:induction false} LiveKeysAre(opts: seq<Pair>)
    ensures forall k :: k in LiveKeys(opts) <==> PairValue(opts, k).Some?
    decreases |opts|
  {
    if opts != [] {
      var init, last := opts[..|opts| - 1], opts[|opts| - 1];
      LiveKeysAre(init);
      assert opts == init + [last];
      forall k ensures k in LiveKeys(opts) <==> PairValue(opts, k).Some? {
        CfgLawsValue(init, last, k);
      }
    }
  }

  lemma CfgLawsValue(init: seq<Pair>, last: Pair, k: string)
    ensures PairValue(init + [last], k).Some? <==> PairValue(init, k).Some? || last.0 == k
  {
    var all := init + [last];
    assert forall i :: 0 <= i < |init| ==> all[i] == init[i];
    assert all[|init|] == last;
  }

  lemma FieldsPlain()
    ensures forall i :: 0 <= i < |FIELDS| ==> FIELDS[i] != "" && Plain(FIELDS[i])
  {
    hide Plain;
    FieldsPlainTo();
    FieldsPlainFrom();
  }

  lemma FieldsPlainTo()
    ensures forall i :: 0 <= i < 5 ==> FIELDS[i] != "" && Plain(FIELDS[i])
  {
  }

  lemma FieldsPlainFrom()
    ensures |FIELDS| == 10 && forall i :: 5 <= i < 10 ==> FIELDS[i] != "" && Plain(FIELDS[i])
  {
  }

  lemma {:induction false} FieldUnderscored(f: string)
    requires f in FIELDS
    ensures Underscored(f) == f
  {
    FieldsPlain();
    hide FIELDS;
    assert Plain(f);
    UnderscoredId(f);
  }

  lemma {:induction false} UnderscoredId(s: string)
    requires '-' !in s
    ensures Underscored(s) == s
  {
    if s != "" {
      UnderscoredId(s[1..]);
    }
  }

  lemma SameFields(a: Options, b: Options)
    requires Complete(a) && Complete(b) && forall f :: IsField(f) ==> FieldOf(a, f) == FieldOf(b, f)
    ensures a == b
  {
    hide BOOL_FIELDS, INT_FIELDS, STR_FIELDS;
    SetsApart();
    forall f | f in BOOL_FIELDS ensures a.bools[f] == b.bools[f] {
      assert IsField(f) && FieldOf(a, f) == FieldOf(b, f);
    }
    forall f | f in INT_FIELDS ensures a.ints[f] == b.ints[f] {
      assert IsField(f) && FieldOf(a, f) == FieldOf(b, f);
    }
    forall f | f in STR_FIELDS ensures a.strs[f] == b.strs[f] {
      assert IsField(f) && FieldOf(a, f) == FieldOf(b, f);
    }
    assert a.bools == b.bools && a.ints == b.ints && a.strs == b.strs;
  }

  lemma SetsApart()
    ensures BOOL_FIELDS !! INT_FIELDS && BOOL_FIELDS !! STR_FIELDS && INT_FIELDS !! STR_FIELDS
  {
  }

  lemma AssignField(s: Options, name: string, raw: string, f: string)
    requires Complete(s)
    ensures Assign(s, name, raw).Some? <==> (IsField(name) ==> ParseField(name, raw).Some?)
    ensures Assign(s, name, raw).Some? ==>
      && Complete(Assign(s, name, raw).value)
      && FieldOf(Assign(s, name, raw).value, f)
         == if IsField(name) && f == name then ParseField(name, raw) else FieldOf(s, f)
  {
    hide BOOL_FIELDS, INT_FIELDS, STR_FIELDS, ParseBool, IntOf, Strip;
    SetsApart();
  }

  lemma FieldReads(s: Options, f: string)
    requires CleanOptions(s) && IsField(f)
    ensures ParseField(f, TextOf(s, f)) == FieldOf(s, f) && FieldOf(s, f).Some? && Clean(TextOf(s, f))
  {
    SetsApart();
    hide ParseBool, IntOf, Strip, IntText, StripInline, BOOL_FIELDS, INT_FIELDS, STR_FIELDS;
    FalseReads();
    TrueReads();
    if f in INT_FIELDS {
      IntReads(s.ints[f]);
    }
    if f in STR_FIELDS {
      StripTrimmed(s.strs[f]);
    }
  }

  /** What the file says of a setting after a save, in the words of the file. */
  lemma {:induction false} SettingSays(t: Table, s: Options, f: string)
    requires CleanOptions(s)
    ensures f in {"clean_before_build", "dry_run", "enable_flashing", "allow_flash_while_printing"} ==>
      f in s.bools && ValueAt(SaveOptions(t, s), "updater", f) == Some(if s.bools[f] then "true" else "false")
    ensures f in {"make_jobs", "log_ring_size"} ==>
      f in s.ints && ValueAt(SaveOptions(t, s), "updater", f) == Some(IntText(s.ints[f]))
    ensures f in {"service", "service_backend", "display_source", "platformio_bin"} ==>
      f in s.strs && ValueAt(SaveOptions(t, s), "updater", f) == Some(s.strs[f])
  {
    FieldSets(f);
    SetsApart();
    if IsField(f) {
      var i :| 0 <= i < |FIELDS| && FIELDS[i] == f;
      FieldsDistinct();
      hide FIELDS, IntText, ApplyEdits;
      assert DistinctKeys(OptionEdits(s));
      EditsSet(OptsOr(t, SETTINGS), OptionEdits(s), i);
      SaveOptionsAt(t, s, f);
    }
  }

  lemma {:induction false} AllPut(edits: seq<Edit>)
    requires forall i :: 0 <= i < |edits| ==> edits[i].PutE?
    ensures |PutsOf(edits)| == |edits| && forall i :: 0 <= i < |edits| ==> PutsOf(edits)[i].0 == edits[i].key
    decreases |edits|
  {
    if edits != [] {
      AllPut(edits[..|edits| - 1]);
    }
  }

  /** The settings in a file that had none, in the order of their fields. */
  lemma {:induction false} NewSettingsInOrder(s: Options)
    ensures var opts := ApplyEdits([], OptionEdits(s));
      && |opts| == 10 && opts[0].0 == "make_jobs" && opts[1].0 == "clean_before_build" && opts[2].0 == "service"
      && opts[3].0 == "service_backend" && opts[4].0 == "dry_run" && opts[5].0 == "enable_flashing"
      && opts[6].0 == "allow_flash_while_printing" && opts[7].0 == "log_ring_size" && opts[8].0 == "display_source"
      && opts[9].0 == "platformio_bin"
  {
    FieldsDistinct();
    assert DistinctKeys(OptionEdits(s));
    NewSectionInOrder(OptionEdits(s));
    AllPut(OptionEdits(s));
    hide ApplyEdits, PutsOf, TextOf, DistinctKeys;
  }

  lemma {:induction false} SaveOptionsAt(t: Table, s: Options, f: string)
    ensures ValueAt(SaveOptions(t, s), "updater", f) == PairValue(ApplyEdits(OptsOr(t, SETTINGS), OptionEdits(s)), f)
  {
    var edits, j := OptionEdits(s), FindRow(t, SETTINGS);
    EditsTableRow(t, SETTINGS, edits);
    hide ApplyEdits, PairValue, FIELDS;
    var row := Row(SETTINGS, ApplyEdits(OptsOr(t, SETTINGS), edits));
    if j < |t| {
      FindRowUpdate(t, j, row, SETTINGS);
    } else {
      FindRowConcat(t, [row], SETTINGS);
    }
  }

  /** How a number is written: it has the digits that say it. */
  lemma {:induction false} NumberWritten(n: int)
    ensures if n < 0 then
              && IntText(n) != "" && IntText(n)[0] == '-'
              && Numeral(IntText(n)[1..]) && Decimal(IntText(n)[1..]) == -n
            else Numeral(IntText(n)) && Decimal(IntText(n)) == n
    ensures '_' !in IntText(n)
  {
    var m: nat := if n < 0 then -n else n;
    DigitsRead(m);
    NatIff(Digits(m));
    assert IntText(n) == if n < 0 then "-" + Digits(m) else Digits(m);
  }

  /** A file that says nothing of the settings. */
  lemma NothingIsSaid(t: Table)
    requires forall i :: 0 <= i < |t| ==> t[i].name != "updater"
    ensures LoadOptions(t).Some?
    ensures var s := LoadOptions(t).value;
      && s.bools == map["clean_before_build" := true, "dry_run" := false, "enable_flashing" := false,
                        "allow_flash_while_printing" := false]
      && s.ints == map["make_jobs" := 0, "log_ring_size" := 2000]
      && s.strs == map["service" := "klipper", "service_backend" := "moonraker", "display_source" := "",
                       "platformio_bin" := ""]
  {
    assert FindRow(t, SETTINGS) == |t|;
  }

  lemma TrueReads()
    ensures ParseBool("true") == Some(true) && Clean("true")
  {
    StripTrimmed("true");
    assert "true"[1..] == "rue" && "rue"[1..] == "ue" && "ue"[1..] == "e" && "e"[1..] == "";
    assert Lower("e") == "e" && Lower("ue") == "ue" && Lower("rue") == "rue";
    assert Lower("true") == "true";
    CleanIff("true");
    forall j | 0 <= j < 4 ensures !CommentAt("true", j) {
    }
  }

  lemma DefaultsComplete()
    ensures Complete(DEFAULTS)
  {
  }

  /** Reading key by key: it fails exactly if a value does not parse, and a field has what the
      last key that means it says. */
  lemma {:induction false} LoadKeysField(opts: seq<Pair>, keys: seq<string>, f: string)
    requires IsField(f) && forall k :: k in keys ==> PairValue(opts, k).Some?
    ensures LoadKeys(opts, keys).Some? <==> AllParse(opts, keys)
    ensures LoadKeys(opts, keys).Some? ==>
      Complete(LoadKeys(opts, keys).value) && FieldOf(LoadKeys(opts, keys).value, f) == Said(opts, keys, f)
    decreases |keys|
  {
    hide PairValue, Assign, ParseField, Underscored, Complete, FieldOf, DEFAULTS, IsField;
    if keys == [] {
      DefaultsComplete();
    } else {
      var init, key := keys[..|keys| - 1], keys[|keys| - 1];
      assert keys == init + [key];
      LoadKeysField(opts, init, f);
      if LoadKeys(opts, init).Some? {
        AssignField(LoadKeys(opts, init).value, Underscored(key), PairValue(opts, key).value, f);
      }
    }
  }

  // ---- the keys after saving ----

  lemma {:induction false} SameKeys(a: seq<Pair>, b: seq<Pair>)
    requires |a| == |b| && forall i :: 0 <= i < |a| ==> a[i].0 == b[i].0
    ensures LiveKeys(a) == LiveKeys(b)
    decreases |a|
  {
    if a != [] {
      SameKeys(a[..|a| - 1], b[..|b| - 1]);
    }
  }

  lemma {:induction false} PutKeyLive(opts: seq<Pair>, key: string, value: string)
    ensures LiveKeys(PutKey(opts, key, value))
            == if key in LiveKeys(opts) then LiveKeys(opts) else LiveKeys(opts) + [key]
  {
    LiveKeysAre(opts);
    if FindKey(opts, key) < |opts| {
      SameKeys(PutKey(opts, key, value), opts);
    } else {
      assert (opts + [(key, value)])[..|opts|] == opts;
    }
  }

  /** Saving adds the fields that were missing behind the keys that were there. */
  lemma {:induction false} SavedKeys(opts: seq<Pair>, s: Options, n: nat, key: string, f: string)
    requires n <= |FIELDS| && IsField(f)
    ensures var before, after := LiveKeys(opts), LiveKeys(ApplyEdits(opts, OptionEdits(s)[..n]));
            && (key in after <==> key in before || key in FIELDS[..n])
            && (Spelling(after, f) == if f in FIELDS[..n] && f !in before then Some(f) else Spelling(before, f))
    decreases n
  {
    hide TextOf, LiveKeys, IsField, Underscored, ReadBack, FIELDS, PutKey, Spelling;
    var edits := OptionEdits(s);
    if n > 0 {
      assert edits[..n][..n - 1] == edits[..n - 1];
      var g, o := FIELDS[n - 1], ApplyEdits(opts, edits[..n - 1]);
      SavedKeys(opts, s, n - 1, key, f);
      SavedKeys(opts, s, n - 1, g, f);
      PutKeyLive(o, g, ReadBack(Single(TextOf(s, g))));
      FieldUnderscored(g) by {
        assert g in FIELDS;
      }
      FieldOnce(n - 1);
      assert FIELDS[..n] == FIELDS[..n - 1] + [g];
      hide ApplyEdits;
      KeyAdded(LiveKeys(opts), LiveKeys(o), FIELDS[..n - 1], g, key, f);
    } else {
      assert edits[..0] == [];
    }
  }

  lemma KeyAdded(before: seq<string>, mid: seq<string>, fields: seq<string>, g: string, key: string, f: string)
    requires g !in fields && Underscored(g) == g && (g in mid <==> g in before || g in fields)
    requires key in mid <==> key in before || key in fields
    requires Spelling(mid, f) == if f in fields && f !in before then Some(f) else Spelling(before, f)
    ensures var after := if g in mid then mid else mid + [g];
            && (key in after <==> key in before || key in fields + [g])
            && (Spelling(after, f) == if f in fields + [g] && f !in before then Some(f) else Spelling(before, f))
  {
    SpellingSnoc(mid, g, f);
    hide Spelling, Underscored;
  }

  lemma FieldOnce(n: nat)
    requires n < |FIELDS|
    ensures FIELDS[n] !in FIELDS[..n]
  {
    FieldsDistinct();
    hide FIELDS;
  }

  lemma {:induction false} SpellingSnoc(keys: seq<string>, key: string, f: string)
    ensures Spelling(keys + [key], f) == if Underscored(key) == f then Some(key) else Spelling(keys, f)
  {
    assert (keys + [key])[..|keys|] == keys;
  }

  /** The section after saving: its keys, and what they say. */
  lemma {:induction false} SavedSays(opts: seq<Pair>, s: Options, f: string, k: string)
    requires CleanOptions(s) && IsField(f)
    ensures var opts', keys := ApplyEdits(opts, OptionEdits(s)), LiveKeys(opts);
            && Said(opts', LiveKeys(opts'), f)
               == (if f !in keys || Spelling(keys, f) == Some(f) then FieldOf(s, f) else Said(opts, keys, f))
            && (k in LiveKeys(opts') <==> k in keys || IsField(k))
            && RawOf(opts', k) == if IsField(k) then TextOf(s, k) else RawOf(opts, k)
  {
    var edits := OptionEdits(s);
    var opts', keys := ApplyEdits(opts, edits), LiveKeys(opts);
    assert edits[..|FIELDS|] == edits && FIELDS[..|FIELDS|] == FIELDS;
    SavedKeys(opts, s, |FIELDS|, k, f);
    FieldReads(s, f);
    FieldSets(k);
    FieldSets(f);
    SavedRaw(opts, s, k);
    SavedRaw(opts, s, f);
    if f in keys {
      SpellingThere(keys, f);
      SavedRaw(opts, s, Spelling(keys, f).value);
    }
  }

  lemma {:induction false} SpellingThere(keys: seq<string>, f: string)
    requires IsField(f) && f in keys
    ensures Spelling(keys, f).Some? && Spelling(keys, f).value in keys
    ensures Spelling(keys, f) == Some(f) || !IsField(Spelling(keys, f).value)
    decreases |keys|
  {
    hide Underscored, IsField;
    var init, key := keys[..|keys| - 1], keys[|keys| - 1];
    assert keys == init + [key];
    FieldSets(f);
    FieldUnderscored(f);
    FieldSets(key);
    if key in FIELDS {
      FieldUnderscored(key);
    }
    if Underscored(key) != f {
      SpellingThere(init, f);
    }
  }

  lemma {:induction false} SavedRaw(opts: seq<Pair>, s: Options, k: string)
    ensures RawOf(ApplyEdits(opts, OptionEdits(s)), k) == if k in FIELDS then TextOf(s, k) else RawOf(opts, k)
  {
    hide PairValue, TextOf, ApplyEdits;
    var edits := OptionEdits(s);
    FieldsDistinct();
    hide FIELDS;
    if k in FIELDS {
      var i :| 0 <= i < |FIELDS| && FIELDS[i] == k;
      assert DistinctKeys(edits);
      EditsSet(opts, edits, i);
    } else {
      EditsKeep(opts, edits, k);
    }
  }

  // ---- the round trip ----

  /** Settings that were saved are the settings that are loaded, exactly if the section is
      not repeated, the name of the backend is one of the three, and no key spelled with
      dashes says otherwise. */
  lemma OptionsRoundTrip(t: Table, s: Options)
    requires CleanOptions(s)
    ensures LoadOptions(SaveOptions(t, s)) == Some(s)
            <==> && !Repeated(t, "updater") && s.strs["service_backend"] in {"moonraker", "systemd", "null"}
                 && DashesAgree(OptsOr(t, "updater"), s)
  {
    hide EditsTable, LoadKeys, FindRow, Clean, ApplyEdits, LiveKeys, FIELDS, OptionEdits;
    var opts, opts' := OptsOr(t, SETTINGS), ApplyEdits(OptsOr(t, SETTINGS), OptionEdits(s));
    SavedSection(t, s);
    SavedLoads(opts, s);
  }

  lemma SavedSection(t: Table, s: Options)
    ensures OptsAt(SaveOptions(t, s), SETTINGS) == Some(ApplyEdits(OptsOr(t, SETTINGS), OptionEdits(s)))
    ensures Repeated(SaveOptions(t, s), SETTINGS) <==> Repeated(t, SETTINGS)
  {
    hide ApplyEdits, FIELDS, TextOf;
    var edits, j := OptionEdits(s), FindRow(t, SETTINGS);
    SomeFields();
    EditsTableRow(t, SETTINGS, edits);
    if j < |t| {
      var row := Row(SETTINGS, ApplyEdits(OptsOr(t, SETTINGS), edits));
      FindRowUpdate(t, j, row, SETTINGS);
      assert t[j := row][j + 1..] == t[j + 1..];
    } else {
      FindRowConcat(t, [Row(SETTINGS, ApplyEdits([], edits))], SETTINGS);
    }
  }

  lemma SomeFields()
    ensures FIELDS != []
  {
  }

  lemma {:induction false} SavedLoads(opts: seq<Pair>, s: Options)
    requires CleanOptions(s)
    ensures var opts' := ApplyEdits(opts, OptionEdits(s));
            LoadKeys(opts', LiveKeys(opts')) == Some(s) <==> DashesAgree(opts, s)
  {
    hide LoadKeys, ApplyEdits, LiveKeys, OptionEdits, Spelling, Said, ParseField, FieldOf, PairValue, RawOf,
         Underscored, CleanOptions, Complete, IsField, TextOf;
    var opts' := ApplyEdits(opts, OptionEdits(s));
    var keys, keys' := LiveKeys(opts), LiveKeys(opts');
    LiveKeysAre(opts');
    CleanComplete(s);
    SavedParse(opts, s);
    var loaded := LoadKeys(opts', keys');
    forall f | IsField(f)
      ensures loaded.Some? <==> AllParse(opts', keys')
      ensures loaded.Some? ==>
        && Complete(loaded.value)
        && FieldOf(loaded.value, f)
           == (if f !in keys || Spelling(keys, f) == Some(f) then FieldOf(s, f) else Said(opts, keys, f))
    {
      LoadKeysField(opts', keys', f);
      SavedSays(opts, s, f, f);
    }
    SomeField();
    if loaded.Some? && DashesAgree(opts, s) {
      SameFields(loaded.value, s);
    }
  }

  lemma SomeField()
    ensures IsField("dry_run")
  {
  }

  lemma CleanComplete(s: Options)
    requires CleanOptions(s)
    ensures Complete(s)
  {
  }

  lemma {:induction false} SavedParse(opts: seq<Pair>, s: Options)
    requires CleanOptions(s)
    ensures var opts' := ApplyEdits(opts, OptionEdits(s));
            AllParse(opts', LiveKeys(opts'))
            <==> forall k :: k in LiveKeys(opts) && Dashed(k) ==> ParseField(Underscored(k), RawOf(opts, k)).Some?
  {
    hide ApplyEdits, LiveKeys, OptionEdits, ParseField, RawOf, Underscored, CleanOptions, IsField, TextOf, FieldOf;
    SomeField();
    var opts' := ApplyEdits(opts, OptionEdits(s));
    forall k
      ensures (k in LiveKeys(opts') && IsField(Underscored(k)) ==> ParseField(Underscored(k), RawOf(opts', k)).Some?)
              <==> (k in LiveKeys(opts) && Dashed(k) ==> ParseField(Underscored(k), RawOf(opts, k)).Some?)
    {
      SavedSays(opts, s, "dry_run", k);
      if IsField(k) {
        FieldSets(k);
        FieldUnderscored(k);
        FieldReads(s, k);
      }
    }
  }

  /** A file in which saving does not stick: the field under its own name, and after it the
      same field with a dash. The first is written, the second is believed. */
  lemma DashesOverrule(s: Options, raw: string)
    requires CleanOptions(s) && !s.bools["dry_run"]
    ensures var t := [Row(SETTINGS, [("dry_run", raw), ("dry-run", "true")])];
            LoadOptions(SaveOptions(t, s)) != Some(s)
  {
    hide LoadOptions, SaveOptions, Clean, DashesAgree;
    var t := [Row(SETTINGS, [("dry_run", raw), ("dry-run", "true")])];
    OptionsRoundTrip(t, s);
    assert OptsOr(t, SETTINGS) == t[0].opts;
    DashDisagrees(s, raw);
  }

  lemma DashDisagrees(s: Options, raw: string)
    requires Complete(s) && !s.bools["dry_run"]
    ensures !DashesAgree([("dry_run", raw), ("dry-run", "true")], s)
  {
    hide ParseBool, Underscored, LiveKeys;
    var opts := [("dry_run", raw), ("dry-run", "true")];
    DashSpells();
    TwoKeys(opts[0], opts[1]);
    TrueReads();
    assert ["dry_run", "dry-run"][0] == "dry_run";
    assert IsField("dry_run") && FieldOf(s, "dry_run") == Some(Flag(false));
    assert RawOf(opts, "dry-run") == "true";
  }

  lemma TwoKeys(a: Pair, b: Pair)
    requires a.0 != b.0
    ensures LiveKeys([a, b]) == [a.0, b.0]
  {
    assert [a, b][..1] == [a] && [a][..0] == [];
    assert LiveKeys([a]) == [a.0];
  }

  lemma DashSpells()
    ensures Underscored("dry-run") == "dry_run" && "dry-run" != "dry_run"
  {
    assert "dry-run"[3] != "dry_run"[3];
    assert "dry-run" == "dry" + ("-" + "run") && "dry_run" == "dry" + ("_" + "run");
    UnderscoredConcat("dry", "-" + "run");
    UnderscoredId("dry");
    UnderscoredId("run");
    assert ("-" + "run")[1..] == "run";
  }

  lemma {:induction false} UnderscoredConcat(a: string, b: string)
    ensures Underscored(a + b) == Underscored(a) + Underscored(b)
  {
    if a == "" {
      assert a + b == b;
    } else {
      assert (a + b)[1..] == a[1..] + b;
      UnderscoredConcat(a[1..], b);
    }
  }

  lemma SettingsApart()
    ensures !Under(PREFIX, SETTINGS)
  {
    assert (PREFIX + " ")[0] != SETTINGS[0];
  }

  /** Saving the settings leaves the registry view alone. */
  lemma {:induction false} OptionsKeepRegistry(t: Table, s: Options)
    ensures LoadRows(SaveOptions(t, s)) == LoadRows(t)
  {
    hide LoadRows, EditsTable, OptionEdits;
    SettingsApart();
    OtherSectionKept(t, SETTINGS, OptionEdits(s));
  }

  lemma NotRepeated(t: Table, name: string)
    requires DistinctRows(t)
    ensures !Repeated(t, name)
  {
    var j := FindRow(t, name);
    if j < |t| {
      var rest := t[j + 1..];
      assert forall i :: 0 <= i < |rest| ==> rest[i] == t[j + 1 + i];
    }
  }

  /** Saving the registry leaves the settings view alone. */
  lemma RegistryKeepsOptions(t: Table, types: seq<McuType>)
    requires DistinctRows(t) && DistinctTypes(types)
    ensures LoadOptions(SaveTable(t, types)) == LoadOptions(t)
  {
    hide SaveTable, LoadKeys, OptsAt, Repeated, DistinctRows;
    SettingsApart();
    SaveKeepsOthers(t, types, SETTINGS, "");
    SavedOpts(t, types, SETTINGS);
    NotRepeated(t, SETTINGS);
    NotRepeated(SaveTable(t, types), SETTINGS);
  }

  // ---- on the document ----

  lemma FieldKeys()
    ensures forall i :: 0 <= i < |FIELDS| ==> ValidKey(FIELDS[i])
  {
    FieldsPlain();
    hide FIELDS;
    forall i | 0 <= i < |FIELDS| ensures ValidKey(FIELDS[i]) {
      PlainKey(FIELDS[i]);
    }
  }

  /** Field by field into the document, and the text for the file. */
  method SaveSettings(doc: CfgDocument, s: Options) returns (text: string)
    requires doc.Valid()
    modifies doc
    ensures doc.Valid() && doc.lines == EditsLines(old(doc.lines), SETTINGS, OptionEdits(s))
    ensures text == RenderText(doc.lines)
  {
    hide CfgIndex.Parse, Live, Dups, SetLines, TextOf, ValidKey;
    ghost var lines0, edits := doc.lines, OptionEdits(s);
    FieldKeys();
    for i := 0 to |FIELDS|
      invariant doc.Valid() && doc.lines == EditsLines(lines0, SETTINGS, edits[..i])
    {
      assert edits[..i + 1][..i] == edits[..i];
      var _ := doc.Set(SETTINGS, FIELDS[i], Single(TextOf(s, FIELDS[i])));
    }
    assert edits[..|edits|] == edits;
    text := doc.RenderDocument();
  }

  lemma SettingsName()
    ensures ValidName(SETTINGS)
  {
  }

  /** Saving the settings into the document is saving them into its table. */
  lemma {:induction false} SaveSettingsRefines(lines: seq<string>, s: Options)
    requires OneLines(lines) && CleanOptions(s)
    ensures OneLines(EditsLines(lines, SETTINGS, OptionEdits(s)))
    ensures TableOf(EditsLines(lines, SETTINGS, OptionEdits(s))) == SaveOptions(TableOf(lines), s)
  {
    hide TableOf, EditsLines, EditsTable, TextOf, ValidKey, Clean, CleanOptions;
    FieldKeys();
    SettingsName();
    forall i | 0 <= i < |FIELDS| ensures Clean(TextOf(s, FIELDS[i])) {
      FieldReads(s, FIELDS[i]);
    }
    EditsRefine(lines, SETTINGS, OptionEdits(s));
  }

  // ---- from text to text ----

  /** The settings in a file, which must not repeat their section. */
  function LoadLinesOptions(lines: seq<string>): Maybe<Options> {
    if SETTINGS in Dups(CfgIndex.Parse(lines)) then None else LoadOptions(TableOf(lines))
  }

  lemma {:induction false} DupsRepeated(secs: seq<Sec>, name: string)
    ensures name in Dups(secs) <==> Repeated(View(secs), name)
    decreases |secs|
  {
    hide Repeated, Dups, View, Live;
    if secs == [] {
      NoDups(name);
    } else {
      var init, last := secs[..|secs| - 1], Last(secs);
      SnocParts(secs);
      DupsRepeated(init, name);
      LiveSnoc(init, last);
      LiveFind(init, last.name);
      FindsAgree(init, last.name);
      ViewConcat(init, [last]);
      ViewOne(last);
      RepeatedSnoc(View(init), Row(last.name, Pairs(last.opts)), name);
    }
  }

  lemma NoDups(name: string)
    ensures name !in Dups([]) && !Repeated(View([]), name)
  {
  }

  lemma ViewOne(s: Sec)
    ensures View([s]) == [Row(s.name, Pairs(s.opts))]
  {
  }

  lemma {:induction false} RepeatedSnoc(t: Table, row: Row, name: string)
    ensures Repeated(t + [row], name) <==> Repeated(t, name) || (row.name == name && FindRow(t, name) < |t|)
  {
    hide FindRow;
    var j := FindRow(t, name);
    FindRowSnoc(t, row, name);
    if j < |t| {
      DropSnoc(t, row, j + 1);
      FindRowSnoc(t[j + 1..], row, name);
    }
  }

  lemma {:induction false} FindRowSnoc(t: Table, row: Row, name: string)
    ensures FindRow(t + [row], name)
            == if FindRow(t, name) < |t| then FindRow(t, name) else if row.name == name then |t| else |t| + 1
  {
    FindRowConcat(t, [row], name);
  }

  lemma DropSnoc<T>(s: seq<T>, x: T, n: nat)
    requires n <= |s|
    ensures (s + [x])[n..] == s[n..] + [x]
  {
  }

  lemma LinesOptions(lines: seq<string>)
    ensures LoadLinesOptions(lines) == LoadOptions(TableOf(lines))
  {
    hide CfgIndex.Parse, LoadKeys, OptsAt;
    DupsRepeated(CfgIndex.Parse(lines), SETTINGS);
  }

  function KeysOf(opts: seq<Opt>): (r: seq<string>)
    ensures |r| == |opts| && forall i :: 0 <= i < |r| ==> r[i] == opts[i].key
  {
    seq(|opts|, i requires 0 <= i < |opts| => opts[i].key)
  }

  /** The dictionary of a section lists its keys in the order of their first occurrence. */
  lemma {:induction false} KeysOfLive(opts: seq<Opt>)
    ensures KeysOf(LiveOpts(opts)) == LiveKeys(Pairs(opts))
    decreases |opts|
  {
    if opts != [] {
      var init, last := opts[..|opts| - 1], Last(opts);
      KeysOfLive(init);
      assert Pairs(opts)[..|opts| - 1] == Pairs(init);
      KeyThere(LiveOpts(init), last.key);
    }
  }

  lemma {:induction false} KeyThere(opts: seq<Opt>, key: string)
    ensures key in KeysOf(opts) <==> FindOpt(opts, key) < |opts|
  {
    var keys, k := KeysOf(opts), FindOpt(opts, key);
    if k < |opts| {
      assert keys[k] == key;
    }
  }

  /** Reading a section key by key, in the order of its dictionary. */
  method ReadKeys(doc: CfgDocument, keys: seq<string>) returns (s: Maybe<Options>)
    requires doc.Valid()
    ensures s == LoadKeys(OptsOr(TableOf(doc.lines), SETTINGS), keys)
  {
    hide CfgIndex.Parse, Live, Dups, Assign, OptsOr, SETTINGS, PairValue, ValueAt;
    ghost var t := TableOf(doc.lines);
    ghost var opts := OptsOr(t, SETTINGS);
    s := Some(DEFAULTS);
    for i := 0 to |keys|
      invariant s.Some? && LoadKeys(opts, keys[..i]) == s
    {
      assert keys[..i + 1][..i] == keys[..i];
      var raw := doc.Get(SETTINGS, keys[i]);
      ValueOfOpts(t, SETTINGS, keys[i]);
      if raw.Some? {
        s := Assign(s.value, Underscored(keys[i]), raw.value);
        if s.None? {
          LoadFailed(opts, keys, i + 1);
          return None;
        }
      }
    }
    assert keys[..|keys|] == keys;
  }

  /** Reading the settings of a file. */
  method LoadSettings(text: string) returns (s: Maybe<Options>)
    ensures s == LoadLinesOptions(SplitLines(text))
  {
    hide CfgIndex.Parse, Live, Dups, LoadKeys, SETTINGS, FindSec, Repeated, LiveOpts;
    var doc := new CfgDocument(text);
    ghost var secs := CfgIndex.Parse(doc.lines);
    if SETTINGS in doc.duplicates {
      return None;
    }
    LinesOptions(doc.lines);
    DupsRepeated(secs, SETTINGS);
    FindsAgree(secs, SETTINGS);
    LiveFind(secs, SETTINGS);
    var j := FindSec(doc.sections, SETTINGS);
    if j == |doc.sections| {
      return Some(DEFAULTS);
    }
    KeysOfLive(secs[FindSec(secs, SETTINGS)].opts);
    var keys := KeysOf(doc.sections[j].opts);
    s := ReadKeys(doc, keys);
    if s.Some? && !("service_backend" in s.value.strs && s.value.strs["service_backend"] in BACKENDS) {
      return None;
    }
  }

  lemma {:induction false} LoadFailed(opts: seq<Pair>, keys: seq<string>, n: nat)
    requires n <= |keys| && LoadKeys(opts, keys[..n]).None?
    ensures LoadKeys(opts, keys).None?
    decreases |keys|
  {
    hide Assign, PairValue, Underscored;
    if n < |keys| {
      assert keys[..|keys| - 1][..n] == keys[..n];
      LoadFailed(opts, keys[..|keys| - 1], n);
    } else {
      assert keys[..n] == keys;
    }
  }

  /** The same promise from text to text. */
  lemma {:induction false} SettingsRoundTrip(lines: seq<string>, s: Options)
    requires OneLines(lines) && CleanOptions(s)
    ensures var text, t := RenderText(EditsLines(lines, SETTINGS, OptionEdits(s))), TableOf(lines);
            LoadLinesOptions(SplitLines(text)) == Some(s)
            <==> && !Repeated(t, "updater") && s.strs["service_backend"] in {"moonraker", "systemd", "null"}
                 && DashesAgree(OptsOr(t, "updater"), s)
  {
    hide LoadLinesOptions, LoadOptions, SaveOptions, CfgIndex.Parse, EditsLines, RenderText, SplitLines, DashesAgree,
         Repeated, OptionEdits;
    var lines' := EditsLines(lines, SETTINGS, OptionEdits(s));
    SaveSettingsRefines(lines, s);
    RenderKeepsTable(lines');
    OptionsRoundTrip(TableOf(lines), s);
    LinesOptions(SplitLines(RenderText(lines')));
  }
}
