/** The line recognisers of the configuration format: section headers, options, comments, continuation
    lines and inline comments. A line is classified by itself; only whether a continuation line
    belongs to an option depends on what came before it. Clean values are those that survive being
    printed and read. */
module CfgLine {
  import opened Text

  const INDENT := "    "

  predicate IsCommentChar(c: char) {
    c == '#' || c == ';'
  }

  /** `^\s*[#;]` */
  predicate IsComment(line: string) {
    var t := LStrip(line);
    t != "" && IsCommentChar(t[0])
  }

  /** Indented and not blank: part of the option above. */
  predicate IsContinuation(line: string) {
    line != "" && (line[0] == ' ' || line[0] == '\t') && !IsBlank(line)
  }

  /** A section header: the name is what stands before the first `]`, and only a
      comment may follow. */
  function HeaderName(line: string): Maybe<string> {
    if line != "" && line[0] == '[' then
      var j := IndexOf(line, ']', 1);
      if 2 <= j < |line| && (IsBlank(line[j + 1..]) || IsComment(line[j + 1..]))
      then Some(Strip(line[1..j]))
      else None
    else None
  }

  predicate IsSeparator(c: char) {
    c == ':' || c == '='
  }

  /** Index of the first `:` or `=`, or |s|. */
  function FirstSeparator(s: string): (r: nat)
    ensures r <= |s|
    ensures r < |s| ==> IsSeparator(s[r])
    ensures forall j :: 0 <= j < r ==> !IsSeparator(s[j])
  {
    if s == "" || IsSeparator(s[0]) then 0 else 1 + FirstSeparator(s[1..])
  }

  /** Key and raw value of an option line. */
  function OptionParts(line: string): Maybe<(string, string)> {
    if line == "" || IsSpace(line[0]) || IsSeparator(line[0]) || IsCommentChar(line[0]) then None
    else
      var j := FirstSeparator(line);
      if j < |line| then Some((RStrip(line[..j]), line[j + 1..])) else None
  }

  /** An inline comment starts at a `#` or `;` that opens the text or follows white space. */
  predicate CommentAt(s: string, i: nat)
    requires i < |s|
  {
    IsCommentChar(s[i]) && (i == 0 || IsSpace(s[i - 1]))
  }

  function CommentStart(s: string, i: nat := 0): (r: nat)
    requires i <= |s|
    ensures i <= r <= |s|
    ensures r < |s| ==> CommentAt(s, r)
    ensures forall j :: i <= j < r ==> !CommentAt(s, j)
    decreases |s| - i
  {
    if i == |s| || CommentAt(s, i) then i else CommentStart(s, i + 1)
  }

  function StripInline(s: string): (r: string)
    ensures |r| <= |s|
  {
    RStrip(s[..CommentStart(s)])
  }

  /** What the format reads back unchanged as one value or one list item. */
  predicate Clean(s: string) {
    OneLine(s) && Trimmed(s) && StripInline(s) == s
  }

  /** How the scanner sees a line, whatever came before it. */
  datatype Line =
    | Header(name: string)
    | Start(key: string, value: string)
    | Cont(item: string)
    | Break

  function Classify(line: string): Line {
    match HeaderName(line)
    case Some(name) => Header(name)
    case None =>
      if IsContinuation(line) then
        Cont(if IsComment(line) then "" else StripInline(Strip(line)))
      else
        match OptionParts(line)
        case Some(kv) => Start(kv.0, StripInline(Strip(kv.1)))
        case None => Break
  }

  /** A key that starts an option line and nothing else. */
  predicate ValidKey(key: string) {
    && key != "" && OneLine(key) && Trimmed(key)
    && !IsCommentChar(key[0]) && key[0] != '['
    && forall i :: 0 <= i < |key| ==> !IsSeparator(key[i])
  }

  /** A section name that its own header reads back. */
  predicate ValidName(name: string) {
    name != "" && OneLine(name) && Trimmed(name) && ']' !in name
  }

  lemma {:induction false} CommentStartIs(s: string, r: nat)
    requires r <= |s|
    requires r < |s| ==> CommentAt(s, r)
    requires forall j :: 0 <= j < r ==> !CommentAt(s, j)
    ensures CommentStart(s) == r
  {
    var c := CommentStart(s);
    if c < r {
      assert false;
    }
  }

  lemma StripInlineOneLine(s: string)
    ensures StripInline(s) == s[..|StripInline(s)|]
    ensures OneLine(s) ==> OneLine(StripInline(s))
  {
    var r := RStripParts(s[..CommentStart(s)]);
  }

  /** Cleanness is the absence of an inline comment. */
  lemma CleanIff(s: string)
    ensures Clean(s) <==> OneLine(s) && Trimmed(s) && forall j :: 0 <= j < |s| ==> !CommentAt(s, j)
  {
    var c := CommentStart(s);
    StripInlineOneLine(s);
    if c < |s| {
      var r := RStripParts(s[..c]);
      assert CommentAt(s, c);
    } else {
      assert s[..c] == s;
      if Trimmed(s) {
        var r := RStripParts(s);
        RStripSuffix(s, "");
        assert s + "" == s;
      }
    }
  }

  /** An inline comment behind a clean text is cut off again, with the gap before it. */
  lemma StripInlineDrops(s: string, gap: string, comment: string)
    requires Trimmed(s) && (forall j :: 0 <= j < |s| ==> !CommentAt(s, j))
    requires AllSpace(gap) && gap != ""
    requires comment == "" || IsCommentChar(comment[0])
    ensures StripInline(s + gap + comment) == s
  {
    var t := s + gap + comment;
    forall j | 0 <= j < |s| + |gap| ensures !CommentAt(t, j) {
      if j < |s| {
        assert t[j] == s[j];
        assert !CommentAt(s, j);
      } else {
        assert t[j] == gap[j - |s|];
      }
    }
    if comment != "" {
      assert t[|s| + |gap|] == comment[0];
      assert t[|s| + |gap| - 1] == gap[|gap| - 1];
    }
    CommentStartIs(t, |s| + |gap|);
    assert t[..|s| + |gap|] == s + gap;
    RStripSuffix(s, gap);
  }

  lemma ContIsContinuation(line: string)
    ensures Classify(line).Cont? <==> IsContinuation(line)
  {
  }

  lemma BlankIsBreak(line: string)
    requires IsBlank(line)
    ensures Classify(line) == Break
  {
  }

  /** An indented, non-blank text is a continuation line. */
  lemma IndentedIsContinuation(text: string)
    requires !IsBlank(text)
    ensures IsContinuation(INDENT + text)
    ensures Strip(INDENT + text) == Strip(text)
    ensures IsComment(INDENT + text) == IsComment(text)
  {
    var m := LStripParts(text);
    LStripPrefix(INDENT + m, LStrip(text));
    assert INDENT + text == (INDENT + m) + LStrip(text);
    hide LStrip;
  }

  /** The line of a rendered option reads back as that option. */
  lemma StartLine(key: string, rest: string)
    requires ValidKey(key)
    ensures Classify(key + ":" + rest) == Start(key, StripInline(Strip(rest)))
    ensures !IsContinuation(key + ":" + rest)
  {
    var line := key + ":" + rest;
    assert line[0] == key[0];
    assert key[0] == key[..][0];
    assert !IsSeparator(key[0]);
    var j := FirstSeparator(line);
    assert line[|key|] == ':';
    assert forall i :: 0 <= i < |key| ==> line[i] == key[i];
    assert j == |key|;
    assert line[..j] == key && line[j + 1..] == rest;
    RStripSuffix(key, "");
    assert key + "" == key;
  }

  /** A rendered header reads back as that section. */
  lemma HeaderLine(name: string)
    requires ValidName(name)
    ensures Classify("[" + name + "]") == Header(name)
    ensures !IsBlank("[" + name + "]")
  {
    var line := "[" + name + "]";
    assert line[|name| + 1] == ']';
    assert forall i :: 1 <= i < |name| + 1 ==> line[i] == name[i - 1];
    assert IndexOf(line, ']', 1) == |name| + 1;
    assert line[1..|name| + 1] == name;
    assert line[|name| + 2..] == "";
    StripTrimmed(name);
    assert line[0] == '[';
    assert LStrip(line) == line;
  }
}
