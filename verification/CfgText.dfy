/** The document as the text of a file. */
module CfgText {
  import opened Text
  import opened CfgLine
  import opened CfgIndex
  import opened CfgEdit
  import opened CfgTable

  function RenderText(lines: seq<string>): string {
    var text := JoinLines(lines);
    if text == "" || text[|text| - 1] == '\n' then text else text + "\n"
  }

  /** The text ends in one line feed behind a line that is not empty. */
  predicate Canonical(text: string) {
    text == "" || (|text| >= 2 && text[|text| - 1] == '\n' && text[|text| - 2] != '\n')
  }

  /** What a file keeps of the lines: everything but one empty last line. */
  function Settled(lines: seq<string>): seq<string> {
    if lines != [] && Last(lines) == "" then lines[..|lines| - 1] else lines
  }

  lemma {:induction false} JoinEnds(lines: seq<string>)
    requires OneLines(lines) && lines != []
    ensures Last(lines) != "" ==> JoinLines(lines) != "" && JoinLines(lines)[|JoinLines(lines)| - 1] != '\n'
    ensures Last(lines) == "" && |lines| > 1 ==> JoinLines(lines) == Terminated(lines[..|lines| - 1])
  {
    if |lines| > 1 {
      var rest := lines[1..];
      JoinEnds(rest);
      if Last(lines) == "" {
        var init := lines[..|lines| - 1];
        if |rest| == 1 {
          assert init == [lines[0]] && init[1..] == [];
          assert rest[0] == "" && Terminated([]) == "";
          assert JoinLines(lines) == lines[0] + "\n" + "";
          assert Terminated(init) == lines[0] + "\n" + "";
        } else {
          assert init[1..] == rest[..|rest| - 1];
        }
      }
    }
  }

  lemma {:induction false} TerminatedEnds(lines: seq<string>)
    requires lines != []
    ensures Terminated(lines) != "" && Terminated(lines)[|Terminated(lines)| - 1] == '\n'
    ensures |lines| > 1 ==> |Terminated(lines)| >= 2
    ensures |lines| == 1 ==> Terminated(lines) == lines[0] + "\n"
  {
    if |lines| > 1 {
      TerminatedEnds(lines[1..]);
    } else {
      assert lines[1..] == [];
      assert Terminated(lines) == lines[0] + "\n" + "";
    }
  }

  /** Reading back what was written gives the same lines, up to one empty last line. */
  lemma RenderReads(lines: seq<string>)
    requires OneLines(lines)
    ensures SplitLines(RenderText(lines)) == Settled(lines)
  {
    if lines != [] {
      JoinEnds(lines);
      if Last(lines) != "" {
        JoinTerminated(lines);
        SplitTerminated(lines);
      } else if |lines| > 1 {
        SplitTerminated(lines[..|lines| - 1]);
        TerminatedEnds(lines[..|lines| - 1]);
      } else {
        assert lines[..0] == [];
      }
    }
  }

  /** Writing what was read gives the same text exactly when the text is canonical. */
  lemma {:induction false} ReadRenders(text: string)
    ensures RenderText(SplitLines(text)) == text <==> Canonical(text)
  {
    var lines := SplitLines(text);
    if text != "" {
      SplitShape(text);
      JoinEnds(lines);
      JoinTerminated(lines);
      TerminatedLast(lines);
    }
  }

  /** An empty last line shows as two line feeds, or as nothing but one. */
  lemma {:induction false} TerminatedLast(lines: seq<string>)
    requires OneLines(lines) && lines != []
    ensures var t := Terminated(lines);
            && t != "" && t[|t| - 1] == '\n'
            && (Last(lines) == "" <==> |t| == 1 || t[|t| - 2] == '\n')
  {
    if |lines| == 1 {
      assert lines[1..] == [];
      assert Terminated(lines) == lines[0] + "\n" + "";
    } else {
      TerminatedLast(lines[1..]);
      assert Terminated(lines) == lines[0] + "\n" + Terminated(lines[1..]);
    }
  }

  /** The table read from the written text is the table of the document. */
  lemma RenderKeepsTable(lines: seq<string>)
    requires OneLines(lines)
    ensures TableOf(SplitLines(RenderText(lines))) == TableOf(lines)
    ensures OneLines(SplitLines(RenderText(lines)))
  {
    hide RenderText, SplitLines, Step, Classify;
    RenderReads(lines);
    if lines != [] && Last(lines) == "" {
      var n := |lines| - 1;
      assert lines[..n][..n] == lines[..n];
      ScanPrefix(lines, lines[..n], n);
      BlankIsBreak("");
      StepBreak(ScanTo(lines, n), "", n);
      var a, b := TableOf(lines), TableOf(lines[..n]);
      assert a == b;
    }
  }
}
