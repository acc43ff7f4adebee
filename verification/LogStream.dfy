/** The live log: lines are batched, batches may get lost, and a client that follows the
    sequence numbers still never shows a wrong line. */
module LogStream {
  import opened LogRing
  import opened Text

  const MAX_LINES := 40
  const MAX_BYTES := 32768
  const MAX_LINE_BYTES := 8192
  const ENVELOPE := 24
  const SUFFIX := " ...[truncated]"

  /** What is sent at once: lines of one job, and the number of the first. */
  datatype Batch = Batch(job: nat, first: nat, lines: seq<LogLine>)

  datatype Pending = Pending(job: Maybe<nat>, first: Maybe<nat>, lines: seq<LogLine>, bytes: nat)

  function Shortened(text: string): string {
    if |text| > MAX_LINE_BYTES then text[..MAX_LINE_BYTES] + SUFFIX else text
  }

  function Clip(line: LogLine): LogLine {
    line.(text := Shortened(line.text))
  }

  /** A line and what is sent of it: the same up to 8192 characters, and of a longer one the first
      8192 and a mark. */
  predicate SentAs(line: LogLine, sent: LogLine) {
    && sent.seqno == line.seqno && sent.stream == line.stream
    && (|line.text| <= 8192 ==> sent.text == line.text)
    && (|line.text| > 8192 ==> sent.text == line.text[..8192] + " ...[truncated]")
  }

  lemma ClipIsSent(line: LogLine, sent: LogLine)
    ensures SentAs(line, sent) <==> sent == Clip(line)
  {
  }

  function Empty(job: Maybe<nat>): Pending {
    Pending(job, None, [], 0)
  }

  /** What a flush sends, if anything. */
  function Due(b: Pending): seq<Batch> {
    if b.lines == [] || b.job.None? || b.first.None? then [] else [Batch(b.job.value, b.first.value, b.lines)]
  }

  function Flushed(b: Pending): Pending {
    if b.lines == [] || b.job.None? then b else Empty(b.job)
  }

  /** The pending lines with one more, before the size is looked at. */
  function Queued(b: Pending, job: nat, line: LogLine): Pending {
    var b' := if b.job.Some? && b.job.value != job then Flushed(b) else b;
    Pending(Some(job), if b'.first.None? then Some(line.seqno) else b'.first, b'.lines + [Clip(line)],
            b'.bytes + |Clip(line).text| + ENVELOPE)
  }

  predicate Full(b: Pending) {
    |b.lines| >= MAX_LINES || b.bytes >= MAX_BYTES
  }

  /** What is pending, and what has been sent, after one more line. */
  function Add(b: Pending, job: nat, line: LogLine): (Pending, seq<Batch>) {
    var early := if b.job.Some? && b.job.value != job then Due(b) else [];
    var b' := Queued(b, job, line);
    if Full(b') then (Flushed(b'), early + Due(b')) else (b', early)
  }

  // ---- the batcher by itself ----

  function SizeOf(lines: seq<LogLine>): nat {
    if lines == [] then 0 else SizeOf(lines[..|lines| - 1]) + |lines[|lines| - 1].text| + ENVELOPE
  }

  /** What is pending is numbered from `first`, belongs to one job, and is not yet due. */
  predicate Fits(b: Pending) {
    && (b.lines == [] <==> b.first.None?)
    && (b.lines != [] ==> b.job.Some? && b.first == Some(b.lines[0].seqno))
    && b.bytes == SizeOf(b.lines)
    && !Full(b)
  }

  /** No batch is empty, none has more than 40 lines, and its size is bounded by one line more
      than the trigger. */
  predicate Modest(batch: Batch) {
    && 0 < |batch.lines| <= 40
    && batch.first == batch.lines[0].seqno
    && SizeOf(batch.lines) < 32768 + 8192 + |" ...[truncated]"| + 24
  }

  datatype Entry = Entry(job: nat, line: LogLine)

  function Tagged(job: nat, lines: seq<LogLine>): (entries: seq<Entry>)
    ensures |entries| == |lines|
    ensures forall i :: 0 <= i < |lines| ==> entries[i] == Entry(job, lines[i])
  {
    if lines == [] then [] else Tagged(job, lines[..|lines| - 1]) + [Entry(job, lines[|lines| - 1])]
  }

  /** The lines of some batches, one after the other. */
  function Lines(batches: seq<Batch>): seq<Entry> {
    if batches == [] then []
    else
      var last := batches[|batches| - 1];
      Lines(batches[..|batches| - 1]) + Tagged(last.job, last.lines)
  }

  function Waiting(b: Pending): seq<Entry> {
    if b.job.Some? then Tagged(b.job.value, b.lines) else []
  }

  lemma {:induction false} LinesSnoc(batches: seq<Batch>, batch: Batch)
    ensures Lines(batches + [batch]) == Lines(batches) + Tagged(batch.job, batch.lines)
  {
    assert (batches + [batch])[..|batches|] == batches;
  }

  lemma {:induction false} FlushKeepsLines(b: Pending, sent: seq<Batch>)
    requires Fits(b) || (b.lines != [] && b.job.Some? && b.first.Some?)
    ensures Lines(sent + Due(b)) + Waiting(Flushed(b)) == Lines(sent) + Waiting(b)
  {
    if Due(b) == [] {
      assert sent + Due(b) == sent;
    } else {
      LinesSnoc(sent, Due(b)[0]);
      assert Lines(sent) + Waiting(b) + [] == Lines(sent) + Waiting(b);
    }
  }

  lemma {:induction false} TaggedSnoc(job: nat, lines: seq<LogLine>, line: LogLine)
    ensures Tagged(job, lines + [line]) == Tagged(job, lines) + [Entry(job, line)]
  {
  }

  lemma {:induction false} SizeSnoc(lines: seq<LogLine>, line: LogLine)
    ensures SizeOf(lines + [line]) == SizeOf(lines) + |line.text| + ENVELOPE
  {
    assert (lines + [line])[..|lines|] == lines;
  }

  /** A line is sent or still pending, after all lines before it, as it is or cut off behind its first
      8192 characters and marked; no batch mixes jobs. */
  lemma {:induction false} AddKeepsLines(b: Pending, job: nat, line: LogLine, sent: seq<Batch>)
    requires Fits(b)
    ensures var (b', out) := Add(b, job, line);
      var text := if |line.text| <= 8192 then line.text else line.text[..8192] + " ...[truncated]";
      Lines(sent + out) + Waiting(b')
      == Lines(sent) + Waiting(b) + [Entry(job, LogLine(line.seqno, line.stream, text))]
  {
    var text := if |line.text| <= 8192 then line.text else line.text[..8192] + " ...[truncated]";
    ClipIsSent(line, LogLine(line.seqno, line.stream, text));
    hide Clip, SentAs;
    ClippedKeepsLines(b, job, line, sent);
  }

  lemma {:induction false} ClippedKeepsLines(b: Pending, job: nat, line: LogLine, sent: seq<Batch>)
    requires Fits(b)
    ensures var (b', out) := Add(b, job, line);
      Lines(sent + out) + Waiting(b') == Lines(sent) + Waiting(b) + [Entry(job, Clip(line))]
  {
    var switch := b.job.Some? && b.job.value != job;
    var early := if switch then Due(b) else [];
    var b1 := if switch then Flushed(b) else b;
    var b2 := Queued(b, job, line);
    assert Lines(sent + early) + Waiting(b1) == Lines(sent) + Waiting(b) by {
      if switch {
        FlushKeepsLines(b, sent);
      } else {
        assert sent + [] == sent;
      }
    }
    QueueKeepsLines(b, job, line, Lines(sent + early));
    if Full(b2) {
      FlushKeepsLines(b2, sent + early);
      assert sent + (early + Due(b2)) == sent + early + Due(b2);
    }
  }

  lemma QueueKeepsLines(b: Pending, job: nat, line: LogLine, before: seq<Entry>)
    requires Fits(b)
    ensures var b1 := if b.job.Some? && b.job.value != job then Flushed(b) else b;
      before + Waiting(Queued(b, job, line)) == before + Waiting(b1) + [Entry(job, Clip(line))]
  {
    hide Clip, SizeOf, Full;
    var b1 := if b.job.Some? && b.job.value != job then Flushed(b) else b;
    TaggedSnoc(job, b1.lines, Clip(line));
    assert b1.job.Some? ==> b1.job.value == job || b1.lines == [];
    hide Fits, Flushed;
    assert Waiting(Queued(b, job, line)) == Waiting(b1) + [Entry(job, Clip(line))];
  }

  lemma AddFits(b: Pending, job: nat, line: LogLine)
    requires Fits(b)
    ensures var (b', out) := Add(b, job, line);
      Fits(b') && forall i :: 0 <= i < |out| ==> Modest(out[i])
  {
    var b1 := if b.job.Some? && b.job.value != job then Flushed(b) else b;
    assert Fits(b1);
    SizeSnoc(b1.lines, Clip(line));
    assert |Clip(line).text| <= MAX_LINE_BYTES + |SUFFIX|;
  }

  /** A batch goes out with the new line exactly when that makes forty lines or 32768 bytes, counting 24
      for each line besides its text; and what was pending goes out before it exactly when it belongs
      to another job. */
  lemma AddSendsIff(b: Pending, job: nat, line: LogLine)
    requires Fits(b)
    ensures var (b', out) := Add(b, job, line);
      var switch := b.lines != [] && b.job != Some(job);
      var queued := (if b.job == Some(job) then b.lines else []) + [Clip(line)];
      && (switch ==> out != [] && out[0].lines == b.lines)
      && (if |queued| >= 40 || SizeOf(queued) >= 32768
          then b'.lines == [] && out != [] && out[|out| - 1].lines == queued && |out| == (if switch then 2 else 1)
          else b'.lines == queued && |out| == (if switch then 1 else 0))
  {
    hide Clip, SizeOf;
    var b1 := if b.job.Some? && b.job.value != job then Flushed(b) else b;
    SizeIs(b1.lines, Clip(line));
    var x := Clip(line);
    assert b1.bytes == SizeOf(b1.lines) && (b1.lines == [] || b1.job == Some(job));
    assert b.lines == [] ==> b1.lines == [];
    QueuedIs(b1, b, job, line);
    assert Queued(b, job, line).lines == b1.lines + [x];
    hide Fits, Queued;
    if b.job == Some(job) {
      assert b1 == b;
    } else {
      assert b1.lines == [];
    }
  }

  lemma QueuedIs(b1: Pending, b: Pending, job: nat, line: LogLine)
    requires b1 == if b.job.Some? && b.job.value != job then Flushed(b) else b
    ensures var b' := Queued(b, job, line);
      && b'.lines == b1.lines + [Clip(line)] && b'.bytes == b1.bytes + |Clip(line).text| + 24
      && b'.job == Some(job) && b'.first.Some?
  {
    hide Clip;
  }

  lemma {:induction false} SizeIs(lines: seq<LogLine>, line: LogLine)
    ensures SizeOf([]) == 0 && SizeOf(lines + [line]) == SizeOf(lines) + |line.text| + 24
  {
    SizeSnoc(lines, line);
  }

  /** Nothing that was added is lost, reordered, moved to another job or changed, but for the end of
      lines that are too long. */
  ghost predicate Account(b: Pending, sent: seq<Batch>, added: seq<Entry>) {
    && Fits(b)
    && (forall i :: 0 <= i < |sent| ==> Modest(sent[i]))
    && AllSent(added, Lines(sent) + Waiting(b))
  }

  ghost predicate AllSent(added: seq<Entry>, sent: seq<Entry>) {
    && |sent| == |added|
    && forall i :: 0 <= i < |added| ==> sent[i].job == added[i].job && SentAs(added[i].line, sent[i].line)
  }

  lemma AllSentSnoc(added: seq<Entry>, sent: seq<Entry>, job: nat, line: LogLine)
    requires AllSent(added, sent)
    ensures AllSent(added + [Entry(job, line)], sent + [Entry(job, Clip(line))])
  {
    ClipIsSent(line, Clip(line));
    hide SentAs, Clip;
  }

  lemma AddAccounts(b: Pending, job: nat, line: LogLine, sent: seq<Batch>, added: seq<Entry>)
    requires Account(b, sent, added)
    ensures var (b', out) := Add(b, job, line);
      Account(b', sent + out, added + [Entry(job, line)])
  {
    ClippedKeepsLines(b, job, line, sent);
    AddFits(b, job, line);
    AllSentSnoc(added, Lines(sent) + Waiting(b), job, line);
    hide Fits, Modest, Lines, Waiting, Add, AllSent, Clip;
  }

  lemma FlushAccounts(b: Pending, sent: seq<Batch>, added: seq<Entry>)
    requires Account(b, sent, added)
    ensures Account(Flushed(b), sent + Due(b), added)
  {
    FlushKeepsLines(b, sent);
    hide Lines, Waiting, AllSent;
  }

  lemma AccountFits(b: Pending, sent: seq<Batch>, added: seq<Entry>)
    requires Account(b, sent, added)
    ensures Fits(b)
  {
  }

  lemma QueuedHasFirst(b: Pending, job: nat, line: LogLine)
    ensures Queued(b, job, line).first.Some?
  {
  }

  class LogBatcher {
    var jobId: Maybe<nat>
    var pending: seq<LogLine>
    var firstSeq: Maybe<nat>
    var bytes: nat
    /** What was handed to the emitter, whether or not it got through. */
    var sent: seq<Batch>
    /** What was added, as it was printed. */
    ghost var added: seq<Entry>

    function Value(): Pending
      reads this
    {
      Pending(jobId, firstSeq, pending, bytes)
    }

    ghost predicate Valid()
      reads this
    {
      Account(Value(), sent, added)
    }

    constructor ()
      ensures Valid() && added == [] && sent == []
    {
      jobId, pending, firstSeq, bytes, sent, added := None, [], None, 0, [], [];
    }

    method FlushLocked()
      modifies this`pending, this`firstSeq, this`bytes, this`sent
      requires pending != [] && jobId.Some? ==> firstSeq.Some?
      ensures Value() == Flushed(old(Value())) && sent == old(sent) + Due(old(Value()))
    {
      if pending == [] || jobId.None? {
        return;
      }
      sent := sent + [Batch(jobId.value, firstSeq.value, pending)];
      pending, firstSeq, bytes := [], None, 0;
    }

    /** The first half of `add`: an early flush for another job, and the line itself. */
    method Queue(job: nat, line: LogLine)
      requires Fits(Value())
      modifies this`jobId, this`pending, this`firstSeq, this`bytes, this`sent
      ensures Value() == Queued(old(Value()), job, line)
      ensures sent == old(sent) + (if old(jobId).Some? && old(jobId).value != job then Due(old(Value())) else [])
    {
      hide Shortened, SUFFIX, SizeOf;
      var text := Shortened(line.text);
      if jobId.Some? && jobId.value != job {
        FlushLocked();
      }
      jobId := Some(job);
      if firstSeq.None? {
        firstSeq := Some(line.seqno);
      }
      pending := pending + [line.(text := text)];
      bytes := bytes + |text| + ENVELOPE;
    }

    method AddLine(job: nat, line: LogLine)
      requires Valid()
      modifies this
      ensures Valid() && added == old(added) + [Entry(job, line)]
      ensures (Value(), sent) == (Add(old(Value()), job, line).0, old(sent) + Add(old(Value()), job, line).1)
    {
      ghost var before, sentBefore := Value(), sent;
      AddAccounts(before, job, line, sent, added);
      QueuedHasFirst(before, job, line);
      hide AllSent, Clip, Due, Flushed, Queued, Lines, Waiting, Modest, SizeOf;
      AccountFits(before, sent, added);
      hide Account, Fits;
      Queue(job, line);
      ghost var early := if before.job.Some? && before.job.value != job then Due(before) else [];
      assert sent == sentBefore + early;
      if |pending| >= MAX_LINES || bytes >= MAX_BYTES {
        FlushLocked();
      }
      added := added + [Entry(job, line)];
      assert sent == sentBefore + Add(before, job, line).1;
    }

    method Flush()
      requires Valid()
      modifies this`pending, this`firstSeq, this`bytes, this`sent
      ensures Valid() && pending == []
      ensures Value() == Flushed(old(Value())) && sent == old(sent) + Due(old(Value()))
    {
      FlushAccounts(Value(), sent, added);
      FlushLocked();
    }
  }
}
