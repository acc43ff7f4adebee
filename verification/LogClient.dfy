/** A client that follows the log of one job over batches that can be lost, repeated or late, and over answers to its
    questions that can be late as well. The state has the logs as they were printed, the batcher of `LogStream`, all
    batches and answers that are or were on the way, and the view of the client; a step prints, queues, flushes,
    delivers any batch there ever was, asks, or delivers any answer. The view is then always a true picture of some
    beginning of the log, with marks only for lines that the ring of `LogRing` had forgotten when it was asked. */
module LogClient {
  import opened LogRing
  import opened LogStream
  import opened Runs
  import opened Text

  /** What the client shows in place `i`: a line, or a mark that it was forgotten. */
  datatype Shown = Shown(stream: string, text: string) | Omitted

  datatype Reply = Reply(from: nat, answer: Answer)

  /** `queued[k]` counts the lines of job `k` that have gone to the batcher; the client follows
      one job. */
  datatype State = State(
    hist: seq<seq<Line>>, queued: seq<nat>, batcher: Pending, sent: seq<Batch>,
    job: nat, maxlen: nat, replies: seq<Reply>, view: seq<Shown>)

  datatype Step =
    | NewJob
    | Print(k: nat, line: Line)
    | Queue(k: nat)
    | Flush
    | Deliver(i: nat)
    | Serve(from: nat)
    | Receive(i: nat)
    | Reload

  function Texts(lines: seq<LogLine>): (shown: seq<Shown>)
    ensures |shown| == |lines|
    ensures forall i :: 0 <= i < |lines| ==> shown[i] == Shown(lines[i].stream, lines[i].text)
  {
    seq(|lines|, i requires 0 <= i < |lines| => Shown(lines[i].stream, lines[i].text))
  }

  function Gap(n: nat): (shown: seq<Shown>)
    ensures |shown| == n && forall i :: 0 <= i < n ==> shown[i] == Omitted
  {
    seq(n, i => Omitted)
  }

  /** The client on a batch: lines that start where its view ends are appended; anything else
      only tells it to ask. */
  function OnBatch(view: seq<Shown>, job: nat, batch: Batch): seq<Shown> {
    if batch.job == job && batch.first == |view| then view + Texts(batch.lines) else view
  }

  /** The client on an answer: it replaces its view from where it had asked. */
  function OnReply(view: seq<Shown>, reply: Reply): seq<Shown> {
    if reply.from <= |view| && reply.from <= reply.answer.start then
      view[..reply.from] + Gap(reply.answer.start - reply.from) + Texts(reply.answer.lines)
    else view
  }

  function Next(st: State, step: Step): Maybe<State> {
    match step
    case NewJob => Some(st.(hist := st.hist + [[]], queued := st.queued + [0]))
    case Print(k, line) =>
      if k >= |st.hist| || |st.queued| != |st.hist| || st.queued[k] != |st.hist[k]| then None
      else Some(st.(hist := st.hist[k := st.hist[k] + [line]]))
    case Queue(k) =>
      if k >= |st.hist| || |st.queued| != |st.hist| || st.queued[k] >= |st.hist[k]| then None
      else
        var (b, out) := Add(st.batcher, k, Numbered(st.hist[k])[st.queued[k]]);
        Some(st.(batcher := b, sent := st.sent + out, queued := st.queued[k := st.queued[k] + 1]))
    case Flush => Some(st.(batcher := Flushed(st.batcher), sent := st.sent + Due(st.batcher)))
    case Deliver(i) =>
      if i >= |st.sent| then None else Some(st.(view := OnBatch(st.view, st.job, st.sent[i])))
    case Serve(from) =>
      if st.job >= |st.hist| || from > |st.hist[st.job]| then None
      else Some(st.(replies := st.replies + [Reply(from, Served(st.hist[st.job], st.maxlen, from))]))
    case Receive(i) =>
      if i >= |st.replies| then None else Some(st.(view := OnReply(st.view, st.replies[i])))
    case Reload => Some(st.(view := []))
  }

  function Initial(job: nat, maxlen: nat): State {
    State([], [], Empty(None), [], job, maxlen, [], [])
  }

  /** A job that has handed on all its lines can print another one, and that goes to the batcher under its number. */
  lemma EveryLineIsQueued(st: State, k: nat, line: Line)
    requires k < |st.hist| == |st.queued| && st.queued[k] == |st.hist[k]|
    ensures Next(st, Print(k, line)) == Some(st.(hist := st.hist[k := st.hist[k] + [line]]))
    ensures var printed := Next(st, Print(k, line)).value;
      && Next(printed, Queue(k)).Some?
      && var (b, out) := Add(st.batcher, k, LogLine(|st.hist[k]|, line.stream, line.text));
         Next(printed, Queue(k)).value
         == printed.(batcher := b, sent := st.sent + out, queued := st.queued[k := |st.hist[k]| + 1])
  {
    hide Add;
  }

  // ---- what is true of batches, answers and the view ----

  /** These lines are those printed from `first` on, shortened at most. */
  ghost predicate Copies(hist: seq<Line>, first: nat, lines: seq<LogLine>) {
    && first + |lines| <= |hist|
    && forall i :: 0 <= i < |lines| ==>
         SentAs(LogLine(first + i, hist[first + i].stream, hist[first + i].text), lines[i])
  }

  ghost predicate BatchTrue(hist: seq<seq<Line>>, batch: Batch) {
    batch.job < |hist| && Copies(hist[batch.job], batch.first, batch.lines)
  }

  ghost predicate PendingTrue(hist: seq<seq<Line>>, queued: seq<nat>, b: Pending)
    requires |queued| == |hist|
  {
    && Fits(b)
    && (b.lines != [] ==>
          && b.job.value < |hist| && Copies(hist[b.job.value], b.first.value, b.lines)
          && b.first.value + |b.lines| == queued[b.job.value])
  }

  ghost predicate ReplyTrue(hist: seq<Line>, maxlen: nat, reply: Reply) {
    var lines := reply.answer.lines;
    var start := reply.answer.start;
    && reply.from <= start && start + |lines| <= |hist|
    && (start > reply.from ==> start <= Forgotten(|hist|, maxlen))
    && forall i :: 0 <= i < |lines| ==>
         lines[i] == LogLine(start + i, hist[start + i].stream, hist[start + i].text)
  }

  /** One place of the view: the line printed there, in full, or its first 8192 characters and a mark
      if it is longer; or a mark for the whole line if the ring has forgotten it. */
  predicate PlaceTrue(hist: seq<Line>, maxlen: nat, i: nat, shown: Shown)
    requires i < |hist|
  {
    match shown
    case Shown(stream, text) =>
      && stream == hist[i].stream
      && (text == hist[i].text
          || (|hist[i].text| > 8192 && text == hist[i].text[..8192] + " ...[truncated]"))
    case Omitted => i < Forgotten(|hist|, maxlen)
  }

  ghost predicate ViewTrue(hist: seq<Line>, maxlen: nat, view: seq<Shown>) {
    && |view| <= |hist|
    && forall i :: 0 <= i < |view| ==> PlaceTrue(hist, maxlen, i, view[i])
  }

  /** The followed job's log so far. */
  function Followed(st: State): seq<Line> {
    if st.job < |st.hist| then st.hist[st.job] else []
  }

  ghost predicate Truthful(st: State) {
    && |st.queued| == |st.hist|
    && (forall k :: 0 <= k < |st.hist| ==> st.queued[k] <= |st.hist[k]|)
    && PendingTrue(st.hist, st.queued, st.batcher)
    && (forall m :: 0 <= m < |st.sent| ==> BatchTrue(st.hist, st.sent[m]))
    && (forall m :: 0 <= m < |st.replies| ==> ReplyTrue(Followed(st), st.maxlen, st.replies[m]))
    && ViewTrue(Followed(st), st.maxlen, st.view)
  }

  lemma AddTrue(hist: seq<seq<Line>>, queued: seq<nat>, b: Pending, k: nat)
    requires |queued| == |hist| && PendingTrue(hist, queued, b)
    requires k < |hist| && queued[k] < |hist[k]|
    ensures var (b', out) := Add(b, k, Numbered(hist[k])[queued[k]]);
      && PendingTrue(hist, queued[k := queued[k] + 1], b')
      && forall m :: 0 <= m < |out| ==> BatchTrue(hist, out[m])
  {
    hide SizeOf, SUFFIX, Clip, SentAs;
    var line := Numbered(hist[k])[queued[k]];
    ClipIsSent(line, Clip(line));
    AddFits(b, k, line);
    var b' := Queued(b, k, line);
    assert b'.job == Some(k) && b'.first.Some?;
    assert Copies(hist[k], b'.first.value, b'.lines) && b'.first.value + |b'.lines| == queued[k] + 1;
  }

  /** A longer log makes nothing untrue. */
  lemma GrowKeeps(hist: seq<Line>, line: Line, maxlen: nat)
    ensures forall first, lines :: Copies(hist, first, lines) ==> Copies(hist + [line], first, lines)
    ensures forall reply :: ReplyTrue(hist, maxlen, reply) ==> ReplyTrue(hist + [line], maxlen, reply)
    ensures forall view :: ViewTrue(hist, maxlen, view) ==> ViewTrue(hist + [line], maxlen, view)
  {
    hide SentAs;
  }

  lemma PrintTruthful(st: State, k: nat, line: Line)
    requires Truthful(st) && Next(st, Print(k, line)).Some?
    ensures Truthful(Next(st, Print(k, line)).value)
  {
    GrowKeeps(st.hist[k], line, st.maxlen);
    hide Fits, Copies, ReplyTrue, ViewTrue;
  }

  lemma QueueTruthful(st: State, k: nat)
    requires Truthful(st) && Next(st, Queue(k)).Some?
    ensures Truthful(Next(st, Queue(k)).value)
  {
    AddTrue(st.hist, st.queued, st.batcher, k);
    hide Add, PendingTrue, BatchTrue, ReplyTrue, ViewTrue;
  }

  lemma ReceiveTruthful(hist: seq<Line>, maxlen: nat, view: seq<Shown>, reply: Reply)
    requires ViewTrue(hist, maxlen, view) && ReplyTrue(hist, maxlen, reply)
    ensures ViewTrue(hist, maxlen, OnReply(view, reply))
  {
    hide Shortened;
  }

  lemma DeliverTruthful(hist: seq<Line>, maxlen: nat, view: seq<Shown>, first: nat, lines: seq<LogLine>)
    requires ViewTrue(hist, maxlen, view) && Copies(hist, first, lines) && first == |view|
    ensures ViewTrue(hist, maxlen, view + Texts(lines))
  {
    hide Shortened;
  }

  lemma NewJobTruthful(st: State)
    requires Truthful(st) && Next(st, NewJob).Some?
    ensures Truthful(Next(st, NewJob).value)
  {
    hide Fits, Copies, ReplyTrue, PlaceTrue;
  }

  lemma FlushTruthful(st: State)
    requires Truthful(st) && Next(st, Flush).Some?
    ensures Truthful(Next(st, Flush).value)
  {
    hide Copies, ReplyTrue, ViewTrue;
  }

  lemma ReloadTruthful(st: State)
    requires Truthful(st) && Next(st, Reload).Some?
    ensures Truthful(Next(st, Reload).value)
  {
    hide Fits, Copies, ReplyTrue;
  }

  lemma DeliverStepTruthful(st: State, i: nat)
    requires Truthful(st) && Next(st, Deliver(i)).Some?
    ensures Truthful(Next(st, Deliver(i)).value)
  {
    assert BatchTrue(st.hist, st.sent[i]);
    hide PendingTrue, ReplyTrue, ViewTrue, Copies;
    if st.sent[i].job == st.job && st.sent[i].first == |st.view| {
      DeliverTruthful(st.hist[st.job], st.maxlen, st.view, st.sent[i].first, st.sent[i].lines);
    }
  }

  lemma ServeTruthful(st: State, from: nat)
    requires Truthful(st) && Next(st, Serve(from)).Some?
    ensures Truthful(Next(st, Serve(from)).value)
  {
    ServedTrue(st.hist[st.job], st.maxlen, from);
    hide PendingTrue, BatchTrue, ViewTrue, ReplyTrue, Served, Numbered;
  }

  lemma ServedTrue(hist: seq<Line>, maxlen: nat, from: nat)
    requires from <= |hist|
    ensures ReplyTrue(hist, maxlen, Reply(from, Served(hist, maxlen, from)))
  {
    ServedIsExact(hist, maxlen, from);
    hide Served, Numbered, Forgotten;
  }

  lemma ReceiveStepTruthful(st: State, i: nat)
    requires Truthful(st) && Next(st, Receive(i)).Some?
    ensures Truthful(Next(st, Receive(i)).value)
  {
    ReceiveTruthful(Followed(st), st.maxlen, st.view, st.replies[i]);
    hide PendingTrue, BatchTrue, ViewTrue, ReplyTrue, OnReply;
  }

  lemma NextTruthful(st: State, step: Step)
    requires Truthful(st) && Next(st, step).Some?
    ensures Truthful(Next(st, step).value)
  {
    hide Next, Truthful;
    match step
    case NewJob => NewJobTruthful(st);
    case Print(k, line) => PrintTruthful(st, k, line);
    case Queue(k) => QueueTruthful(st, k);
    case Flush => FlushTruthful(st);
    case Deliver(i) => DeliverStepTruthful(st, i);
    case Serve(from) => ServeTruthful(st, from);
    case Receive(i) => ReceiveStepTruthful(st, i);
    case Reload => ReloadTruthful(st);
  }

  /** Whatever batches and answers are lost, repeated or late: the client's view is the followed
      job's log up to some line, each line as printed or shortened as announced, and a mark
      stands only where the ring has forgotten the line. */
  lemma {:induction false} LogNeverLies(job: nat, maxlen: nat, steps: seq<Step>)
    requires Run(Next, Initial(job, maxlen), steps).Some?
    ensures var st := Run(Next, Initial(job, maxlen), steps).value;
      Truthful(st) && ViewTrue(Followed(st), maxlen, st.view)
  {
    forall st, step | Truthful(st) && st.maxlen == maxlen && Next(st, step).Some?
      ensures Truthful(Next(st, step).value) && Next(st, step).value.maxlen == maxlen
    {
      NextTruthful(st, step);
    }
    RunKeeps(Next, st => Truthful(st) && st.maxlen == maxlen, step => true, Initial(job, maxlen), steps);
  }

  // ---- an answer fills the gap ----

  lemma PlaceOf<T>(view: seq<T>, gap: seq<T>, tail: seq<T>, i: nat)
    requires i < |view| + |gap| + |tail|
    ensures (view + gap + tail)[i]
      == if i < |view| then view[i] else if i < |view| + |gap| then gap[i - |view|] else tail[i - |view| - |gap|]
  {
  }

  /** `view` continues `old view` to the end of the log: marks up to `start`, then lines. */
  ghost predicate Filled(before: seq<Shown>, view: seq<Shown>, hist: seq<Line>, start: nat) {
    && |before| <= |view| == |hist| && view[..|before|] == before
    && forall i :: |before| <= i < |hist| ==>
         view[i] == if i < start then Omitted else Shown(hist[i].stream, hist[i].text)
  }

  lemma ReplyFills(hist: seq<Line>, view: seq<Shown>, lines: seq<LogLine>, start: nat)
    requires |view| <= start && start + |lines| == |hist|
    requires forall i :: 0 <= i < |lines| ==>
      lines[i] == LogLine(start + i, hist[start + i].stream, hist[start + i].text)
    ensures Filled(view, view + Gap(start - |view|) + Texts(lines), hist, start)
  {
    hide Texts, Gap;
    var gap, tail := Gap(start - |view|), Texts(lines);
    var view' := view + gap + tail;
    forall i | |view| <= i < |hist|
      ensures view'[i] == if i < start then Omitted else Shown(hist[i].stream, hist[i].text)
    {
      PlaceOf(view, gap, tail, i);
      if i >= start {
        assert lines[i - start] == LogLine(i, hist[i].stream, hist[i].text);
        assert tail[i - start] == Shown(hist[i].stream, hist[i].text);
      }
    }
  }

  lemma AnswerFills(hist: seq<Line>, maxlen: nat, view: seq<Shown>)
    requires |view| <= |hist|
    ensures Filled(view, OnReply(view, Reply(|view|, Served(hist, maxlen, |view|))), hist,
                   Max(|view|, Forgotten(|hist|, maxlen)))
  {
    hide Filled, Served, Forgotten, Max, Gap, Texts;
    ServedIsExact(hist, maxlen, |view|);
    var answer := Served(hist, maxlen, |view|);
    ReplyFills(hist, view, answer.lines, answer.start);
    assert view[..|view|] == view;
  }

  /** A client that asks from the end of its view, and hears the answer at once, shows the whole
      log again: every line still in the ring in full, and a mark for exactly those places
      beyond its old view that the ring has forgotten, which the answer's first number tells. */
  lemma AnswerFillsTheGap(st: State)
    requires Truthful(st) && st.job < |st.hist|
    ensures var asked := Next(st, Serve(|st.view|));
      && asked.Some?
      && var heard := Next(asked.value, Receive(|st.replies|));
      && heard.Some?
      && Filled(st.view, heard.value.view, st.hist[st.job], Max(|st.view|, Forgotten(|st.hist[st.job]|, st.maxlen)))
  {
    assert |st.view| <= |st.hist[st.job]|;
    AskAndHear(st);
    hide Truthful, Served, OnReply, Filled, Forgotten, Max, Next;
    AnswerFills(st.hist[st.job], st.maxlen, st.view);
  }

  lemma AskAndHear(st: State)
    requires st.job < |st.hist| && |st.view| <= |st.hist[st.job]|
    ensures var asked := Next(st, Serve(|st.view|));
      && asked.Some?
      && var heard := Next(asked.value, Receive(|st.replies|));
      && heard.Some?
      && heard.value.view == OnReply(st.view, Reply(|st.view|, Served(st.hist[st.job], st.maxlen, |st.view|)))
  {
    hide Served, OnReply, Add, Flushed, Due, OnBatch, Numbered;
    var reply := Reply(|st.view|, Served(st.hist[st.job], st.maxlen, |st.view|));
    assert (st.replies + [reply])[|st.replies|] == reply;
  }

  // ---- without loss there is no gap ----

  /** Where the last batch of job `k` ended. */
  function EndOf(sent: seq<Batch>, k: nat): nat {
    if sent == [] then 0
    else
      var last := sent[|sent| - 1];
      if last.job == k then last.first + |last.lines| else EndOf(sent[..|sent| - 1], k)
  }

  lemma {:induction false} EndOfSnoc(sent: seq<Batch>, batch: Batch, k: nat)
    ensures EndOf(sent + [batch], k) == if batch.job == k then batch.first + |batch.lines| else EndOf(sent, k)
  {
    assert (sent + [batch])[..|sent|] == sent;
  }

  /** Each batch starts where the last one of its job ended. */
  ghost predicate Contiguous(sent: seq<Batch>) {
    forall m :: 0 <= m < |sent| ==> sent[m].first == EndOf(sent[..m], sent[m].job)
  }

  function WaitingOf(b: Pending, k: nat): nat {
    if b.job == Some(k) then |b.lines| else 0
  }

  /** Sent or pending: every line of every job that was added is accounted for once. */
  ghost predicate Tiled(queued: seq<nat>, b: Pending, sent: seq<Batch>) {
    && Contiguous(sent)
    && (b.lines != [] ==>
          && b.job.Some? && b.first.Some? && b.job.value < |queued|
          && b.first.value + |b.lines| == queued[b.job.value])
    && (forall k :: 0 <= k < |queued| ==> EndOf(sent, k) + WaitingOf(b, k) == queued[k])
  }

  lemma {:induction false} ContiguousSnoc(sent: seq<Batch>, batch: Batch)
    requires Contiguous(sent) && batch.first == EndOf(sent, batch.job)
    ensures Contiguous(sent + [batch])
  {
    var all := sent + [batch];
    forall m | 0 <= m < |all|
      ensures all[m].first == EndOf(all[..m], all[m].job)
    {
      assert all[..m] == sent[..m];
      assert sent[..|sent|] == sent;
    }
  }

  lemma FlushTiled(queued: seq<nat>, b: Pending, sent: seq<Batch>)
    requires Tiled(queued, b, sent)
    ensures Tiled(queued, Flushed(b), sent + Due(b))
  {
    if b.lines == [] {
      assert sent + Due(b) == sent;
    } else {
      var batch := Batch(b.job.value, b.first.value, b.lines);
      assert EndOf(sent, b.job.value) + WaitingOf(b, b.job.value) == queued[b.job.value];
      ContiguousSnoc(sent, batch);
      hide Contiguous, EndOf;
      forall k | 0 <= k < |queued|
        ensures EndOf(sent + [batch], k) + WaitingOf(Flushed(b), k) == queued[k]
      {
        EndOfSnoc(sent, batch, k);
      }
      assert Due(b) == [batch];
    }
  }

  lemma QueueTiled(queued: seq<nat>, b: Pending, sent: seq<Batch>, k: nat, line: LogLine)
    requires Fits(b) && Tiled(queued, b, sent) && k < |queued| && line.seqno == queued[k]
    requires b.job.Some? && b.job.value != k ==> b.lines == []
    ensures Tiled(queued[k := queued[k] + 1], Queued(b, k, line), sent)
  {
    hide SizeOf, Shortened, Contiguous, EndOf, Full;
    var b' := Queued(b, k, line);
    forall j | 0 <= j < |queued|
      ensures EndOf(sent, j) + WaitingOf(b', j) == queued[k := queued[k] + 1][j]
    {
      assert EndOf(sent, j) + WaitingOf(b, j) == queued[j];
    }
  }

  lemma FlushedFirst(b: Pending, k: nat, line: LogLine)
    requires Fits(b)
    ensures Fits(Flushed(b)) && Queued(Flushed(b), k, line).first.Some?
    ensures b.job.Some? && b.job.value != k ==> Queued(Flushed(b), k, line) == Queued(b, k, line)
    ensures b.job.Some? && b.job.value != k ==> Flushed(b).lines == []
  {
    hide Shortened;
  }

  /** Adding is: flush if the job changes, queue, flush if full. */
  lemma AddUnfolds(b: Pending, k: nat, line: LogLine, sent: seq<Batch>)
    ensures var switch := b.job.Some? && b.job.value != k;
      var sent1 := if switch then sent + Due(b) else sent;
      var b2 := Queued(b, k, line);
      var (b', out) := Add(b, k, line);
      && b' == (if Full(b2) then Flushed(b2) else b2)
      && sent + out == (if Full(b2) then sent1 + Due(b2) else sent1)
  {
    hide Due, Queued, Flushed, Full;
  }

  lemma AddTiled(queued: seq<nat>, b: Pending, sent: seq<Batch>, k: nat, line: LogLine)
    requires Fits(b) && Tiled(queued, b, sent) && k < |queued| && line.seqno == queued[k]
    ensures var (b', out) := Add(b, k, line);
      Tiled(queued[k := queued[k] + 1], b', sent + out)
  {
    hide SUFFIX, Shortened, Clip, SizeOf;
    FlushTiled(queued, b, sent);
    FlushedFirst(b, k, line);
    AddUnfolds(b, k, line, sent);
    hide Tiled, Fits, Due, Flushed, Queued, Full, Add;
    var switch := b.job.Some? && b.job.value != k;
    var sent1 := if switch then sent + Due(b) else sent;
    QueueTiled(queued, if switch then Flushed(b) else b, sent1, k, line);
    FlushTiled(queued[k := queued[k] + 1], Queued(b, k, line), sent1);
  }

  lemma {:induction false} NotYet(sent: seq<Batch>, n: nat)
    requires forall m :: 0 <= m < |sent| ==> sent[m].job < n
    ensures EndOf(sent, n) == 0
  {
    if sent != [] {
      NotYet(sent[..|sent| - 1], n);
    }
  }

  lemma NewJobTiled(queued: seq<nat>, b: Pending, sent: seq<Batch>)
    requires Tiled(queued, b, sent) && (b.lines == [] || (b.job.Some? && b.job.value < |queued|))
    requires forall m :: 0 <= m < |sent| ==> sent[m].job < |queued|
    ensures Tiled(queued + [0], b, sent)
  {
    NotYet(sent, |queued|);
    hide Contiguous, EndOf;
  }

  lemma NextTiled(st: State, step: Step)
    requires Truthful(st) && Tiled(st.queued, st.batcher, st.sent) && Next(st, step).Some?
    ensures var st' := Next(st, step).value; Tiled(st'.queued, st'.batcher, st'.sent)
  {
    assert Fits(st.batcher);
    if step.Queue? {
      var line := Numbered(st.hist[step.k])[st.queued[step.k]];
      AddTiled(st.queued, st.batcher, st.sent, step.k, line);
    }
    if step.Flush? {
      FlushTiled(st.queued, st.batcher, st.sent);
    }
    if step.NewJob? {
      assert forall m :: 0 <= m < |st.sent| ==> BatchTrue(st.hist, st.sent[m]);
      NewJobTiled(st.queued, st.batcher, st.sent);
    }
    hide Truthful, Fits, Add, Tiled, Flushed, Due, Served, OnReply, OnBatch, Numbered;
  }

  /** What a client shows that gets every batch once, in order, from the start, and never asks. */
  function Watched(sent: seq<Batch>, job: nat): seq<Shown> {
    if sent == [] then [] else OnBatch(Watched(sent[..|sent| - 1], job), job, sent[|sent| - 1])
  }

  lemma {:induction false} WatchedReaches(sent: seq<Batch>, job: nat)
    requires Contiguous(sent)
    ensures |Watched(sent, job)| == EndOf(sent, job)
  {
    if sent != [] {
      var before := sent[..|sent| - 1];
      forall m | 0 <= m < |before|
        ensures before[m].first == EndOf(before[..m], before[m].job)
      {
        assert before[..m] == sent[..m];
      }
      WatchedReaches(before, job);
    }
  }

  /** Every place shows its line, in full or shortened; nothing is marked as forgotten. */
  ghost predicate ShowsLines(hist: seq<Line>, view: seq<Shown>) {
    ViewTrue(hist, 0, view) && forall i :: 0 <= i < |view| ==> view[i].Shown?
  }

  lemma {:induction false} WatchedTrue(hist: seq<seq<Line>>, sent: seq<Batch>, job: nat)
    requires forall m :: 0 <= m < |sent| ==> BatchTrue(hist, sent[m])
    ensures ShowsLines(if job < |hist| then hist[job] else [], Watched(sent, job))
  {
    hide Copies, PlaceTrue;
    if sent != [] {
      var before, last := sent[..|sent| - 1], sent[|sent| - 1];
      WatchedTrue(hist, before, job);
      assert BatchTrue(hist, last);
      if last.job == job && last.first == |Watched(before, job)| {
        DeliverTruthful(hist[job], 0, Watched(before, job), last.first, last.lines);
      }
    }
  }

  /** In every run, the batches of a job join up: a client that loses none of them shows the
      lines of the job as they were printed, without a mark, up to where the batches reach;
      after a flush these are all lines that were logged. */
  lemma {:induction false} NoLossNoGap(job: nat, maxlen: nat, steps: seq<Step>)
    requires Run(Next, Initial(job, maxlen), steps).Some?
    ensures var st := Run(Next, Initial(job, maxlen), steps).value;
      && Contiguous(st.sent)
      && ShowsLines(if job < |st.hist| then st.hist[job] else [], Watched(st.sent, job))
      && |Watched(st.sent, job)| == EndOf(st.sent, job)
      && (job < |st.queued| && st.batcher.lines == [] ==> |Watched(st.sent, job)| == st.queued[job])
  {
    forall st, step | Truthful(st) && Tiled(st.queued, st.batcher, st.sent) && Next(st, step).Some?
      ensures Truthful(Next(st, step).value)
      ensures var st' := Next(st, step).value; Tiled(st'.queued, st'.batcher, st'.sent)
    {
      NextTruthful(st, step);
      NextTiled(st, step);
    }
    RunKeeps(Next, st => Truthful(st) && Tiled(st.queued, st.batcher, st.sent), step => true,
             Initial(job, maxlen), steps);
    var st := Run(Next, Initial(job, maxlen), steps).value;
    WatchedReaches(st.sent, job);
    WatchedTrue(st.hist, st.sent, job);
    if job < |st.queued| && st.batcher.lines == [] {
      assert EndOf(st.sent, job) + WaitingOf(st.batcher, job) == st.queued[job];
    }
  }
}
