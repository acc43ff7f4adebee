/** The log of one job: a ring that forgets its oldest lines and never renumbers the rest. */
module LogRing {

  /** A line as the job printed it, and as it is kept: with its sequence number. */
  datatype Line = Line(stream: string, text: string)

  datatype LogLine = LogLine(seqno: nat, stream: string, text: string)

  /** Everything a job ever printed, numbered from 0. */
  function Numbered(hist: seq<Line>): (lines: seq<LogLine>)
    ensures |lines| == |hist|
    ensures forall i :: 0 <= i < |hist| ==> lines[i] == LogLine(i, hist[i].stream, hist[i].text)
  {
    if hist == [] then []
    else
      var n := |hist| - 1;
      Numbered(hist[..n]) + [LogLine(n, hist[n].stream, hist[n].text)]
  }

  /** How many lines a ring of size `maxlen` has forgotten after `n`. */
  function Forgotten(n: nat, maxlen: nat): nat {
    if n > maxlen then n - maxlen else 0
  }

  function Max(a: nat, b: nat): nat {
    if a < b then b else a
  }

  /** What a query from `from` is answered: the lines, and the number of the first of them. */
  datatype Answer = Answer(lines: seq<LogLine>, start: nat, next: nat)

  /** Everything printed from `from` on, except what the ring has forgotten. */
  function Served(hist: seq<Line>, maxlen: nat, from: nat): Answer {
    var start := Max(from, Forgotten(|hist|, maxlen));
    Answer(if start <= |hist| then Numbered(hist)[start..] else [], start, |hist|)
  }

  class JobLog {
    const maxlen: nat
    var log: seq<LogLine>
    var nextSeq: nat
    var dropped: nat
    /** Everything ever printed. */
    ghost var hist: seq<Line>

    ghost predicate Valid()
      reads this
    {
      && nextSeq == |hist|
      && dropped == Forgotten(|hist|, maxlen)
      && log == Numbered(hist)[dropped..]
    }

    constructor (maxlen: nat)
      ensures Valid() && hist == [] && this.maxlen == maxlen
    {
      this.maxlen, log, nextSeq, dropped, hist := maxlen, [], 0, 0, [];
    }

    method Append(stream: string, text: string) returns (line: LogLine)
      requires Valid()
      modifies this
      ensures Valid() && hist == old(hist) + [Line(stream, text)]
      ensures line == LogLine(|old(hist)|, stream, text)
    {
      ghost var before := Numbered(hist);
      line := LogLine(nextSeq, stream, text);
      hist := hist + [Line(stream, text)];
      assert Numbered(hist) == before + [line];
      nextSeq := nextSeq + 1;
      if |log| == maxlen {
        dropped := dropped + 1;
      }
      log := log + [line];
      if |log| > maxlen {
        log := log[1..];
      }
    }

    /** Every line from `from` on that is still there, and from where the answer really starts. */
    method LogSince(from: nat) returns (lines: seq<LogLine>, start: nat, next: nat)
      requires Valid()
      ensures Answer(lines, start, next) == Served(hist, maxlen, from)
      ensures from <= |hist| ==> start + |lines| == next
    {
      lines, next := [], nextSeq;
      if log == [] {
        start := Max(from, dropped);
        return;
      }
      start := Max(from, log[0].seqno);
      ghost var skipped := if start - dropped <= |log| then start - dropped else |log|;
      for i := 0 to |log|
        invariant lines == if i <= skipped then [] else log[skipped..i]
      {
        if log[i].seqno >= start {
          lines := lines + [log[i]];
        }
      }
      if start <= |hist| {
        assert log[skipped..|log|] == log[skipped..] == Numbered(hist)[dropped..][skipped..] == Numbered(hist)[start..];
      }
    }

    /** The last few lines, for a post-mortem. */
    method Tail(limit: int) returns (lines: seq<LogLine>)
      requires Valid()
      ensures |lines| == if limit <= 0 then 0 else if limit < |log| then limit else |log|
      ensures lines == Numbered(hist)[|hist| - |lines|..]
    {
      if limit <= 0 {
        lines := [];
      } else if limit < |log| {
        lines := log[|log| - limit..];
      } else {
        lines := log;
      }
    }
  }

  /** An answer to a query from within the log is complete: it reaches to the end, it says how
      many lines were forgotten on the way there, and each of its lines is the one printed. */
  lemma ServedIsExact(hist: seq<Line>, maxlen: nat, from: nat)
    requires from <= |hist|
    ensures var answer := Served(hist, maxlen, from);
      && from <= answer.start == Max(from, Forgotten(|hist|, maxlen))
      && answer.start + |answer.lines| == |hist|
      && (answer.start > from <==> from < Forgotten(|hist|, maxlen))
      && (answer.start > from ==> answer.start == Forgotten(|hist|, maxlen))
      && (forall i :: 0 <= i < |answer.lines| ==>
            var line := hist[answer.start + i];
            answer.lines[i] == LogLine(answer.start + i, line.stream, line.text))
      && |answer.lines| <= maxlen
  {
  }
}
