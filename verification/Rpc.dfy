/** Who waits for which answer, and how many answers a request gets. */
module Rpc {
  import opened Runs
  import opened Text

  // ---- outbound calls: every future is settled at most once ----

  /** Where the future of a call is: created, in the table of pending calls, in the hands of the
      one who took it out (the reader with an answer, or somebody failing all pending calls), or
      out of everybody's reach. */
  datatype Place = Created | Pending | Answering(result: Reply) | Failing | Gone

  datatype Reply = Result(value: int) | Error(code: int)

  /** A call: where its future is, what it was settled with, how often, and whether its caller
      still waits. */
  datatype Call = Call(place: Place, value: Maybe<Reply>, settled: nat, waiting: bool)

  datatype State = State(calls: seq<Call>)

  datatype Step =
    | Allocate
    | Register(id: nat)
    | SendFails(id: nat)
    | TimesOut(id: nat)
    | Resolve(id: nat, reply: Reply)
    | Settle(id: nat)
    | FailAll
    | FailOne(id: nat)
    | Collect(id: nat)

  /** What a lost or closed connection is reported as. */
  const LOST: Reply := Error(-32000)

  /** One call at a step about it. Ids are list positions; popping an id that is not in the table
      does nothing. */
  function Act(c: Call, step: Step): Maybe<Call> {
    match step
    case Register(_) => if c.place.Created? then Some(c.(place := Pending)) else None
    case SendFails(_) =>
      if c.place.Created? || !c.waiting then None
      else Some(c.(place := if c.place.Pending? then Gone else c.place, waiting := false))
    case TimesOut(_) =>
      if c.place.Created? || !c.waiting || c.settled > 0 then None
      else Some(c.(place := if c.place.Pending? then Gone else c.place, waiting := false))
    case Resolve(_, reply) => Some(if c.place.Pending? then c.(place := Answering(reply)) else c)
    case Settle(_) =>
      if !c.place.Answering? then None
      else Some(c.(place := Gone, value := Some(c.place.result), settled := c.settled + 1))
    case FailOne(_) =>
      if !c.place.Failing? then None
      else if c.settled > 0 then Some(c.(place := Gone))
      else Some(c.(place := Gone, value := Some(LOST), settled := c.settled + 1))
    case Collect(_) => if c.waiting && c.settled > 0 then Some(c.(waiting := false)) else None
    case Allocate => None
    case FailAll => None
  }

  /** The swap of the table: all that is pending goes to the one who fails it. */
  function Swapped(calls: seq<Call>): (r: seq<Call>)
    ensures |r| == |calls|
    ensures forall i :: 0 <= i < |calls| ==>
      r[i] == if calls[i].place.Pending? then calls[i].(place := Failing) else calls[i]
  {
    if calls == [] then []
    else
      var c := calls[|calls| - 1];
      Swapped(calls[..|calls| - 1]) + [if c.place.Pending? then c.(place := Failing) else c]
  }

  function Next(st: State, step: Step): Maybe<State> {
    if step.Allocate? then Some(State(st.calls + [Call(Created, None, 0, true)]))
    else if step.FailAll? then Some(State(Swapped(st.calls)))
    else if step.id >= |st.calls| then None
    else
      match Act(st.calls[step.id], step)
      case Some(c) => Some(State(st.calls[step.id := c]))
      case None => None
  }

  /** A future that can still be settled has not been, and one that has been knows its value. */
  predicate Fits(c: Call) {
    && c.settled <= 1
    && (c.settled == 0 <==> c.value.None?)
    && (c.settled > 0 ==> c.place.Gone?)
  }

  ghost predicate Sound(st: State) {
    forall i :: 0 <= i < |st.calls| ==> Fits(st.calls[i])
  }

  /** The value a caller may still get, or has got, once it is there. */
  ghost predicate Kept(st: State, id: nat, value: Reply) {
    Sound(st) && id < |st.calls| && st.calls[id].value == Some(value)
  }

  lemma NextSound(st: State, step: Step)
    requires Sound(st) && Next(st, step).Some?
    ensures Sound(Next(st, step).value)
  {
    if !step.Allocate? && !step.FailAll? {
      ActFits(st.calls[step.id], step);
      hide Act, Fits;
    }
  }

  lemma ActFits(c: Call, step: Step)
    requires Fits(c) && Act(c, step).Some?
    ensures Fits(Act(c, step).value)
    ensures c.value.Some? ==> Act(c, step).value.value == c.value
    ensures step.Settle? ==> c.settled == 0 && Act(c, step).value.value == Some(c.place.result)
  {
  }

  /** Whatever answers, timeouts, lost connections and closings race: no future is settled twice,
      and one that was settled keeps its value. */
  lemma {:induction false} SettledAtMostOnce(steps: seq<Step>)
    requires Run(Next, State([]), steps).Some?
    ensures Sound(Run(Next, State([]), steps).value)
    ensures var calls := Run(Next, State([]), steps).value.calls;
            forall id :: 0 <= id < |calls| ==> calls[id].settled <= 1
  {
    forall st, step | Sound(st) && Next(st, step).Some?
      ensures Sound(Next(st, step).value)
    {
      NextSound(st, step);
    }
    RunKeeps(Next, st => Sound(st), step => true, State([]), steps);
  }

  lemma {:induction false} ValueStays(st: State, steps: seq<Step>, id: nat)
    requires Sound(st) && id < |st.calls| && st.calls[id].value.Some? && Run(Next, st, steps).Some?
    ensures Kept(Run(Next, st, steps).value, id, st.calls[id].value.value)
  {
    var value := st.calls[id].value.value;
    forall s, step | Kept(s, id, value) && Next(s, step).Some?
      ensures Kept(Next(s, step).value, id, value)
    {
      NextSound(s, step);
      if !step.Allocate? && !step.FailAll? {
        ActFits(s.calls[step.id], step);
        hide Act, Sound;
      }
    }
    RunKeeps(Next, s => Kept(s, id, value), step => true, st, steps);
  }

  // ---- from the call to its answer ----

  /** A new call has no value yet and waits; it can be entered in the table, once. */
  lemma CallBegins(st: State)
    ensures Next(st, Allocate).Some?
    ensures var st', id := Next(st, Allocate).value, |st.calls|;
      && |st'.calls| == id + 1 && st'.calls[..id] == st.calls
      && st'.calls[id].waiting && st'.calls[id].value.None? && !st'.calls[id].place.Pending?
      && Next(st', Register(id)).Some?
      && (var st2 := Next(st', Register(id)).value;
          && st2.calls[..id] == st.calls && st2.calls[id] == st'.calls[id].(place := Pending)
          && Next(st2, Register(id)).None?)
  {
    hide Swapped;
  }

  /** On the way to the future, or there. */
  ghost predicate Answered(st: State, id: nat, reply: Reply) {
    && Sound(st) && id < |st.calls|
    && (st.calls[id].place == Answering(reply) || st.calls[id].value == Some(reply))
  }

  lemma NextAnswered(st: State, step: Step, id: nat, reply: Reply)
    requires Answered(st, id, reply) && Next(st, step).Some?
    ensures Answered(Next(st, step).value, id, reply)
    ensures step == Settle(id) ==> Next(st, step).value.calls[id].value == Some(reply)
  {
    NextSound(st, step);
  }

  lemma AnsweringSettles(st: State, id: nat)
    requires id < |st.calls| && st.calls[id].place.Answering?
    ensures Next(st, Settle(id)).Some?
  {
  }

  /** An answer that arrives while its call is in the table is what the call gets, whatever else happens, as soon as
      it is handed over, and it can be at any time; one that arrives otherwise changes nothing. */
  lemma {:induction false} AnswerArrives(st: State, id: nat, reply: Reply, steps: seq<Step>)
    requires Sound(st) && id < |st.calls| && Next(st, Resolve(id, reply)).Some?
    requires Run(Next, Next(st, Resolve(id, reply)).value, steps).Some?
    ensures !st.calls[id].place.Pending? ==> Next(st, Resolve(id, reply)).value == st
    ensures st.calls[id].place.Pending? ==>
      var end := Run(Next, Next(st, Resolve(id, reply)).value, steps).value;
      && id < |end.calls|
      && (end.calls[id].value == Some(reply) || Next(end, Settle(id)).Some?)
      && (Settle(id) in steps ==> end.calls[id].value == Some(reply))
  {
    var st' := Next(st, Resolve(id, reply)).value;
    NextSound(st, Resolve(id, reply));
    if st.calls[id].place.Pending? {
      AnsweredInTime(st', steps, id, reply);
    } else {
      assert st.calls[id := st.calls[id]] == st.calls;
    }
  }

  lemma {:induction false} AnsweredInTime(st: State, steps: seq<Step>, id: nat, reply: Reply)
    requires Answered(st, id, reply) && Run(Next, st, steps).Some?
    ensures var end := Run(Next, st, steps).value;
      && id < |end.calls|
      && (end.calls[id].value == Some(reply) || Next(end, Settle(id)).Some?)
      && (Settle(id) in steps ==> end.calls[id].value == Some(reply))
    decreases |steps|
  {
    hide Next, Sound;
    if steps == [] {
      if st.calls[id].place.Answering? {
        AnsweringSettles(st, id);
      }
    } else {
      var st' := Next(st, steps[0]).value;
      NextAnswered(st, steps[0], id, reply);
      AnsweredInTime(st', steps[1..], id, reply);
      if steps[0] == Settle(id) {
        ValueStays(st', steps[1..], id);
      }
    }
  }

  /** What is on its way to a future, or there, was said by the peer, or is the loss of the connection. */
  ghost predicate Told(c: Call, id: nat, steps: seq<Step>) {
    && (c.place.Answering? ==> Resolve(id, c.place.result) in steps)
    && (c.value.Some? ==> c.value.value == Error(-32000) || Resolve(id, c.value.value) in steps)
  }

  lemma NextTold(st: State, step: Step, steps: seq<Step>)
    requires forall id :: 0 <= id < |st.calls| ==> Told(st.calls[id], id, steps)
    requires Next(st, step).Some?
    ensures var st' := Next(st, step).value;
            forall id :: 0 <= id < |st'.calls| ==> Told(st'.calls[id], id, steps + [step])
  {
    var st' := Next(st, step).value;
    forall id | 0 <= id < |st'.calls| ensures Told(st'.calls[id], id, steps + [step]) {
      assert step in steps + [step];
      assert forall s :: s in steps ==> s in steps + [step];
    }
  }

  /** No call gets a value that nobody sent it. */
  lemma {:induction false} NothingIsInvented(st: State, past: seq<Step>, steps: seq<Step>)
    requires Run(Next, st, steps).Some?
    requires forall id :: 0 <= id < |st.calls| ==> Told(st.calls[id], id, past)
    ensures var end := Run(Next, st, steps).value;
            forall id :: 0 <= id < |end.calls| ==> Told(end.calls[id], id, past + steps)
    decreases |steps|
  {
    hide Next, Told;
    if steps == [] {
      assert past + steps == past;
    } else {
      NextTold(st, steps[0], past);
      NothingIsInvented(Next(st, steps[0]).value, past + [steps[0]], steps[1..]);
      assert past + [steps[0]] + steps[1..] == past + steps;
    }
  }

  /** Nobody waits for it and nobody can reach it. */
  ghost predicate GivenUp(st: State, id: nat) {
    && Sound(st) && id < |st.calls|
    && st.calls[id].place.Gone? && st.calls[id].value.None? && !st.calls[id].waiting
  }

  lemma NextGivenUp(st: State, step: Step, id: nat)
    requires GivenUp(st, id) && Next(st, step).Some?
    ensures GivenUp(Next(st, step).value, id)
  {
    NextSound(st, step);
  }

  /** A caller that waits is done in exactly one of two ways: with a value, if there is one, or by timing out, if there
      is none. A call that times out, or could not be sent, while it is in the table never gets a value. */
  lemma {:induction false} WaitEnds(st: State, id: nat, failed: bool, steps: seq<Step>)
    requires Sound(st) && id < |st.calls| && st.calls[id].waiting && !st.calls[id].place.Created?
    ensures Next(st, Collect(id)).Some? <==> st.calls[id].value.Some?
    ensures Next(st, TimesOut(id)).Some? <==> st.calls[id].value.None?
    ensures st.calls[id].value.Some? ==>
      Next(st, Collect(id)).value.calls[id] == st.calls[id].(waiting := false)
    ensures st.calls[id].place.Pending? ==>
      && Next(st, SendFails(id)).Some?
      && (var gone := Next(st, if failed then SendFails(id) else TimesOut(id)).value;
          Run(Next, gone, steps).Some? ==> GivenUp(Run(Next, gone, steps).value, id))
  {
    if st.calls[id].place.Pending? {
      var step := if failed then SendFails(id) else TimesOut(id);
      NextSound(st, step);
      var gone := Next(st, step).value;
      assert GivenUp(gone, id);
      if Run(Next, gone, steps).Some? {
        forall s, t | GivenUp(s, id) && Next(s, t).Some? ensures GivenUp(Next(s, t).value, id) {
          NextGivenUp(s, t, id);
        }
        hide Next, GivenUp;
        RunKeeps(Next, s => GivenUp(s, id), t => true, gone, steps);
      }
    }
  }

  /** A caller that is done stays so. */
  lemma DoneWaiting(st: State, step: Step, id: nat)
    requires id < |st.calls| && !st.calls[id].waiting && Next(st, step).Some?
    ensures id < |Next(st, step).value.calls| && !Next(st, step).value.calls[id].waiting
    ensures step != Collect(id) && step != TimesOut(id) && step != SendFails(id)
  {
  }

  /** In the hands of the one who fails it, or failed. */
  ghost predicate Doomed(st: State, id: nat) {
    && Sound(st) && id < |st.calls|
    && (st.calls[id].place.Failing? || st.calls[id].value == Some(LOST))
  }

  /** Whatever else happens, such a call stays so until it is failed, which it can be at any
      time. */
  lemma NextDoomed(st: State, step: Step, id: nat)
    requires Doomed(st, id) && Next(st, step).Some?
    ensures Doomed(Next(st, step).value, id)
    ensures step == FailOne(id) ==> Next(st, step).value.calls[id].value == Some(LOST)
  {
    NextSound(st, step);
  }

  lemma {:induction false} FailedInTime(st: State, steps: seq<Step>, id: nat)
    requires Doomed(st, id) && Run(Next, st, steps).Some?
    ensures var end := Run(Next, st, steps).value;
      && Doomed(end, id)
      && (end.calls[id].value == Some(LOST) || Next(end, FailOne(id)).Some?)
      && (FailOne(id) in steps ==> end.calls[id].value == Some(LOST))
    decreases |steps|
  {
    hide Next, Sound;
    if steps == [] {
      FailingCanFail(st, id);
    } else {
      var st' := Next(st, steps[0]).value;
      NextDoomed(st, steps[0], id);
      FailedInTime(st', steps[1..], id);
      if steps[0] == FailOne(id) {
        ValueStays(st', steps[1..], id);
      }
    }
  }

  lemma FailingCanFail(st: State, id: nat)
    requires id < |st.calls|
    ensures st.calls[id].place.Failing? ==> Next(st, FailOne(id)).Some?
  {
  }

  /** Once the table has been swapped, every call that was pending is failed: after any steps of
      anybody, among which each of them has been dealt with once, in whatever order; and one
      that has not been dealt with yet still can be. */
  lemma {:induction false} NobodyIsForgotten(st: State, steps: seq<Step>)
    requires Sound(st) && Run(Next, st, [FailAll] + steps).Some?
    ensures var end := Run(Next, st, [FailAll] + steps).value;
      forall id :: 0 <= id < |st.calls| && st.calls[id].place.Pending? ==>
        && id < |end.calls|
        && (end.calls[id].value == Some(Error(-32000)) || Next(end, FailOne(id)).Some?)
        && (FailOne(id) in steps ==> end.calls[id].value == Some(Error(-32000)))
  {
    var st' := Next(st, FailAll).value;
    NextSound(st, FailAll);
    assert ([FailAll] + steps)[1..] == steps;
    assert Run(Next, st, [FailAll] + steps) == Run(Next, st', steps);
    forall id | 0 <= id < |st.calls| && st.calls[id].place.Pending?
      ensures var end := Run(Next, st', steps).value;
        && id < |end.calls|
        && (end.calls[id].value == Some(LOST) || Next(end, FailOne(id)).Some?)
        && (FailOne(id) in steps ==> end.calls[id].value == Some(LOST))
    {
      FailedInTime(st', steps, id);
    }
  }

  // ---- inbound requests: how many responses ----

  /** How a handler ends. `encodes`: what is to be sent can be written as JSON. An exception other
      than the tool's own may bring a description of itself, and fail to give it. */
  datatype Outcome =
    | Returns(encodes: bool)
    | RaisesRpc(encodes: bool)
    | RaisesOther(describes: bool, describing: bool, encodes: bool)

  /** An inbound message as far as it decides what happens: `id` is absent also when it is null.
      `pool`, `accepts`: there is a pool of workers, and it takes the request. */
  datatype Inbound = Inbound(
    isMethod: bool, id: Maybe<nat>, pool: bool, accepts: bool, outcome: Outcome, sends: bool)

  datatype Response = Response(id: nat, ok: bool)

  /** Sending fails if the message cannot be encoded, or the socket is gone; both are only logged. */
  function Sent(id: nat, ok: bool, encodes: bool, sends: bool): seq<Response> {
    if encodes && sends then [Response(id, ok)] else []
  }

  function Served(id: nat, outcome: Outcome, sends: bool): seq<Response> {
    match outcome
    case Returns(encodes) => Sent(id, true, encodes, sends)
    case RaisesRpc(encodes) => Sent(id, false, encodes, sends)
    case RaisesOther(describes, describing, encodes) =>
      if describes && !describing then [] else Sent(id, false, encodes, sends)
  }

  /** Only a request, with a method and an id, is answered. */
  function Handled(m: Inbound): seq<Response> {
    if !m.isMethod || m.id.None? then []
    else if !m.pool then Sent(m.id.value, false, true, m.sends)
    else if !m.accepts then []
    else Served(m.id.value, m.outcome, m.sends)
  }

  predicate IsRequest(m: Inbound) {
    m.isMethod && m.id.Some?
  }

  /** What has to go well for a request to be answered. */
  predicate Answerable(m: Inbound) {
    && m.sends
    && (m.pool ==> m.accepts && m.outcome.encodes
                   && (m.outcome.RaisesOther? && m.outcome.describes ==> m.outcome.describing))
  }

  function Answers(inbound: seq<Inbound>): seq<Response> {
    if inbound == [] then [] else Answers(inbound[..|inbound| - 1]) + Handled(inbound[|inbound| - 1])
  }

  function RequestsFor(inbound: seq<Inbound>, id: nat, answerable: bool): nat {
    if inbound == [] then 0
    else
      var m := inbound[|inbound| - 1];
      RequestsFor(inbound[..|inbound| - 1], id, answerable)
      + if IsRequest(m) && m.id == Some(id) && (answerable ==> Answerable(m)) then 1 else 0
  }

  function ResponsesFor(responses: seq<Response>, id: nat): nat {
    if responses == [] then 0
    else ResponsesFor(responses[..|responses| - 1], id) + if responses[|responses| - 1].id == id then 1 else 0
  }

  lemma {:induction false} ResponsesConcat(a: seq<Response>, b: seq<Response>, id: nat)
    ensures ResponsesFor(a + b, id) == ResponsesFor(a, id) + ResponsesFor(b, id)
  {
    if b == [] {
      assert a + b == a;
    } else {
      assert (a + b)[..|a + b| - 1] == a + b[..|b| - 1];
      ResponsesConcat(a, b[..|b| - 1], id);
    }
  }

  lemma {:induction false} ResponsesOne(r: Response, id: nat)
    ensures ResponsesFor([r], id) == if r.id == id then 1 else 0
  {
    assert [r][..0] == [];
  }

  lemma {:induction false} HandledOnce(m: Inbound, id: nat)
    ensures ResponsesFor(Handled(m), id) == if IsRequest(m) && m.id == Some(id) && Answerable(m) then 1 else 0
  {
    if IsRequest(m) {
      ResponsesOne(Response(m.id.value, true), id);
      ResponsesOne(Response(m.id.value, false), id);
    }
  }

  /** Per id, there are exactly as many responses as requests for which encoding, description and
      sending went well, so never more than requests; a notification or an answer gets none. */
  lemma {:induction false} OneResponsePerRequest(inbound: seq<Inbound>, id: nat)
    ensures ResponsesFor(Answers(inbound), id) == RequestsFor(inbound, id, true)
    ensures RequestsFor(inbound, id, true) <= RequestsFor(inbound, id, false)
  {
    if inbound != [] {
      var init, m := inbound[..|inbound| - 1], inbound[|inbound| - 1];
      OneResponsePerRequest(init, id);
      ResponsesConcat(Answers(init), Handled(m), id);
      HandledOnce(m, id);
      hide Handled, Answerable, ResponsesFor;
    }
  }

  ghost predicate IsFor(m: Inbound, r: Response) {
    m.isMethod && m.id == Some(r.id) && (r.ok <==> m.pool && m.accepts && m.outcome.Returns?)
  }

  /** A response is for the request it answers, and says that all went well exactly if a worker took that request and
      its handler returned. */
  lemma {:induction false} ResponsesAreTrue(inbound: seq<Inbound>, r: Response)
    requires r in Answers(inbound)
    ensures exists i :: 0 <= i < |inbound| && IsFor(inbound[i], r)
  {
    var init, m := inbound[..|inbound| - 1], inbound[|inbound| - 1];
    if r in Answers(init) {
      ResponsesAreTrue(init, r);
      var i :| 0 <= i < |init| && IsFor(init[i], r);
      assert inbound[i] == init[i];
    } else {
      assert r in Handled(m) && IsFor(m, r);
    }
  }

  /** A handler that returns normally can still leave its caller without any answer. */
  lemma UnencodableResultIsNotAnswered(id: nat)
    ensures var m := Inbound(true, Some(id), true, true, Returns(false), true);
      IsRequest(m) && Handled(m) == []
  {
  }
}
