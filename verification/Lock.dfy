/** The operation lock: a kernel lock, and a record on disk. */
module Lock {
  import opened Runs
  import opened Text

  // The kernel lock dies with its owner, the record does not. An actor is one use of the lock file: an
  // acquisition, or a query who has it.

  /** What `acquire` writes: who, and which acquisition. */
  datatype Record = Record(pid: nat, stamp: nat)

  datatype Phase =
    | Dead
    | Idle
    | Trying
    | Retrying(first: Maybe<nat>)
    | Owning
    | Emptied
    | Hold(stamp: nat)
    | Leaving
    | Looking(record: Record)
    | Probing
    | Wiped

  /** What an actor was told: by `holder`, or by the `BusyError` of `acquire`. `flock` is the
      owner of the kernel lock at the moment of the probe, `sure` that the file could be opened. */
  datatype Event =
    | Reported(p: nat, record: Maybe<Record>, sure: bool, flock: Maybe<nat>)
    | Refused(p: nat, first: Maybe<nat>, second: Maybe<nat>)

  datatype World = World(flock: Maybe<nat>, file: Maybe<Record>, next: nat, events: seq<Event>)

  datatype State = State(world: World, actors: seq<Phase>)

  /** `works = false` is an error from the operating system. */
  datatype Action =
    | Boot
    | Crash
    | Begin
    | Attempt
    | Truncate(works: bool)
    | WriteRecord(flushed: bool, works: bool)
    | Empty(works: bool)
    | Unlock
    | Read
    | Probe(opens: bool)
    | Wipe(works: bool)
    | Unprobe

  datatype Step = By(p: nat, action: Action)

  datatype Move = Move(world: World, phase: Phase)

  predicate Owns(ph: Phase) {
    ph.Owning? || ph.Emptied? || ph.Hold? || ph.Leaving? || ph.Probing? || ph.Wiped?
  }

  /** Closing the file, or dying, drops the kernel lock. */
  function Closed(w: World, p: nat): World {
    if w.flock == Some(p) then w.(flock := None) else w
  }

  /** `acquire` with its one retry, and `release`. */
  function Hand(w: World, p: nat, ph: Phase, action: Action): Maybe<Move> {
    match ph
    case Trying =>
      if !action.Attempt? then None
      else if w.flock.None? then Some(Move(w.(flock := Some(p)), Owning))
      else Some(Move(w, Retrying(w.flock)))
    case Retrying(first) =>
      if !action.Attempt? then None
      else if w.flock.None? then Some(Move(w.(flock := Some(p)), Owning))
      else Some(Move(w.(events := w.events + [Refused(p, first, w.flock)]), Idle))
    case Owning =>
      if !action.Truncate? then None
      else if action.works then Some(Move(w.(file := None), Emptied))
      else Some(Move(Closed(w, p), Idle))
    case Emptied =>
      if !action.WriteRecord? then None
      else
        var w' := w.(file := if action.flushed then Some(Record(p, w.next)) else w.file, next := w.next + 1);
        if action.flushed && action.works then Some(Move(w', Hold(w.next))) else Some(Move(Closed(w', p), Idle))
    case Hold(_) =>
      if !action.Empty? then None
      else Some(Move(if action.works then w.(file := None) else w, Leaving))
    case Leaving =>
      if !action.Unlock? then None else Some(Move(Closed(w, p), Idle))
    case _ => None
  }

  /** `holder`: read the record, then see whether anybody still has the lock. */
  function Ask(w: World, p: nat, ph: Phase, action: Action): Maybe<Move> {
    match ph
    case Idle =>
      if !action.Read? then None
      else if w.file.Some? then Some(Move(w, Looking(w.file.value)))
      else Some(Move(w.(events := w.events + [Reported(p, None, false, w.flock)]), Idle))
    case Looking(record) =>
      if !action.Probe? then None
      else if !action.opens || w.flock.Some? then
        Some(Move(w.(events := w.events + [Reported(p, Some(record), action.opens, w.flock)]), Idle))
      else Some(Move(w.(flock := Some(p)), Probing))
    case Probing =>
      if !action.Wipe? then None
      else Some(Move(if action.works then w.(file := None) else w, Wiped))
    case Wiped =>
      if !action.Unprobe? then None
      else Some(Move(Closed(w.(events := w.events + [Reported(p, None, true, None)]), p), Idle))
    case _ => None
  }

  function Act(w: World, p: nat, ph: Phase, action: Action): Maybe<Move> {
    match action
    case Boot => if ph.Dead? then Some(Move(w, Idle)) else None
    case Crash => if ph.Dead? then None else Some(Move(Closed(w, p), Dead))
    case Begin => if ph.Idle? then Some(Move(w, Trying)) else None
    case _ =>
      if ph.Idle? || ph.Looking? || ph.Probing? || ph.Wiped? then Ask(w, p, ph, action) else Hand(w, p, ph, action)
  }

  function Next(st: State, step: Step): Maybe<State> {
    if step.p >= |st.actors| then None
    else
      match Act(st.world, step.p, st.actors[step.p], step.action)
      case Some(move) => Some(State(move.world, st.actors[step.p := move.phase]))
      case None => None
  }

  /** Before the first step: whatever an earlier machine left in the file, nobody has the lock, and
      every acquisition to come has a stamp of its own. */
  function Initial(actors: nat, file: Maybe<Record>): State {
    State(World(None, file, if file.Some? then file.value.stamp + 1 else 0, []), seq(actors, i => Dead))
  }

  // ---- the invariant ----

  /** An actor has the kernel lock exactly while it is between taking it and closing the file;
      while it holds the lock in earnest, the record is its own. */
  predicate Fits(w: World, p: nat, ph: Phase) {
    && (Owns(ph) <==> w.flock == Some(p))
    && (ph.Hold? ==> w.file == Some(Record(p, ph.stamp)))
    && (ph.Retrying? ==> ph.first.Some? && ph.first.value != p)
  }

  /** `holder` names somebody only if the lock was taken at its probe, unless it could not
      probe; `acquire` gives up only if others had the lock at both attempts. */
  predicate Honest(e: Event) {
    match e
    case Reported(p, record, sure, flock) => record.Some? && sure ==> flock.Some? && flock.value != p
    case Refused(p, first, second) => first.Some? && second.Some? && first.value != p && second.value != p
  }

  ghost predicate AllHonest(events: seq<Event>) {
    forall i :: 0 <= i < |events| ==> Honest(events[i])
  }

  ghost predicate Sound(st: State) {
    && AllHonest(st.world.events)
    && (st.world.flock.Some? ==> st.world.flock.value < |st.actors|)
    && (forall p :: 0 <= p < |st.actors| ==> Fits(st.world, p, st.actors[p]))
  }

  /** What one actor may do to the others: nothing, unless the lock is free or its own. */
  predicate Gentle(w: World, w': World, p: nat) {
    && ((w'.flock == w.flock && w'.file == w.file) || w.flock == None || w.flock == Some(p))
    && (w'.flock != w.flock ==> w'.flock == None || w'.flock == Some(p))
    && (w'.file != w.file ==> w.flock == Some(p))
  }

  lemma HonestSnoc(events: seq<Event>, e: Event)
    requires AllHonest(events) && Honest(e)
    ensures AllHonest(events + [e])
  {
  }

  /** The record on disk is only ever changed by whoever has the kernel lock. */
  lemma HandFits(w: World, p: nat, ph: Phase, action: Action)
    requires Fits(w, p, ph) && AllHonest(w.events) && Hand(w, p, ph, action).Some?
    ensures var move := Hand(w, p, ph, action).value;
      Fits(move.world, p, move.phase) && AllHonest(move.world.events) && Gentle(w, move.world, p)
  {
    if ph.Retrying? && w.flock.Some? {
      HonestSnoc(w.events, Refused(p, ph.first, w.flock));
    }
    hide AllHonest;
  }

  lemma AskFits(w: World, p: nat, ph: Phase, action: Action)
    requires Fits(w, p, ph) && AllHonest(w.events) && Ask(w, p, ph, action).Some?
    ensures var move := Ask(w, p, ph, action).value;
      Fits(move.world, p, move.phase) && AllHonest(move.world.events) && Gentle(w, move.world, p)
  {
    if ph.Idle? {
      HonestSnoc(w.events, Reported(p, None, false, w.flock));
    }
    if ph.Looking? && action.Probe? && (!action.opens || w.flock.Some?) {
      HonestSnoc(w.events, Reported(p, Some(ph.record), action.opens, w.flock));
    }
    HonestSnoc(w.events, Reported(p, None, true, None));
    hide AllHonest;
  }

  lemma ActFits(w: World, p: nat, ph: Phase, action: Action)
    requires Fits(w, p, ph) && AllHonest(w.events) && Act(w, p, ph, action).Some?
    ensures var move := Act(w, p, ph, action).value;
      Fits(move.world, p, move.phase) && AllHonest(move.world.events) && Gentle(w, move.world, p)
  {
    hide Hand, Ask, AllHonest;
    match action
    case Boot =>
    case Crash =>
    case Begin =>
    case _ =>
      if ph.Idle? || ph.Looking? || ph.Probing? || ph.Wiped? {
        AskFits(w, p, ph, action);
      } else {
        HandFits(w, p, ph, action);
      }
  }

  lemma NextSound(st: State, step: Step)
    requires Sound(st) && Next(st, step).Some?
    ensures Sound(Next(st, step).value)
    ensures Gentle(st.world, Next(st, step).value.world, step.p)
  {
    hide Act, AllHonest;
    var st' := Next(st, step).value;
    ActFits(st.world, step.p, st.actors[step.p], step.action);
    forall q | 0 <= q < |st'.actors|
      ensures Fits(st'.world, q, st'.actors[q])
    {
      hide Owns;
      assert Fits(st.world, q, st.actors[q]);
    }
  }

  // ---- every run ----

  lemma InitialSound(actors: nat, file: Maybe<Record>)
    ensures Sound(Initial(actors, file))
  {
  }

  /** In every run, crashes included: at most one actor has the lock, nobody who is gone has it,
      the record is true while the lock is held, and nobody was told anything false. */
  lemma {:induction false} OneOwner(actors: nat, file: Maybe<Record>, steps: seq<Step>)
    requires Run(Next, Initial(actors, file), steps).Some?
    ensures var st := Run(Next, Initial(actors, file), steps).value;
      && Sound(st)
      && (forall p, q :: 0 <= p < q < |st.actors| ==> !Owns(st.actors[p]) || !Owns(st.actors[q]))
      && (st.world.flock.None? <==> forall p :: 0 <= p < |st.actors| ==> !Owns(st.actors[p]))
  {
    InitialSound(actors, file);
    forall st, step | Sound(st) && Next(st, step).Some?
      ensures Sound(Next(st, step).value)
    {
      NextSound(st, step);
    }
    RunKeeps(Next, st => Sound(st), step => true, Initial(actors, file), steps);
    var st := Run(Next, Initial(actors, file), steps).value;
    forall p | 0 <= p < |st.actors|
      ensures Owns(st.actors[p]) <==> st.world.flock == Some(p)
    {
      assert Fits(st.world, p, st.actors[p]);
    }
  }

  // ---- who is named while somebody holds the lock ----

  /** Actor `q` holds the lock under `stamp`, and everybody who was told or read anything since
      there were `from` events was told and read just that. */
  ghost predicate Known(st: State, q: nat, stamp: nat, from: nat) {
    && Sound(st)
    && q < |st.actors| && st.actors[q] == Hold(stamp)
    && from <= |st.world.events|
    && (forall p :: 0 <= p < |st.actors| ==> SeesOnly(st.actors[p], Record(q, stamp)))
    && (forall i :: from <= i < |st.world.events| ==> Names(st.world.events[i], Record(q, stamp)))
  }

  predicate SeesOnly(ph: Phase, record: Record) {
    ph.Looking? ==> ph.record == record
  }

  predicate Names(e: Event, record: Record) {
    match e
    case Reported(_, named, _, _) => named == Some(record)
    case Refused(_, _, second) => second == Some(record.pid)
  }

  lemma ActKnown(w: World, p: nat, ph: Phase, action: Action, record: Record)
    requires w.flock == Some(record.pid) && w.file == Some(record) && p != record.pid
    requires Fits(w, p, ph) && SeesOnly(ph, record) && Act(w, p, ph, action).Some?
    ensures var move := Act(w, p, ph, action).value;
      && move.world.flock == w.flock && move.world.file == w.file && SeesOnly(move.phase, record)
      && (move.world.events == w.events
          || exists e :: move.world.events == w.events + [e] && Names(e, record))
  {
  }

  lemma NextKnown(st: State, step: Step, q: nat, stamp: nat, from: nat)
    requires Known(st, q, stamp, from) && step.p != q && Next(st, step).Some?
    ensures Known(Next(st, step).value, q, stamp, from)
  {
    hide Act;
    NextSound(st, step);
    assert Fits(st.world, q, st.actors[q]);
    assert Fits(st.world, step.p, st.actors[step.p]);
    hide Sound;
    ActKnown(st.world, step.p, st.actors[step.p], step.action, Record(q, stamp));
  }

  /** While `q` holds the lock, whatever the others do and wherever they crash: the record stays,
      every query begun since then names exactly `q` and its acquisition, and every attempt to
      acquire that ends is refused with `q` in possession. */
  lemma {:induction false} HolderIsNamed(st: State, steps: seq<Step>, q: nat, stamp: nat)
    requires Sound(st) && q < |st.actors| && st.actors[q] == Hold(stamp)
    requires forall p :: 0 <= p < |st.actors| ==> !st.actors[p].Looking?
    requires forall i :: 0 <= i < |steps| ==> steps[i].p != q
    requires Run(Next, st, steps).Some?
    ensures Known(Run(Next, st, steps).value, q, stamp, |st.world.events|)
  {
    var from := |st.world.events|;
    forall s: State, step: Step | Known(s, q, stamp, from) && step.p != q && Next(s, step).Some?
      ensures Known(Next(s, step).value, q, stamp, from)
    {
      NextKnown(s, step, q, stamp, from);
    }
    RunKeeps(Next, s => Known(s, q, stamp, from), (step: Step) => step.p != q, st, steps);
  }

  // ---- when an answer is true ----

  /** What an answer that names somebody says: that actor holds the lock, and it is the same
      acquisition. */
  predicate Holds(st: State, r: Record) {
    r.pid < |st.actors| && st.actors[r.pid] == Hold(r.stamp)
  }

  ghost predicate SomebodyHolds(st: State) {
    exists q :: 0 <= q < |st.actors| && st.actors[q].Hold?
  }

  /** Any step of a holder ends its acquisition, and no later one has its stamp. */
  lemma NextHolds(st: State, step: Step, r: Record)
    requires r.stamp < st.world.next && Next(st, step).Some?
    ensures st.world.next <= Next(st, step).value.world.next
    ensures Holds(Next(st, step).value, r) <==> Holds(st, r) && step.p != r.pid
  {
  }

  lemma {:induction false} HoldsThroughout(st: State, steps: seq<Step>, r: Record)
    requires r.stamp < st.world.next && Run(Next, st, steps).Some?
    ensures Holds(Run(Next, st, steps).value, r)
            <==> Holds(st, r) && forall i :: 0 <= i < |steps| ==> steps[i].p != r.pid
    decreases |steps|
  {
    hide Next, Holds;
    if steps != [] {
      NextHolds(st, steps[0], r);
      HoldsThroughout(Next(st, steps[0]).value, steps[1..], r);
      assert forall i :: 0 <= i < |steps[1..]| ==> steps[1..][i] == steps[i + 1];
      assert forall i :: 0 < i < |steps| ==> steps[i] == steps[1..][i - 1];
    }
  }

  /** A record on disk has a stamp from the past. */
  predicate Stamped(st: State) {
    st.world.file.Some? ==> st.world.file.value.stamp < st.world.next
  }

  lemma NextStamped(st: State, step: Step)
    requires Stamped(st) && Next(st, step).Some?
    ensures Stamped(Next(st, step).value)
  {
  }

  lemma {:induction false} AlwaysStamped(actors: nat, file: Maybe<Record>, steps: seq<Step>)
    requires Run(Next, Initial(actors, file), steps).Some?
    ensures Stamped(Run(Next, Initial(actors, file), steps).value)
  {
    forall st: State, step: Step | Stamped(st) && Next(st, step).Some?
      ensures Stamped(Next(st, step).value)
    {
      hide Next, Stamped;
      NextStamped(st, step);
    }
    RunKeeps(Next, (st: State) => Stamped(st), (step: Step) => true, Initial(actors, file), steps);
  }

  /** A query that reads a record, steps of others, and its probe. */
  function Query(p: nat, between: seq<Step>, opens: bool): seq<Step> {
    [By(p, Read)] + between + [By(p, Probe(opens))]
  }

  lemma {:induction false} QueryRuns(st: State, p: nat, between: seq<Step>, opens: bool)
    requires Run(Next, st, Query(p, between, opens)).Some?
    requires p < |st.actors| && st.actors[p].Idle? && st.world.file.Some?
    requires forall i :: 0 <= i < |between| ==> between[i].p != p
    ensures var read := State(st.world, st.actors[p := Looking(st.world.file.value)]);
      && Next(st, By(p, Read)) == Some(read) && Run(Next, read, between).Some?
      && var probed := Run(Next, read, between).value;
      && p < |probed.actors| && probed.actors[p] == Looking(st.world.file.value)
      && Run(Next, st, Query(p, between, opens)) == Next(probed, By(p, Probe(opens)))
  {
    var read := State(st.world, st.actors[p := Looking(st.world.file.value)]);
    assert Next(st, By(p, Read)) == Some(read);
    hide Next;
    var rest := between + [By(p, Probe(opens))];
    assert Query(p, between, opens) == [By(p, Read)] + rest;
    assert Query(p, between, opens)[1..] == rest;
    RunPrefix(read, between, [By(p, Probe(opens))]);
    RunSnoc(Next, read, between, By(p, Probe(opens)));
    Undisturbed(read, between, p);
  }

  lemma {:induction false} RunPrefix(st: State, steps: seq<Step>, more: seq<Step>)
    requires Run(Next, st, steps + more).Some?
    ensures Run(Next, st, steps).Some?
    decreases |steps|
  {
    hide Next;
    if steps != [] {
      assert (steps + more)[1..] == steps[1..] + more;
      RunPrefix(Next(st, steps[0]).value, steps[1..], more);
    }
  }

  lemma {:induction false} Undisturbed(st: State, steps: seq<Step>, p: nat)
    requires p < |st.actors| && Run(Next, st, steps).Some? && forall i :: 0 <= i < |steps| ==> steps[i].p != p
    ensures var end := Run(Next, st, steps).value; p < |end.actors| && end.actors[p] == st.actors[p]
  {
    hide Act;
    var ph := st.actors[p];
    RunKeeps(Next, (s: State) => p < |s.actors| && s.actors[p] == ph, (step: Step) => step.p != p, st, steps);
  }

  /** An answer that names somebody is true at its probe exactly if whoever is named held the lock
      when the record was read and has not moved since. */
  lemma {:induction false} AnswerIsTrueIff(
      actors: nat, file: Maybe<Record>, before: seq<Step>, p: nat, between: seq<Step>, opens: bool, asked: State)
    requires Run(Next, Initial(actors, file), before) == Some(asked)
    requires p < |asked.actors| && asked.actors[p].Idle? && asked.world.file.Some?
    requires forall i :: 0 <= i < |between| ==> between[i].p != p
    requires Run(Next, asked, Query(p, between, opens)).Some?
    ensures var r, read := asked.world.file.value, Next(asked, By(p, Read)).value;
      && Run(Next, read, between).Some?
      && var probed, end := Run(Next, read, between).value, Run(Next, asked, Query(p, between, opens)).value;
      && p < |end.actors|
      && (end.actors[p].Idle? <==> !opens || probed.world.flock.Some?)
      && (end.actors[p].Idle? ==>
            end.world.events == probed.world.events + [Reported(p, Some(r), opens, probed.world.flock)])
      && (Holds(probed, r) <==> Holds(asked, r) && forall i :: 0 <= i < |between| ==> between[i].p != r.pid)
  {
    AlwaysStamped(actors, file, before);
    QueryRuns(asked, p, between, opens);
    var r, read := asked.world.file.value, Next(asked, By(p, Read)).value;
    assert r.pid < |asked.actors| && r.pid != p ==> read.actors[r.pid] == asked.actors[r.pid];
    HoldsThroughout(read, between, r);
  }

  /** An answer that names nobody is always true. */
  lemma {:induction false} NobodyIsTrue(st: State, step: Step, sure: bool, flock: Maybe<nat>)
    requires Sound(st) && Next(st, step).Some?
    requires Next(st, step).value.world.events == st.world.events + [Reported(step.p, None, sure, flock)]
    ensures !SomebodyHolds(st) && !SomebodyHolds(Next(st, step).value)
  {
    hide AllHonest;
    var p, st' := step.p, Next(st, step).value;
    assert Fits(st.world, p, st.actors[p]);
    assert st'.world.events[|st.world.events|] == Reported(p, None, sure, flock);
    assert st.world.file.None? || Owns(st.actors[p]);
    forall q | 0 <= q < |st.actors|
      ensures !st.actors[q].Hold? && !st'.actors[q].Hold?
    {
      assert Fits(st.world, q, st.actors[q]);
    }
  }

  // ---- taking and giving back ----

  /** An attempt on a free lock takes it. On one that is taken it is made once more, whatever others do in between, and
      fails for good exactly if somebody has the lock then too. */
  lemma {:induction false} SecondAttemptDecides(st: State, p: nat, between: seq<Step>)
    requires p < |st.actors| && st.actors[p].Trying?
    requires forall i :: 0 <= i < |between| ==> between[i].p != p
    ensures Next(st, By(p, Attempt)).Some?
    ensures var st' := Next(st, By(p, Attempt)).value;
      if st.world.flock.None? then st'.world == st.world.(flock := Some(p)) && Owns(st'.actors[p])
      else
        && st'.world == st.world && !Owns(st'.actors[p])
        && (Run(Next, st', between).Some? ==>
              var mid := Run(Next, st', between).value;
              && p < |mid.actors| && Next(mid, By(p, Attempt)).Some?
              && var end := Next(mid, By(p, Attempt)).value;
                 if mid.world.flock.None? then end.world == mid.world.(flock := Some(p)) && Owns(end.actors[p])
                 else
                   && end.world
                      == mid.world.(events := mid.world.events + [Refused(p, st.world.flock, mid.world.flock)])
                   && end.actors[p].Idle?)
  {
    var st' := Next(st, By(p, Attempt)).value;
    if st.world.flock.Some? && Run(Next, st', between).Some? {
      Undisturbed(st', between, p);
      hide Run, Ask;
    }
  }

  /** A holder that is done empties the record and, whatever others do in between, gives the lock back; if the record
      cannot be emptied, it stays. */
  lemma {:induction false} ReleaseFrees(actors: nat, file: Maybe<Record>, before: seq<Step>, p: nat, works: bool,
                                        between: seq<Step>)
    requires Run(Next, Initial(actors, file), before).Some?
    requires var st := Run(Next, Initial(actors, file), before).value; p < |st.actors| && st.actors[p].Hold?
    requires forall i :: 0 <= i < |between| ==> between[i].p != p
    ensures var st := Run(Next, Initial(actors, file), before).value;
      && Next(st, By(p, Empty(works))).Some?
      && var st' := Next(st, By(p, Empty(works))).value;
         && st'.world == st.world.(file := if works then None else st.world.file)
         && (Run(Next, st', between).Some? ==>
               var mid := Run(Next, st', between).value;
               && p < |mid.actors| && Next(mid, By(p, Unlock)).Some?
               && var end := Next(mid, By(p, Unlock)).value;
                  end.world == mid.world.(flock := None) && end.actors[p].Idle?)
  {
    var st := Run(Next, Initial(actors, file), before).value;
    OneOwner(actors, file, before);
    var step := By(p, Empty(works));
    var st' := Next(st, step).value;
    NextSound(st, step);
    if Run(Next, st', between).Some? {
      Undisturbed(st', between, p);
      SoundOn(st', between);
      var mid := Run(Next, st', between).value;
      hide Run, Ask, AllHonest;
      assert Fits(mid.world, p, mid.actors[p]);
    }
  }

  lemma {:induction false} SoundOn(st: State, steps: seq<Step>)
    requires Sound(st) && Run(Next, st, steps).Some?
    ensures Sound(Run(Next, st, steps).value)
  {
    hide Next, Sound;
    forall s: State, step: Step | Sound(s) && Next(s, step).Some? ensures Sound(Next(s, step).value) {
      NextSound(s, step);
    }
    RunKeeps(Next, (s: State) => Sound(s), (step: Step) => true, st, steps);
  }

  // ---- and answers that are not ----

  lemma {:induction false} RunTwo(st: State, a: Step, b: Step)
    ensures Run(Next, st, [a, b]) == if Next(st, a).Some? then Next(Next(st, a).value, b) else None
  {
    hide Next;
    assert [a, b][1..] == [b] && [b][1..] == [];
    if Next(st, a).Some? {
      var st' := Next(st, a).value;
      assert Next(st', b).Some? ==> Run(Next, Next(st', b).value, []) == Next(st', b);
      assert Run(Next, st', [b]) == Next(st', b);
    }
  }

  lemma CrashLeavesRecord(st: State, q: nat)
    requires Sound(st) && q < |st.actors| && st.actors[q].Hold?
    ensures Next(st, By(q, Crash)) == Some(State(st.world.(flock := None), st.actors[q := Dead]))
    ensures st.world.file == Some(Record(q, st.actors[q].stamp))
    ensures !SomebodyHolds(State(st.world.(flock := None), st.actors[q := Dead]))
  {
    hide AllHonest;
    assert Fits(st.world, q, st.actors[q]);
    forall p | 0 <= p < |st.actors| && p != q ensures !st.actors[p].Hold? {
      assert Fits(st.world, p, st.actors[p]);
    }
  }

  /** After any holder died two queries are enough to name it with nobody in possession: both read
      what it left, and the second finds the lock taken by the probe of the first. */
  lemma {:induction false} ProbeTakenForHolder(st: State, q: nat, a: nat, b: nat)
    requires Sound(st) && q < |st.actors| && st.actors[q].Hold?
    requires a < |st.actors| && b < |st.actors| && a != b && st.actors[a].Idle? && st.actors[b].Idle?
    ensures var r := Record(q, st.actors[q].stamp);
      var end := Run(Next, st, [By(q, Crash), By(a, Read)] + [By(b, Read), By(a, Probe(true))] + [By(b, Probe(true))]);
      && end.Some? && !SomebodyHolds(end.value)
      && end.value.world.events == st.world.events + [Reported(b, Some(r), true, Some(a))]
  {
    var r := Record(q, st.actors[q].stamp);
    CrashLeavesRecord(st, q);
    var s1 := State(st.world.(flock := None), st.actors[q := Dead]);
    var s2 := State(s1.world, s1.actors[a := Looking(r)]);
    var s3 := State(s1.world, s2.actors[b := Looking(r)]);
    var s4 := State(s1.world.(flock := Some(a)), s3.actors[a := Probing]);
    var s5 := State(s4.world.(events := st.world.events + [Reported(b, Some(r), true, Some(a))]), s4.actors[b := Idle]);
    assert Next(s1, By(a, Read)) == Some(s2);
    assert Next(s2, By(b, Read)) == Some(s3);
    assert Next(s3, By(a, Probe(true))) == Some(s4);
    assert Next(s4, By(b, Probe(true))) == Some(s5);
    assert forall p :: 0 <= p < |s5.actors| ==> s5.actors[p].Hold? ==> s1.actors[p].Hold?;
    hide Next, Sound;
    RunTwo(st, By(q, Crash), By(a, Read));
    RunTwo(s2, By(b, Read), By(a, Probe(true)));
    RunOn(Next, st, [By(q, Crash), By(a, Read)], [By(b, Read), By(a, Probe(true))]);
    RunSnoc(Next, st, [By(q, Crash), By(a, Read)] + [By(b, Read), By(a, Probe(true))], By(b, Probe(true)));
  }

  /** And if the probe cannot open the file, one is: it then answers with what it read. */
  lemma {:induction false} UnopenedProbeNamesTheDead(st: State, q: nat, a: nat)
    requires Sound(st) && q < |st.actors| && st.actors[q].Hold?
    requires a < |st.actors| && st.actors[a].Idle?
    ensures var end := Run(Next, st, [By(q, Crash), By(a, Read)] + [By(a, Probe(false))]);
      && end.Some? && !SomebodyHolds(end.value)
      && end.value.world.events
         == st.world.events + [Reported(a, Some(Record(q, st.actors[q].stamp)), false, None)]
  {
    var r := Record(q, st.actors[q].stamp);
    CrashLeavesRecord(st, q);
    var s1 := State(st.world.(flock := None), st.actors[q := Dead]);
    var s2 := State(s1.world, s1.actors[a := Looking(r)]);
    var s3 := State(s1.world.(events := st.world.events + [Reported(a, Some(r), false, None)]), s2.actors[a := Idle]);
    assert Next(s1, By(a, Read)) == Some(s2);
    assert Next(s2, By(a, Probe(false))) == Some(s3);
    assert forall p :: 0 <= p < |s3.actors| ==> s3.actors[p].Hold? ==> s1.actors[p].Hold?;
    hide Next, Sound;
    RunTwo(st, By(q, Crash), By(a, Read));
    RunSnoc(Next, st, [By(q, Crash), By(a, Read)], By(a, Probe(false)));
  }

  // ---- after a crash ----

  function Steps(p: nat, actions: seq<Action>): seq<Step> {
    if actions == [] then [] else [By(p, actions[0])] + Steps(p, actions[1..])
  }

  function Solo(w: World, p: nat, ph: Phase, actions: seq<Action>): Maybe<Move>
    decreases |actions|
  {
    if actions == [] then Some(Move(w, ph))
    else
      match Act(w, p, ph, actions[0])
      case Some(move) => Solo(move.world, p, move.phase, actions[1..])
      case None => None
  }

  lemma {:induction false} SoloRuns(st: State, p: nat, actions: seq<Action>)
    requires p < |st.actors| && Solo(st.world, p, st.actors[p], actions).Some?
    ensures var move := Solo(st.world, p, st.actors[p], actions).value;
      Run(Next, st, Steps(p, actions)) == Some(State(move.world, st.actors[p := move.phase]))
    decreases |actions|
  {
    hide Act;
    if actions == [] {
      assert st.actors[p := st.actors[p]] == st.actors;
    } else {
      var move := Act(st.world, p, st.actors[p], actions[0]).value;
      var st' := State(move.world, st.actors[p := move.phase]);
      SoloRuns(st', p, actions[1..]);
      var end := Solo(move.world, p, move.phase, actions[1..]).value;
      assert st'.actors[p := end.phase] == st.actors[p := end.phase];
      assert Steps(p, actions)[1..] == Steps(p, actions[1..]);
    }
  }

  const ACQUIRE: seq<Action> := [Begin, Attempt, Truncate(true), WriteRecord(true, true)]
  const ASK: seq<Action> := [Read, Probe(true), Wipe(true), Unprobe]

  /** With nobody in possession, an acquisition succeeds whatever record a dead owner left. */
  lemma {:induction false} LeftoverIsHarmless(w: World, p: nat)
    requires w.flock.None?
    ensures Solo(w, p, Idle, ACQUIRE)
      == Some(Move(World(Some(p), Some(Record(p, w.next)), w.next + 1, w.events), Hold(w.next)))
  {
    var w2 := World(Some(p), None, w.next, w.events);
    var w3 := World(Some(p), Some(Record(p, w.next)), w.next + 1, w.events);
    assert Solo(w2, p, Emptied, [WriteRecord(true, true)]) == Some(Move(w3, Hold(w.next)));
    assert [Truncate(true), WriteRecord(true, true)][1..] == [WriteRecord(true, true)];
    assert Solo(w2.(file := w.file), p, Owning, [Truncate(true), WriteRecord(true, true)])
      == Some(Move(w3, Hold(w.next)));
    assert ACQUIRE[1..][1..] == [Truncate(true), WriteRecord(true, true)];
    assert Solo(w, p, Trying, ACQUIRE[1..]) == Some(Move(w3, Hold(w.next)));
  }

  /** With nobody in possession, a query says so and removes the leftover. */
  lemma {:induction false} LeftoverIsWiped(w: World, p: nat)
    requires w.flock.None? && w.file.Some?
    ensures Solo(w, p, Idle, ASK)
      == Some(Move(World(None, None, w.next, w.events + [Reported(p, None, true, None)]), Idle))
  {
    var w1 := w.(flock := Some(p));
    var end := World(None, None, w.next, w.events + [Reported(p, None, true, None)]);
    assert Solo(w1.(file := None), p, Wiped, [Unprobe]) == Some(Move(end, Idle));
    assert [Wipe(true), Unprobe][1..] == [Unprobe];
    assert Solo(w1, p, Probing, [Wipe(true), Unprobe]) == Some(Move(end, Idle));
    assert ASK[1..][1..] == [Wipe(true), Unprobe];
    assert Solo(w, p, Looking(w.file.value), ASK[1..]) == Some(Move(end, Idle));
  }

  /** Every run ends in a state from which a new acquisition succeeds, once those inside are gone. */
  lemma {:induction false} NoStaleLock(actors: nat, file: Maybe<Record>, steps: seq<Step>, p: nat)
    requires Run(Next, Initial(actors, file), steps).Some?
    requires var st := Run(Next, Initial(actors, file), steps).value;
      p < |st.actors| && st.actors[p].Idle? && forall q :: 0 <= q < |st.actors| ==> !Owns(st.actors[q])
    ensures var st := Run(Next, Initial(actors, file), steps).value;
      var end := Run(Next, st, Steps(p, ACQUIRE));
      end.Some? && p < |end.value.actors| && end.value.actors[p] == Hold(st.world.next)
  {
    hide Act, Solo, Steps, ACQUIRE, Sound;
    OneOwner(actors, file, steps);
    var st := Run(Next, Initial(actors, file), steps).value;
    LeftoverIsHarmless(st.world, p);
    SoloRuns(st, p, ACQUIRE);
  }

  // ---- a query that straddles two holders ----

  /** A run goes on with some steps of `p`. */
  lemma {:induction false} Turn(first: State, steps: seq<Step>, p: nat, actions: seq<Action>, move: Move)
    requires Run(Next, first, steps).Some?
    requires var st := Run(Next, first, steps).value;
      p < |st.actors| && Solo(st.world, p, st.actors[p], actions) == Some(move)
    ensures var st := Run(Next, first, steps).value;
      Run(Next, first, steps + Steps(p, actions)) == Some(State(move.world, st.actors[p := move.phase]))
  {
    hide Solo, Steps;
    SoloRuns(Run(Next, first, steps).value, p, actions);
    RunOn(Next, first, steps, Steps(p, actions));
  }

  lemma {:induction false} SoloOne(w: World, p: nat, ph: Phase, action: Action)
    ensures Solo(w, p, ph, [action]) == Act(w, p, ph, action)
  {
    hide Act;
  }

  lemma {:induction false} Booting(w: World, p: nat)
    ensures Solo(w, p, Dead, [Boot]) == Some(Move(w, Idle))
  {
    SoloOne(w, p, Dead, Boot);
  }

  lemma {:induction false} Straddling(w: World, w': World)
    requires w.flock == Some(0) && w.file.Some? && w'.flock.Some? && w'.events == []
    ensures Solo(w, 2, Idle, [Read]) == Some(Move(w, Looking(w.file.value)))
    ensures Solo(w, 0, Hold(0), [Crash]) == Some(Move(w.(flock := None), Dead))
    ensures Solo(w', 2, Looking(w.file.value), [Probe(true)])
      == Some(Move(w'.(events := [Reported(2, w.file, true, w'.flock)]), Idle))
  {
    SoloOne(w, 2, Idle, Read);
    SoloOne(w, 0, Hold(0), Crash);
    SoloOne(w', 2, Looking(w.file.value), Probe(true));
    assert [] + [Reported(2, w.file, true, w'.flock)] == [Reported(2, w.file, true, w'.flock)];
  }

  const STRADDLE: seq<Step> :=
    Steps(0, [Boot]) + Steps(0, ACQUIRE) + Steps(2, [Boot]) + Steps(2, [Read]) + Steps(0, [Crash])
    + Steps(1, [Boot]) + Steps(1, ACQUIRE) + Steps(2, [Probe(true)])

  /** The name a query gives need not be that of the present holder: it can be a dead one's, read
      before the crash, while the probe finds the lock taken by the next. */
  lemma StaleName()
    ensures var end := Run(Next, Initial(3, None), STRADDLE);
      && end.Some? && end.value.actors == [Dead, Hold(1), Idle]
      && end.value.world.file == Some(Record(1, 1))
      && end.value.world.events == [Reported(2, Some(Record(0, 0)), true, Some(1))]
  {
    var first := Initial(3, None);
    var w0 := first.world;
    var w1 := World(Some(0), Some(Record(0, 0)), 1, []);
    var w2 := w1.(flock := None);
    var w3 := World(Some(1), Some(Record(1, 1)), 2, []);
    var w4 := w3.(events := [Reported(2, Some(Record(0, 0)), true, Some(1))]);
    hide Act;
    Booting(w0, 0);
    Booting(w1, 2);
    Booting(w2, 1);
    Straddling(w1, w3);
    LeftoverIsHarmless(w0, 0);
    LeftoverIsHarmless(w2, 1);
    var t1 := Steps(0, [Boot]);
    var t2 := t1 + Steps(0, ACQUIRE);
    var t3 := t2 + Steps(2, [Boot]);
    var t4 := t3 + Steps(2, [Read]);
    var t5 := t4 + Steps(0, [Crash]);
    var t6 := t5 + Steps(1, [Boot]);
    var t7 := t6 + Steps(1, ACQUIRE);
    SoloRuns(first, 0, [Boot]);
    hide Solo, Steps, ACQUIRE, Run;
    Turn(first, t1, 0, ACQUIRE, Move(w1, Hold(0)));
    Turn(first, t2, 2, [Boot], Move(w1, Idle));
    Turn(first, t3, 2, [Read], Move(w1, Looking(Record(0, 0))));
    Turn(first, t4, 0, [Crash], Move(w2, Dead));
    Turn(first, t5, 1, [Boot], Move(w2, Idle));
    Turn(first, t6, 1, ACQUIRE, Move(w3, Hold(1)));
    Turn(first, t7, 2, [Probe(true)], Move(w4, Idle));
  }
}
