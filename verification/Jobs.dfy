/** The single job slot: `submit`, the worker thread and `cancel`. */
module Jobs {
  import opened Runs
  import opened Text

  // Whatever is done with the slot lock in hand is one step, but `cancel` does not wait for that lock.

  datatype JobState = Running | Succeeded | Failed | Cancelled

  /** Where a job is. `Entering` to `Released`: in `submit` with the slot lock, after it, in the
      body, past the body, past the release. `Unstarted` to `Gone`: its thread did not start, and
      lock, slot and state are given up in that order. */
  datatype Where = Entering | Submitted | Body | Ended | Released | Done | Unstarted | Unlocked | Orphan | Gone

  /** `saw`: its body has seen the cancel flag set. */
  datatype Job = Job(state: JobState, at: Where, requested: bool, saw: bool)

  /** The kernel lock belongs to a job of this process or to somebody else. */
  datatype Owner = Mine(job: nat) | Outside

  /** `completed` lists the jobs that gave their slot back, in that order. */
  datatype Shared = Shared(
    slot: Maybe<nat>, flock: Maybe<Owner>, flag: bool, recent: seq<nat>, bound: nat, completed: seq<nat>)

  datatype Canceller = Ready | Looked(job: nat) | Marked(job: nat)

  datatype State = State(shared: Shared, jobs: seq<Job>, cancellers: seq<Canceller>)

  /** `cancel` as coded, as one step, or as one step that insists on the job in the slot. */
  datatype Mode = AsCoded | Atomic | Current

  datatype Work =
    | Clear
    | Start(ok: bool)
    | Check
    | Finish(outcome: JobState)
    | Release
    | Free
    | FailRelease
    | FailFree
    | FailState

  datatype Step =
    | Submit
    | By(j: nat, work: Work)
    | Look(c: nat, job: nat)
    | Mark(c: nat)
    | Set(c: nat)
    | Cancel(job: nat)
    | OutsideTake
    | OutsideFree

  datatype Move = Move(shared: Shared, job: Job)

  function Cut<T>(s: seq<T>, n: nat): seq<T> {
    if |s| <= n then s else s[..n]
  }

  function Unlock(sh: Shared, j: nat): Shared {
    if sh.flock == Some(Mine(j)) then sh.(flock := None) else sh
  }

  /** One step of job `j`, in `submit` or in its worker. */
  function Act(sh: Shared, j: nat, job: Job, work: Work): Maybe<Move> {
    match (job.at, work)
    case (Entering, Clear) => Some(Move(sh.(flag := false), job.(at := Submitted)))
    case (Submitted, Start(ok)) => Some(Move(sh, job.(at := if ok then Body else Unstarted)))
    case (Body, Check) => Some(Move(sh, job.(saw := job.saw || sh.flag)))
    case (Body, Finish(outcome)) =>
      if outcome.Running? || (outcome.Cancelled? && !job.saw) then None
      else Some(Move(sh, job.(state := outcome, at := Ended)))
    case (Ended, Release) => Some(Move(Unlock(sh, j), job.(at := Released)))
    case (Released, Free) =>
      Some(Move(sh.(slot := None, recent := Cut([j] + sh.recent, sh.bound), completed := sh.completed + [j]),
                job.(at := Done)))
    case (Unstarted, FailRelease) => Some(Move(Unlock(sh, j), job.(at := Unlocked)))
    case (Unlocked, FailFree) => Some(Move(sh.(slot := None), job.(at := Orphan)))
    case (Orphan, FailState) => Some(Move(sh, job.(state := Failed, at := Gone)))
    case _ => None
  }

  /** Some `submit` is between taking and giving back the slot lock. */
  predicate SlotLocked(st: State) {
    exists j :: 0 <= j < |st.jobs| && st.jobs[j].at.Entering?
  }

  predicate Cancellable(st: State, j: nat) {
    j < |st.jobs| && st.jobs[j].state.Running?
  }

  function Requested(st: State, j: nat): State
    requires j < |st.jobs|
  {
    st.(jobs := st.jobs[j := st.jobs[j].(requested := true)])
  }

  function Flagged(st: State): State {
    st.(shared := st.shared.(flag := true))
  }

  /** `submit`, as far as it is decided under the slot lock, but for clearing the flag. */
  function Submitting(st: State): Maybe<State> {
    if SlotLocked(st) then None
    else if st.shared.slot.Some? || st.shared.flock.Some? then Some(st)
    else Some(st.(shared := st.shared.(slot := Some(|st.jobs|), flock := Some(Mine(|st.jobs|))),
                  jobs := st.jobs + [Job(Running, Entering, false, false)]))
  }

  function Cancelling(mode: Mode, st: State, step: Step): Maybe<State> {
    match step
    case Look(c, j) =>
      if !mode.AsCoded? || c >= |st.cancellers| || !st.cancellers[c].Ready? then None
      else if Cancellable(st, j) then Some(st.(cancellers := st.cancellers[c := Looked(j)]))
      else Some(st)
    case Mark(c) =>
      if c >= |st.cancellers| || !st.cancellers[c].Looked? || st.cancellers[c].job >= |st.jobs| then None
      else Some(Requested(st.(cancellers := st.cancellers[c := Marked(st.cancellers[c].job)]), st.cancellers[c].job))
    case Set(c) =>
      if c >= |st.cancellers| || !st.cancellers[c].Marked? then None
      else Some(Flagged(st.(cancellers := st.cancellers[c := Ready])))
    case Cancel(j) =>
      if mode.AsCoded? || SlotLocked(st) then None
      else if Cancellable(st, j) && (mode.Current? ==> st.shared.slot == Some(j)) then Some(Flagged(Requested(st, j)))
      else Some(st)
    case _ => None
  }

  function Next(mode: Mode, st: State, step: Step): Maybe<State> {
    match step
    case Submit => Submitting(st)
    case By(j, work) =>
      if j >= |st.jobs| || ((work.Free? || work.FailFree?) && SlotLocked(st)) then None
      else (
        match Act(st.shared, j, st.jobs[j], work)
        case Some(move) => Some(st.(shared := move.shared, jobs := st.jobs[j := move.job]))
        case None => None
      )
    case OutsideTake => if st.shared.flock.None? then Some(st.(shared := st.shared.(flock := Some(Outside)))) else None
    case OutsideFree =>
      if st.shared.flock == Some(Outside) then Some(st.(shared := st.shared.(flock := None))) else None
    case _ => Cancelling(mode, st, step)
  }

  function Initial(bound: nat, cancellers: nat): State {
    State(Shared(None, None, false, [], bound, []), [], seq(cancellers, i => Ready))
  }

  // ---- the slot ----

  predicate InSlot(at: Where) {
    at.Entering? || at.Submitted? || at.Body? || at.Ended? || at.Released? || at.Unstarted? || at.Unlocked?
  }

  predicate HasLock(at: Where) {
    at.Entering? || at.Submitted? || at.Body? || at.Ended? || at.Unstarted?
  }

  predicate IsOver(at: Where) {
    at.Ended? || at.Released? || at.Done? || at.Gone?
  }

  /** A job is in the slot, and has the lock, exactly as its place in the code says; and its
      state is terminal exactly from the end of its body. */
  predicate Fits(sh: Shared, j: nat, job: Job) {
    && (InSlot(job.at) <==> sh.slot == Some(j))
    && (HasLock(job.at) <==> sh.flock == Some(Mine(j)))
    && (job.state.Running? <==> !IsOver(job.at))
    && (job.at.Done? <==> j in sh.completed)
  }

  function Reversed<T>(s: seq<T>): (r: seq<T>)
    ensures |r| == |s|
  {
    if s == [] then [] else [s[|s| - 1]] + Reversed(s[..|s| - 1])
  }

  ghost predicate Ascending(s: seq<nat>, below: nat) {
    (forall i :: 0 <= i < |s| ==> s[i] < below) && (forall i, k :: 0 <= i < k < |s| ==> s[i] < s[k])
  }

  ghost predicate Sound(st: State) {
    && (forall j :: 0 <= j < |st.jobs| ==> Fits(st.shared, j, st.jobs[j]))
    && (st.shared.slot.Some? ==> st.shared.slot.value == |st.jobs| - 1)
    && (st.shared.flock.Some? && st.shared.flock.value.Mine? ==> st.shared.flock.value.job < |st.jobs|)
    && Ascending(st.shared.completed, |st.jobs|)
    && st.shared.recent == Cut(Reversed(st.shared.completed), st.shared.bound)
  }

  lemma CutTwice<T>(x: T, s: seq<T>, n: nat)
    ensures Cut([x] + Cut(s, n), n) == Cut([x] + s, n)
  {
    if |s| > n {
      if n > 0 {
        assert ([x] + s[..n])[..n] == ([x] + s)[..n];
      }
    }
  }

  lemma {:induction false} ReversedSnoc<T>(s: seq<T>, x: T)
    ensures Reversed(s + [x]) == [x] + Reversed(s)
  {
    assert (s + [x])[..|s|] == s;
  }

  /** What one job may do to the others: nothing. */
  predicate Gentle(sh: Shared, sh': Shared, j: nat) {
    && (sh'.slot == sh.slot || (sh.slot == Some(j) && sh'.slot == None))
    && (sh'.flock == sh.flock || (sh.flock == Some(Mine(j)) && sh'.flock == None))
    && ((sh'.completed == sh.completed && sh'.recent == sh.recent)
        || (sh.slot == Some(j) && j !in sh.completed
            && sh'.completed == sh.completed + [j] && sh'.recent == Cut([j] + sh.recent, sh.bound)))
    && sh'.bound == sh.bound
  }

  lemma ActFits(sh: Shared, j: nat, job: Job, work: Work)
    requires Fits(sh, j, job) && Act(sh, j, job, work).Some?
    ensures var move := Act(sh, j, job, work).value;
      Fits(move.shared, j, move.job) && Gentle(sh, move.shared, j)
  {
  }

  lemma WorkSound(st: State, j: nat, work: Work)
    requires Sound(st) && j < |st.jobs| && Act(st.shared, j, st.jobs[j], work).Some?
    ensures var move := Act(st.shared, j, st.jobs[j], work).value;
      Sound(st.(shared := move.shared, jobs := st.jobs[j := move.job]))
  {
    hide Act, Cut, Reversed;
    var move := Act(st.shared, j, st.jobs[j], work).value;
    assert Fits(st.shared, j, st.jobs[j]);
    ActFits(st.shared, j, st.jobs[j], work);
    var st' := st.(shared := move.shared, jobs := st.jobs[j := move.job]);
    CutTwice(j, Reversed(st.shared.completed), st.shared.bound);
    ReversedSnoc(st.shared.completed, j);
    forall k | 0 <= k < |st'.jobs|
      ensures Fits(st'.shared, k, st'.jobs[k])
    {
      hide InSlot, HasLock, IsOver;
      assert Fits(st.shared, k, st.jobs[k]);
    }
  }

  lemma SubmitSound(st: State)
    requires Sound(st) && Submitting(st).Some?
    ensures Sound(Submitting(st).value)
  {
    hide Cut, Reversed;
    var st' := Submitting(st).value;
    forall k | 0 <= k < |st'.jobs|
      ensures Fits(st'.shared, k, st'.jobs[k])
    {
      if k < |st.jobs| {
        assert Fits(st.shared, k, st.jobs[k]);
      }
    }
  }

  lemma CancelSound(mode: Mode, st: State, step: Step)
    requires Sound(st) && Cancelling(mode, st, step).Some?
    ensures Sound(Cancelling(mode, st, step).value)
  {
    hide Cut, Reversed;
    var st' := Cancelling(mode, st, step).value;
    forall k | 0 <= k < |st'.jobs|
      ensures Fits(st'.shared, k, st'.jobs[k])
    {
      hide InSlot, HasLock, IsOver;
      assert Fits(st.shared, k, st.jobs[k]);
    }
  }

  lemma NextSound(mode: Mode, st: State, step: Step)
    requires Sound(st) && Next(mode, st, step).Some?
    ensures Sound(Next(mode, st, step).value)
  {
    hide Act, Submitting, Cancelling, Cut, Reversed;
    match step
    case Submit => SubmitSound(st);
    case By(j, work) => WorkSound(st, j, work);
    case OutsideTake =>
    case OutsideFree =>
    case _ => CancelSound(mode, st, step);
  }

  /** One step, in a given mode, as a function of its own. */
  function Machine(mode: Mode): (State, Step) -> Maybe<State> {
    (st, step) => Next(mode, st, step)
  }

  lemma {:induction false} ReachesSound(mode: Mode, bound: nat, cancellers: nat, steps: seq<Step>)
    requires Run(Machine(mode), Initial(bound, cancellers), steps).Some?
    ensures Sound(Run(Machine(mode), Initial(bound, cancellers), steps).value)
  {
    forall st, step | Sound(st) && Next(mode, st, step).Some?
      ensures Sound(Next(mode, st, step).value)
    {
      NextSound(mode, st, step);
    }
    RunKeeps(Machine(mode), st => Sound(st), step => true, Initial(bound, cancellers), steps);
  }

  /** In every interleaving: at most one job is between taking and freeing the slot; a body runs
      only with the kernel lock in its job's hands; a job that is over has neither slot nor lock;
      and the recent jobs are the completed ones, last submitted first, cut to the bound. */
  lemma {:induction false} OneJob(mode: Mode, bound: nat, cancellers: nat, steps: seq<Step>)
    requires Run(Machine(mode), Initial(bound, cancellers), steps).Some?
    ensures var st := Run(Machine(mode), Initial(bound, cancellers), steps).value;
      && (forall j, k :: 0 <= j < k < |st.jobs| ==> !InSlot(st.jobs[j].at) || !InSlot(st.jobs[k].at))
      && (forall j :: 0 <= j < |st.jobs| && st.jobs[j].at.Body? ==>
            st.shared.flock == Some(Mine(j)) && st.jobs[j].state.Running?)
      && (st.shared.slot.None? <==> forall j :: 0 <= j < |st.jobs| ==> !InSlot(st.jobs[j].at))
      && (forall j :: 0 <= j < |st.jobs| && (st.jobs[j].at.Done? || st.jobs[j].at.Gone?) ==>
            !st.jobs[j].state.Running? && st.shared.slot != Some(j) && st.shared.flock != Some(Mine(j)))
      && Ascending(st.shared.completed, |st.jobs|)
      && (forall j :: 0 <= j < |st.jobs| ==> (st.jobs[j].at.Done? <==> j in st.shared.completed))
      && st.shared.recent == Cut(Reversed(st.shared.completed), bound)
  {
    ReachesSound(mode, bound, cancellers, steps);
    BoundStays(mode, bound, cancellers, steps);
    var st := Run(Machine(mode), Initial(bound, cancellers), steps).value;
    hide Run, Cut, Reversed;
    forall j | 0 <= j < |st.jobs|
      ensures Fits(st.shared, j, st.jobs[j])
    {
    }
    if st.shared.slot.Some? {
      assert InSlot(st.jobs[st.shared.slot.value].at);
    }
  }

  lemma {:induction false} BoundStays(mode: Mode, bound: nat, cancellers: nat, steps: seq<Step>)
    requires Run(Machine(mode), Initial(bound, cancellers), steps).Some?
    ensures Run(Machine(mode), Initial(bound, cancellers), steps).value.shared.bound == bound
  {
    RunKeeps(Machine(mode), (st: State) => st.shared.bound == bound, step => true, Initial(bound, cancellers), steps);
  }

  /** A job that has left RUNNING never changes its state again. */
  lemma {:induction false} StateIsFinal(mode: Mode, st: State, steps: seq<Step>, j: nat)
    requires Sound(st) && j < |st.jobs| && !st.jobs[j].state.Running?
    requires Run(Machine(mode), st, steps).Some?
    ensures var st' := Run(Machine(mode), st, steps).value;
      j < |st'.jobs| && st'.jobs[j].state == st.jobs[j].state
  {
    var state := st.jobs[j].state;
    forall s, step | Final(s, j, state) && Next(mode, s, step).Some?
      ensures Final(Next(mode, s, step).value, j, state)
    {
      NextFinal(mode, s, step, j, state);
    }
    RunKeeps(Machine(mode), s => Final(s, j, state), step => true, st, steps);
  }

  ghost predicate Final(st: State, j: nat, state: JobState) {
    Sound(st) && j < |st.jobs| && st.jobs[j].state == state && !state.Running?
  }

  lemma NextFinal(mode: Mode, st: State, step: Step, j: nat, state: JobState)
    requires Final(st, j, state) && Next(mode, st, step).Some?
    ensures Final(Next(mode, st, step).value, j, state)
  {
    NextSound(mode, st, step);
    assert Fits(st.shared, j, st.jobs[j]);
    hide Sound, Cut;
  }

  // ---- every exit gives the slot back ----

  /** The next step of a job that is in the slot, if its thread starts and its body ends. */
  function Onward(at: Where): Work
    requires InSlot(at)
  {
    match at
    case Entering => Clear
    case Submitted => Start(true)
    case Body => Finish(Failed)
    case Ended => Release
    case Released => Free
    case Unstarted => FailRelease
    case Unlocked => FailFree
  }

  function After(at: Where): Where
    requires InSlot(at)
  {
    match at
    case Entering => Submitted
    case Submitted => Body
    case Body => Ended
    case Ended => Released
    case Released => Done
    case Unstarted => Unlocked
    case Unlocked => Orphan
  }

  function Distance(at: Where): nat {
    match at
    case Entering => 5
    case Submitted => 4
    case Body => 3
    case Ended => 2
    case Released => 1
    case Unstarted => 2
    case Unlocked => 1
    case _ => 0
  }

  /** What is left for the job to do, one step after the other. */
  function Drain(j: nat, at: Where): (steps: seq<Step>)
    ensures |steps| <= 5
    decreases Distance(at)
  {
    if InSlot(at) then [By(j, Onward(at))] + Drain(j, After(at)) else []
  }

  /** While a submission is under way no other one begins, no slot is freed, and no atomic cancellation gets in; at all
      other times a submission takes the slot exactly if slot and lock are free. */
  lemma SubmissionsApart(mode: Mode, st: State, k: nat, work: Work)
    ensures (exists j :: 0 <= j < |st.jobs| && st.jobs[j].at.Entering?) ==>
      && Next(mode, st, Submit).None? && Next(mode, st, Cancel(k)).None?
      && (work.Free? || work.FailFree? ==> Next(mode, st, By(k, work)).None?)
    ensures (forall j :: 0 <= j < |st.jobs| ==> !st.jobs[j].at.Entering?) ==>
      && Next(mode, st, Submit).Some?
      && var st', n := Next(mode, st, Submit).value, |st.jobs|;
         if st.shared.slot.None? && st.shared.flock.None? then
           && |st'.jobs| == n + 1 && st'.jobs[..n] == st.jobs && st'.jobs[n].state.Running? && st'.jobs[n].at.Entering?
           && st'.shared == st.shared.(slot := Some(n), flock := Some(Mine(n)))
         else st' == st
  {
    hide Act;
  }

  lemma OnwardActs(sh: Shared, j: nat, job: Job)
    requires Fits(sh, j, job) && InSlot(job.at)
    ensures var move := Act(sh, j, job, Onward(job.at));
      && move.Some? && move.value.job.at == After(job.at)
      && (InSlot(After(job.at)) ==> move.value.shared.slot == Some(j))
      && (!InSlot(After(job.at)) ==> move.value.shared.slot.None? && move.value.shared.flock != Some(Mine(j)))
  {
  }

  lemma DrainStep(mode: Mode, st: State, j: nat)
    requires Sound(st) && st.shared.slot == Some(j) && j < |st.jobs|
    ensures InSlot(st.jobs[j].at)
    ensures var next := Next(mode, st, By(j, Onward(st.jobs[j].at)));
      && next.Some? && Sound(next.value)
      && |next.value.jobs| == |st.jobs| && next.value.jobs[j].at == After(st.jobs[j].at)
      && next.value.shared.slot == if InSlot(After(st.jobs[j].at)) then Some(j) else None
  {
    hide Act, Cut, Reversed;
    assert Fits(st.shared, j, st.jobs[j]);
    OnwardActs(st.shared, j, st.jobs[j]);
    if SlotLocked(st) {
      var k :| 0 <= k < |st.jobs| && st.jobs[k].at.Entering?;
      assert Fits(st.shared, k, st.jobs[k]);
    }
    NextSound(mode, st, By(j, Onward(st.jobs[j].at)));
  }

  /** The job in the slot can always go on, and after at most five steps slot and lock are free. */
  lemma {:induction false} SlotDrains(mode: Mode, st: State, j: nat)
    requires Sound(st) && st.shared.slot == Some(j) && j < |st.jobs|
    ensures var end := Run(Machine(mode), st, Drain(j, st.jobs[j].at));
      && end.Some? && end.value.shared.slot.None?
      && (end.value.shared.flock.None? || end.value.shared.flock == Some(Outside))
    decreases Distance(st.jobs[j].at)
  {
    DrainStep(mode, st, j);
    var at := st.jobs[j].at;
    var st' := Next(mode, st, By(j, Onward(at))).value;
    assert Drain(j, at)[1..] == Drain(j, After(at));
    if InSlot(After(at)) {
      hide Next, Sound;
      SlotDrains(mode, st', j);
    } else {
      assert Run(Machine(mode), st', Drain(j, After(at))) == Some(st');
      NoJobNoLock(st');
    }
  }

  lemma NoJobNoLock(st: State)
    requires Sound(st) && st.shared.slot.None?
    ensures st.shared.flock.None? || st.shared.flock == Some(Outside)
  {
    hide Cut, Reversed;
    if st.shared.flock.Some? && st.shared.flock.value.Mine? {
      var j := st.shared.flock.value.job;
      assert Fits(st.shared, j, st.jobs[j]);
    }
  }

  // ---- who a cancellation hits ----

  /** A job that has seen the flag, or is about to find it set, was itself asked to stop. */
  predicate Aimed(sh: Shared, job: Job) {
    && (job.saw ==> job.requested)
    && ((job.at.Submitted? || job.at.Body?) && sh.flag ==> job.requested)
  }

  predicate Starts(at: Where) {
    !at.Unstarted? && !at.Unlocked? && !at.Orphan? && !at.Gone?
  }

  /** `cancel` as one step; and if it does not insist on the job in the slot, no thread may
      fail to start. */
  ghost predicate OnTarget(mode: Mode, st: State) {
    && Sound(st)
    && (forall j :: 0 <= j < |st.jobs| ==> Aimed(st.shared, st.jobs[j]))
    && (forall c :: 0 <= c < |st.cancellers| ==> st.cancellers[c].Ready?)
    && (mode.Atomic? ==> forall j :: 0 <= j < |st.jobs| ==> Starts(st.jobs[j].at))
  }

  predicate Allowed(mode: Mode, step: Step) {
    mode.Atomic? && step.By? && step.work.Start? ==> step.work.ok
  }

  lemma ActAimed(sh: Shared, j: nat, job: Job, work: Work)
    requires Aimed(sh, job) && Act(sh, j, job, work).Some?
    ensures var move := Act(sh, j, job, work).value;
      && Aimed(move.shared, move.job) && (move.shared.flag ==> sh.flag)
      && (Starts(job.at) && (work.Start? ==> work.ok) ==> Starts(move.job.at))
  {
  }

  lemma CancelAimed(mode: Mode, st: State, step: Step)
    requires !mode.AsCoded? && OnTarget(mode, st) && Cancelling(mode, st, step).Some?
    ensures OnTarget(mode, Cancelling(mode, st, step).value)
  {
    CancelSound(mode, st, step);
    var st' := Cancelling(mode, st, step).value;
    hide Cut;
    if step.Cancel? && step.job < |st.jobs| {
      assert Fits(st.shared, step.job, st.jobs[step.job]);
    }
    forall k | 0 <= k < |st'.jobs|
      ensures Aimed(st'.shared, st'.jobs[k])
    {
      assert Fits(st.shared, k, st.jobs[k]) && Aimed(st.shared, st.jobs[k]);
    }
  }

  lemma NextAimed(mode: Mode, st: State, step: Step)
    requires !mode.AsCoded? && OnTarget(mode, st) && Allowed(mode, step) && Next(mode, st, step).Some?
    ensures OnTarget(mode, Next(mode, st, step).value)
  {
    NextSound(mode, st, step);
    var st' := Next(mode, st, step).value;
    match step
    case Submit => hide Sound, Cancelling;
    case By(j, work) =>
      ActAimed(st.shared, j, st.jobs[j], work);
      hide Act, Sound, Cancelling, Starts;
      forall k | 0 <= k < |st'.jobs|
        ensures Aimed(st'.shared, st'.jobs[k])
      {
        assert Aimed(st.shared, st.jobs[k]);
      }
    case OutsideTake => hide Sound, Cancelling;
    case OutsideFree => hide Sound, Cancelling;
    case _ => CancelAimed(mode, st, step);
  }

  /** With `cancel` as one step, a job sees the cancel flag only if it was asked to stop: always
      when `cancel` insists on the job in the slot, and otherwise as long as every worker thread
      starts. */
  lemma {:induction false} CancelHitsItsTarget(mode: Mode, bound: nat, cancellers: nat, steps: seq<Step>)
    requires !mode.AsCoded? && Run(Machine(mode), Initial(bound, cancellers), steps).Some?
    requires forall i :: 0 <= i < |steps| ==> Allowed(mode, steps[i])
    ensures var st := Run(Machine(mode), Initial(bound, cancellers), steps).value;
      forall j :: 0 <= j < |st.jobs| && st.jobs[j].saw ==> st.jobs[j].requested
  {
    forall st, step: Step | OnTarget(mode, st) && Allowed(mode, step) && Next(mode, st, step).Some?
      ensures OnTarget(mode, Next(mode, st, step).value)
    {
      NextAimed(mode, st, step);
    }
    RunKeeps(Machine(mode), st => OnTarget(mode, st), step => Allowed(mode, step), Initial(bound, cancellers), steps);
    var st := Run(Machine(mode), Initial(bound, cancellers), steps).value;
    forall j | 0 <= j < |st.jobs|
      ensures Aimed(st.shared, st.jobs[j])
    {
    }
  }

  predicate Listens(at: Where) {
    at.Submitted? || at.Body?
  }

  ghost predicate AllAimed(st: State) {
    forall j :: 0 <= j < |st.jobs| ==> Aimed(st.shared, st.jobs[j])
  }

  predicate SetsFlag(mode: Mode, st: State, step: Step) {
    match step
    case Set(c) => c < |st.cancellers| && st.cancellers[c].Marked?
    case Cancel(j) =>
      !mode.AsCoded? && !SlotLocked(st) && Cancellable(st, j) && (mode.Current? ==> st.shared.slot == Some(j))
    case _ => false
  }

  /** The flag is set while a job listens that nobody asked to stop. */
  ghost predicate Strays(mode: Mode, st: State, step: Step) {
    && SetsFlag(mode, st, step)
    && exists j :: 0 <= j < |st.jobs| && Listens(st.jobs[j].at) && !st.jobs[j].requested && step != Cancel(j)
  }

  /** Of all steps, in the code as it is too, exactly that one lets a cancellation hit a job it
      was not meant for. */
  lemma CancelStraysIff(mode: Mode, st: State, step: Step)
    requires AllAimed(st) && Next(mode, st, step).Some?
    ensures AllAimed(Next(mode, st, step).value) <==> !Strays(mode, st, step)
  {
    var st' := Next(mode, st, step).value;
    if step.By? {
      ActAimed(st.shared, step.j, st.jobs[step.j], step.work);
    }
    hide Act, Starts, Cut;
    if Strays(mode, st, step) {
      var j :| 0 <= j < |st.jobs| && Listens(st.jobs[j].at) && !st.jobs[j].requested && step != Cancel(j);
      assert !Aimed(st'.shared, st'.jobs[j]);
    } else {
      forall k | 0 <= k < |st'.jobs|
        ensures Aimed(st'.shared, st'.jobs[k])
      {
        assert k < |st.jobs| ==> Aimed(st.shared, st.jobs[k]);
      }
    }
  }

  /** So in every run of the code without that step, only jobs that were asked to stop see the
      flag. */
  lemma {:induction false} CancelsAimedHit(mode: Mode, bound: nat, cancellers: nat, steps: seq<Step>)
    requires Run(Machine(mode), Initial(bound, cancellers), steps).Some?
    requires Along(Machine(mode), (st, step) => !Strays(mode, st, step), Initial(bound, cancellers), steps)
    ensures var st := Run(Machine(mode), Initial(bound, cancellers), steps).value;
      forall j :: 0 <= j < |st.jobs| && st.jobs[j].saw ==> st.jobs[j].requested
  {
    forall st: State, step: Step | AllAimed(st) && !Strays(mode, st, step) && Next(mode, st, step).Some?
      ensures AllAimed(Next(mode, st, step).value)
    {
      CancelStraysIff(mode, st, step);
    }
    hide AllAimed;
    NobodyYet(bound, cancellers);
    AlongKeeps(Machine(mode), (st: State) => AllAimed(st), (st, step) => !Strays(mode, st, step),
               Initial(bound, cancellers), steps);
    SeenIsAimed(Run(Machine(mode), Initial(bound, cancellers), steps).value);
  }

  lemma NobodyYet(bound: nat, cancellers: nat)
    ensures AllAimed(Initial(bound, cancellers))
  {
  }

  lemma SeenIsAimed(st: State)
    requires AllAimed(st)
    ensures forall j :: 0 <= j < |st.jobs| && st.jobs[j].saw ==> st.jobs[j].requested
  {
    forall j | 0 <= j < |st.jobs| && st.jobs[j].saw ensures st.jobs[j].requested {
      assert Aimed(st.shared, st.jobs[j]);
    }
  }

  // ---- when a cancellation reaches its job ----

  /** Job `j` has the flag set for as long as it can look at it. */
  ghost predicate Pressed(st: State, j: nat) {
    Sound(st) && j < |st.jobs| && !st.jobs[j].at.Entering? && (Listens(st.jobs[j].at) ==> st.shared.flag)
  }

  /** What a step of another thread, or of another job, does to a job that listens: nothing, and
      it leaves the flag set. */
  lemma NextPressed(mode: Mode, st: State, step: Step, j: nat)
    requires Pressed(st, j) && Next(mode, st, step).Some?
    ensures Pressed(Next(mode, st, step).value, j)
    ensures st.jobs[j].saw ==> Next(mode, st, step).value.jobs[j].saw
    ensures step == By(j, Check) && st.jobs[j].at.Body? ==> Next(mode, st, step).value.jobs[j].saw
  {
    NextSound(mode, st, step);
    assert Fits(st.shared, j, st.jobs[j]);
    if step.By? {
      assert Fits(st.shared, step.j, st.jobs[step.j]);
    }
    hide Sound, Cut;
  }

  /** Job `j` has seen the flag, or still has it set. */
  ghost predicate Answered(st: State, j: nat, saw: bool) {
    Pressed(st, j) && (saw ==> st.jobs[j].saw)
  }

  /** A cancellation that is confirmed while its job is submitted or running reaches it, in the code
      as it is: whatever happens in between, as long as the body goes on its next look finds the
      flag set; and once it has looked, it has seen it. */
  lemma {:induction false} CancelReachesItsJob(mode: Mode, st: State, c: nat, before: seq<Step>, after: seq<Step>)
    requires Sound(st) && c < |st.cancellers| && st.cancellers[c].Marked?
    requires var j := st.cancellers[c].job; j < |st.jobs| && Listens(st.jobs[j].at)
    requires var j := st.cancellers[c].job;
      Run(Machine(mode), st, [Set(c)] + before + [By(j, Check)] + after).Some?
    ensures var j := st.cancellers[c].job;
      var end := Run(Machine(mode), st, [Set(c)] + before + [By(j, Check)] + after).value;
      j < |end.jobs| && end.jobs[j].saw
  {
    var j := st.cancellers[c].job;
    var m := Machine(mode);
    var check := By(j, Check);
    var set1 := Next(mode, st, Set(c)).value;
    assert Pressed(set1, j) by {
      NextSound(mode, st, Set(c));
      hide Sound;
    }
    assert [Set(c)] + before + [check] + after == [Set(c)] + (before + ([check] + after));
    RunStep(mode, st, Set(c), before + ([check] + after));
    RunSplit(mode, set1, before, [check] + after);
    forall s: State, step: Step | Pressed(s, j) && Next(mode, s, step).Some?
      ensures Pressed(Next(mode, s, step).value, j)
      ensures s.jobs[j].saw ==> Next(mode, s, step).value.jobs[j].saw
    {
      NextPressed(mode, s, step, j);
    }
    hide Pressed, Next;
    RunKeeps(m, s => Pressed(s, j), step => true, set1, before);
    var mid := Run(m, set1, before).value;
    RunStep(mode, mid, check, after);
    var seen := Next(mode, mid, check).value;
    CheckSees(mode, mid, j);
    SawStays(mode, seen, j, after);
  }

  lemma CheckSees(mode: Mode, st: State, j: nat)
    requires Pressed(st, j) && Next(mode, st, By(j, Check)).Some?
    ensures Pressed(Next(mode, st, By(j, Check)).value, j)
    ensures Next(mode, st, By(j, Check)).value.jobs[j].saw
  {
    NextPressed(mode, st, By(j, Check), j);
  }

  lemma {:induction false} SawStays(mode: Mode, st: State, j: nat, steps: seq<Step>)
    requires Answered(st, j, true) && Run(Machine(mode), st, steps).Some?
    ensures Answered(Run(Machine(mode), st, steps).value, j, true)
  {
    forall s: State, step: Step | Answered(s, j, true) && Next(mode, s, step).Some?
      ensures Answered(Next(mode, s, step).value, j, true)
    {
      NextPressed(mode, s, step, j);
      hide Next, Pressed;
    }
    RunKeeps(Machine(mode), s => Answered(s, j, true), step => true, st, steps);
  }

  lemma {:induction false} RunStep(mode: Mode, st: State, step: Step, rest: seq<Step>)
    requires Run(Machine(mode), st, [step] + rest).Some?
    ensures Next(mode, st, step).Some?
    ensures Run(Machine(mode), st, [step] + rest) == Run(Machine(mode), Next(mode, st, step).value, rest)
  {
    assert ([step] + rest)[1..] == rest;
  }

  lemma {:induction false} RunSplit(mode: Mode, st: State, steps: seq<Step>, more: seq<Step>)
    requires Run(Machine(mode), st, steps + more).Some?
    ensures Run(Machine(mode), st, steps).Some?
    ensures Run(Machine(mode), st, steps + more) == Run(Machine(mode), Run(Machine(mode), st, steps).value, more)
    decreases |steps|
  {
    hide Next;
    if steps == [] {
      assert steps + more == more;
    } else {
      assert (steps + more)[1..] == steps[1..] + more;
      RunSplit(mode, Next(mode, st, steps[0]).value, steps[1..], more);
    }
  }

  /** The flag as job `j` will find it, given whether it was set while the job was still entering. */
  ghost predicate Foreseen(st: State, j: nat, entering: bool) {
    && Sound(st) && j < |st.jobs|
    && (Listens(st.jobs[j].at) ==> (st.shared.flag <==> !entering))
    && (st.jobs[j].at.Entering? ==> entering)
  }

  lemma NextForeseen(mode: Mode, st: State, step: Step, j: nat, entering: bool)
    requires Foreseen(st, j, entering) && !step.Set? && !step.Cancel? && Next(mode, st, step).Some?
    ensures Foreseen(Next(mode, st, step).value, j, entering)
  {
    NextSound(mode, st, step);
    assert Fits(st.shared, j, st.jobs[j]);
    if step.By? {
      assert Fits(st.shared, step.j, st.jobs[step.j]);
    }
    hide Sound, Cut;
  }

  /** So a set flag is erased before its job can look, exactly if it was set while `submit` was
      still on the way from publishing the job to clearing the flag. */
  lemma {:induction false} CancelIsLostIff(mode: Mode, st: State, j: nat, steps: seq<Step>)
    requires Sound(st) && st.shared.flag && j < |st.jobs|
    requires st.jobs[j].at.Entering? || Listens(st.jobs[j].at)
    requires forall i :: 0 <= i < |steps| ==> !steps[i].Set? && !steps[i].Cancel?
    requires Run(Machine(mode), st, steps).Some?
    requires var end := Run(Machine(mode), st, steps).value; j < |end.jobs| && Listens(end.jobs[j].at)
    ensures !Run(Machine(mode), st, steps).value.shared.flag <==> st.jobs[j].at.Entering?
  {
    var entering := st.jobs[j].at.Entering?;
    forall s: State, step: Step | Foreseen(s, j, entering) && !step.Set? && !step.Cancel? && Next(mode, s, step).Some?
      ensures Foreseen(Next(mode, s, step).value, j, entering)
    {
      NextForeseen(mode, s, step, j, entering);
    }
    RunKeeps(Machine(mode), s => Foreseen(s, j, entering), (step: Step) => !step.Set? && !step.Cancel?, st, steps);
  }

  // ---- what goes wrong, in any state in which the slot is free ----

  ghost predicate FreeSlot(st: State) {
    st.shared.slot.None? && st.shared.flock.None? && forall j :: 0 <= j < |st.jobs| ==> !st.jobs[j].at.Entering?
  }

  /** `st` with one more job, which holds slot and lock and has got as far as `at`. */
  function Holding(st: State, job: Job): State {
    st.(shared := st.shared.(slot := Some(|st.jobs|), flock := Some(Mine(|st.jobs|)), flag := false),
        jobs := st.jobs + [job])
  }

  lemma {:induction false} Then(mode: Mode, first: State, steps: seq<Step>, step: Step)
    requires Run(Machine(mode), first, steps).Some?
    ensures Run(Machine(mode), first, steps + [step]) == Next(mode, Run(Machine(mode), first, steps).value, step)
  {
    hide Next;
    RunSnoc(Machine(mode), first, steps, step);
  }

  lemma ReplaceLast<T>(s: seq<T>, x: T, y: T)
    ensures (s + [x])[|s| := y] == s + [y]
  {
  }

  function Taken(n: nat): seq<Step> {
    [Submit] + [By(n, Clear)]
  }

  /** `submit` up to the point where the thread is to be started. */
  lemma {:induction false} SubmitTakes(mode: Mode, st: State)
    requires FreeSlot(st)
    ensures Run(Machine(mode), st, Taken(|st.jobs|)) == Some(Holding(st, Job(Running, Submitted, false, false)))
  {
    assert Run(Machine(mode), st, [Submit]) == Submitting(st);
    Then(mode, st, [Submit], By(|st.jobs|, Clear));
    ReplaceLast(st.jobs, Job(Running, Entering, false, false), Job(Running, Submitted, false, false));
  }

  /** The newest job takes one step. */
  lemma {:induction false} NewestActs(mode: Mode, first: State, steps: seq<Step>, jobs: seq<Job>, job: Job, work: Work)
    requires !work.Free? && !work.FailFree?
    requires var run := Run(Machine(mode), first, steps);
      run.Some? && run.value.jobs == jobs + [job] && Act(run.value.shared, |jobs|, job, work).Some?
    ensures var st := Run(Machine(mode), first, steps).value;
      var move := Act(st.shared, |jobs|, job, work).value;
      Run(Machine(mode), first, steps + [By(|jobs|, work)])
        == Some(st.(shared := move.shared, jobs := jobs + [move.job]))
  {
    hide Act;
    var st := Run(Machine(mode), first, steps).value;
    Then(mode, first, steps, By(|jobs|, work));
    ReplaceLast(jobs, job, Act(st.shared, |jobs|, job, work).value.job);
  }

  /** The newest job starts, is looked up by canceller `c`, and ends before it is marked. */
  function EndsUnderLook(n: nat, c: nat): seq<Step> {
    Taken(n) + [By(n, Start(true))] + [Look(c, n)] + [By(n, Finish(Succeeded))] + [By(n, Release)] + [By(n, Free)]
  }

  lemma {:induction false} JobEndsUnderLook(st: State, c: nat)
    requires FreeSlot(st) && c < |st.cancellers| && st.cancellers[c].Ready?
    ensures var n := |st.jobs|;
      var end := Run(Machine(AsCoded), st, EndsUnderLook(n, c));
      && end.Some? && FreeSlot(end.value)
      && end.value.jobs == st.jobs + [Job(Succeeded, Done, false, false)]
      && end.value.cancellers == st.cancellers[c := Looked(n)]
  {
    hide Run, FreeSlot;
    var n := |st.jobs|;
    SubmitTakes(AsCoded, st);
    var t1 := Taken(n) + [By(n, Start(true))];
    var t2 := t1 + [Look(c, n)];
    var t3 := t2 + [By(n, Finish(Succeeded))];
    NewestActs(AsCoded, st, Taken(n), st.jobs, Job(Running, Submitted, false, false), Start(true));
    Then(AsCoded, st, t1, Look(c, n));
    NewestActs(AsCoded, st, t2, st.jobs, Job(Running, Body, false, false), Finish(Succeeded));
    NewestActs(AsCoded, st, t3, st.jobs, Job(Succeeded, Ended, false, false), Release);
    NewestFrees(st, c, t3 + [By(n, Release)]);
  }

  /** The last of those steps. */
  lemma {:induction false} NewestFrees(st: State, c: nat, steps: seq<Step>)
    requires FreeSlot(st) && c < |st.cancellers|
    requires var n := |st.jobs|;
      Run(Machine(AsCoded), st, steps) == Some(
        Holding(st, Job(Succeeded, Released, false, false)).(
          shared := st.shared.(slot := Some(n), flock := None, flag := false),
          cancellers := st.cancellers[c := Looked(n)]))
    ensures var n := |st.jobs|;
      var end := Run(Machine(AsCoded), st, steps + [By(n, Free)]);
      && end.Some? && FreeSlot(end.value)
      && end.value.jobs == st.jobs + [Job(Succeeded, Done, false, false)]
      && end.value.cancellers == st.cancellers[c := Looked(n)]
  {
    hide Cut;
    Then(AsCoded, st, steps, By(|st.jobs|, Free));
    ReplaceLast(st.jobs, Job(Succeeded, Released, false, false), Job(Succeeded, Done, false, false));
  }

  function Crosstalk(n: nat, c: nat): seq<Step> {
    EndsUnderLook(n, c) + StoppedFor(n + 1, [Mark(c)] + [Set(c)])
  }

  /** The newest job starts, and finds the flag set after `cancel`. */
  function StoppedFor(n: nat, cancel: seq<Step>): seq<Step> {
    Taken(n) + [By(n, Start(true))] + cancel + [By(n, Check)]
  }

  /** A canceller that has looked at job `j` before sets the flag for whoever is in the slot. */
  lemma {:induction false} LateCancel(st: State, c: nat, j: nat)
    requires FreeSlot(st) && c < |st.cancellers| && st.cancellers[c] == Looked(j) && j < |st.jobs|
    ensures var n := |st.jobs|;
      var end := Run(Machine(AsCoded), st, StoppedFor(n, [Mark(c)] + [Set(c)]));
      && end.Some? && |end.value.jobs| == n + 1
      && end.value.jobs[n].saw && !end.value.jobs[n].requested && end.value.jobs[j].requested
  {
    hide Run;
    var n := |st.jobs|;
    var job := Job(Running, Body, false, false);
    SubmitTakes(AsCoded, st);
    var t1 := Taken(n) + [By(n, Start(true))];
    NewestActs(AsCoded, st, Taken(n), st.jobs, Job(Running, Submitted, false, false), Start(true));
    Then(AsCoded, st, t1, Mark(c));
    var marked := st.jobs[j := st.jobs[j].(requested := true)];
    assert (st.jobs + [job])[j := st.jobs[j].(requested := true)] == marked + [job];
    Then(AsCoded, st, t1 + [Mark(c)], Set(c));
    NewestActs(AsCoded, st, t1 + [Mark(c)] + [Set(c)], marked, job, Check);
    assert StoppedFor(n, [Mark(c)] + [Set(c)]) == t1 + [Mark(c)] + [Set(c)] + [By(n, Check)];
  }

  /** As the code stands, from any state with a free slot: cancelling a job just as it ends stops
      the next one, which nobody asked to stop. */
  lemma {:induction false} CancelHitsAnother(st: State, c: nat)
    requires FreeSlot(st) && c < |st.cancellers| && st.cancellers[c].Ready?
    ensures var n := |st.jobs|;
      var end := Run(Machine(AsCoded), st, Crosstalk(n, c));
      && end.Some? && |end.value.jobs| == n + 2
      && end.value.jobs[n + 1].saw && !end.value.jobs[n + 1].requested && end.value.jobs[n].requested
  {
    hide Run, EndsUnderLook, StoppedFor, FreeSlot;
    var n := |st.jobs|;
    JobEndsUnderLook(st, c);
    var mid := Run(Machine(AsCoded), st, EndsUnderLook(n, c)).value;
    LateCancel(mid, c, n);
    RunOn(Machine(AsCoded), st, EndsUnderLook(n, c), StoppedFor(n + 1, [Mark(c)] + [Set(c)]));
  }

  /** The newest job, whose thread does not start. */
  function Orphaned(n: nat): seq<Step> {
    Taken(n) + [By(n, Start(false))] + [By(n, FailRelease)] + [By(n, FailFree)]
  }

  lemma {:induction false} JobIsOrphaned(mode: Mode, st: State)
    requires FreeSlot(st)
    ensures var n := |st.jobs|;
      var end := Run(Machine(mode), st, Orphaned(n));
      && end.Some? && FreeSlot(end.value) && end.value.cancellers == st.cancellers
      && end.value.jobs == st.jobs + [Job(Running, Orphan, false, false)]
  {
    hide Run;
    var n := |st.jobs|;
    SubmitTakes(mode, st);
    var t1 := Taken(n) + [By(n, Start(false))];
    NewestActs(mode, st, Taken(n), st.jobs, Job(Running, Submitted, false, false), Start(false));
    NewestActs(mode, st, t1, st.jobs, Job(Running, Unstarted, false, false), FailRelease);
    Then(mode, st, t1 + [By(n, FailRelease)], By(n, FailFree));
    ReplaceLast(st.jobs, Job(Running, Unlocked, false, false), Job(Running, Orphan, false, false));
  }

  lemma {:induction false} AtomicLateCancel(st: State, j: nat)
    requires FreeSlot(st) && j < |st.jobs| && st.jobs[j].state.Running?
    ensures var n := |st.jobs|;
      var end := Run(Machine(Atomic), st, StoppedFor(n, [Cancel(j)]));
      && end.Some? && |end.value.jobs| == n + 1
      && end.value.jobs[n].saw && !end.value.jobs[n].requested && end.value.jobs[j].requested
  {
    hide Run;
    var n := |st.jobs|;
    var job := Job(Running, Body, false, false);
    SubmitTakes(Atomic, st);
    var t1 := Taken(n) + [By(n, Start(true))];
    NewestActs(Atomic, st, Taken(n), st.jobs, Job(Running, Submitted, false, false), Start(true));
    Then(Atomic, st, t1, Cancel(j));
    var marked := st.jobs[j := st.jobs[j].(requested := true)];
    assert (st.jobs + [job])[j := st.jobs[j].(requested := true)] == marked + [job];
    NewestActs(Atomic, st, t1 + [Cancel(j)], marked, job, Check);
    assert StoppedFor(n, [Cancel(j)]) == t1 + [Cancel(j)] + [By(n, Check)];
  }

  /** One atomic step for `cancel` is not enough: a job whose thread did not start gives up its
      slot while it still counts as running, and cancelling it then stops the next one. */
  lemma CancelHitsAnotherStill(st: State)
    requires FreeSlot(st)
    ensures var n := |st.jobs|;
      var end := Run(Machine(Atomic), st, Orphaned(n) + StoppedFor(n + 1, [Cancel(n)]));
      && end.Some? && |end.value.jobs| == n + 2
      && end.value.jobs[n + 1].saw && !end.value.jobs[n + 1].requested && end.value.jobs[n].requested
  {
    hide Run, Orphaned, StoppedFor, FreeSlot;
    var n := |st.jobs|;
    JobIsOrphaned(Atomic, st);
    var mid := Run(Machine(Atomic), st, Orphaned(n)).value;
    AtomicLateCancel(mid, n);
    RunOn(Machine(Atomic), st, Orphaned(n), StoppedFor(n + 1, [Cancel(n)]));
  }

  function Early(n: nat, c: nat): seq<Step> {
    [Submit] + [Look(c, n)] + [Mark(c)] + [Set(c)] + [By(n, Clear)] + [By(n, Start(true))]
  }

  /** And as the code stands a cancellation can also get lost: one that arrives while `submit`
      has published the job but not yet cleared the flag is confirmed, and its flag erased. */
  lemma {:induction false} CancelIsLost(st: State, c: nat)
    requires FreeSlot(st) && c < |st.cancellers| && st.cancellers[c].Ready?
    ensures var n := |st.jobs|;
      var end := Run(Machine(AsCoded), st, Early(n, c));
      && end.Some? && end.value.cancellers == st.cancellers
      && end.value.jobs == st.jobs + [Job(Running, Body, true, false)] && !end.value.shared.flag
  {
    var n := |st.jobs|;
    var entering := Job(Running, Entering, false, false);
    assert Run(Machine(AsCoded), st, [Submit]) == Submitting(st);
    hide Run;
    var t1 := [Submit] + [Look(c, n)];
    var t2 := t1 + [Mark(c)];
    var t3 := t2 + [Set(c)];
    Then(AsCoded, st, [Submit], Look(c, n));
    Then(AsCoded, st, t1, Mark(c));
    ReplaceLast(st.jobs, entering, entering.(requested := true));
    Then(AsCoded, st, t2, Set(c));
    assert st.cancellers[c := Looked(n)][c := Marked(n)][c := Ready] == st.cancellers;
    NewestActs(AsCoded, st, t3, st.jobs, entering.(requested := true), Clear);
    NewestActs(AsCoded, st, t3 + [By(n, Clear)], st.jobs, Job(Running, Submitted, true, false), Start(true));
  }
}
