/** Edits of one shared file: load, change, write beside it, rename. */
module Transactions {
  import opened Runs
  import opened Text

  // `D` is what a document says and `E` an edit; `apply` does the edit, or raises.

  /** A file that is being written can be seen half written. */
  datatype Contents<D> = Missing | Torn | Whole(doc: D)

  /** `guarded` processes take the lock first, and drop it last. */
  datatype Phase<D, E> =
    | Idle
    | Begun(guarded: bool, edit: E)
    | Loaded(guarded: bool, edit: E, doc: D)
    | Changed(guarded: bool, edit: E, doc: D)
    | Writing(guarded: bool, edit: E, doc: D)
    | Written(guarded: bool, edit: E, doc: D)
    | Leaving(guarded: bool)

  datatype World<D, E> = World(file: Contents<D>, temp: Contents<D>, lock: Maybe<nat>, committed: seq<E>)

  datatype State<D, E> = State(world: World<D, E>, procs: seq<Phase<D, E>>)

  datatype Action<E> =
    | Begin(guarded: bool, edit: E)
    | Load
    | Change
    | Open
    | Fill
    | Rename
    | Leave
    | Raise
    | Crash

  datatype Step<E> = By(p: nat, action: Action<E>)

  datatype Move<D, E> = Move(world: World<D, E>, phase: Phase<D, E>)

  function Unlocked<D, E>(w: World<D, E>, p: nat): World<D, E> {
    if w.lock == Some(p) then w.(lock := None) else w
  }

  /** One step of a process. A step that fails in the code leads to `Leaving`. */
  function Act<D, E>(apply: (E, D) -> Maybe<D>, w: World<D, E>, p: nat, ph: Phase<D, E>, action: Action<E>)
    : Maybe<Move<D, E>>
  {
    match ph
    case Idle =>
      if !action.Begin? || (action.guarded && w.lock.Some?) then None
      else Some(Move(if action.guarded then w.(lock := Some(p)) else w, Begun(action.guarded, action.edit)))
    case Begun(guarded, edit) =>
      if action.Load? then
        Some(Move(w, if w.file.Whole? then Loaded(guarded, edit, w.file.doc) else Leaving(guarded)))
      else Out(w, p, ph, action)
    case Loaded(guarded, edit, doc) =>
      if action.Change? then
        var changed := apply(edit, doc);
        Some(Move(w, if changed.Some? then Changed(guarded, edit, changed.value) else Leaving(guarded)))
      else Out(w, p, ph, action)
    case Changed(guarded, edit, doc) =>
      if action.Open? then Some(Move(w.(temp := Torn), Writing(guarded, edit, doc))) else Out(w, p, ph, action)
    case Writing(guarded, edit, doc) =>
      if action.Fill? && w.temp.Torn? then Some(Move(w.(temp := Whole(doc)), Written(guarded, edit, doc)))
      else Out(w, p, ph, action)
    case Written(guarded, edit, _) =>
      if !action.Rename? then Out(w, p, ph, action)
      else if w.temp.Missing? then Some(Move(w, Leaving(guarded)))
      else Some(Move(w.(file := w.temp, temp := Missing, committed := w.committed + [edit]), Leaving(guarded)))
    case Leaving(_) =>
      if action.Leave? || action.Crash? then Some(Move(Unlocked(w, p), Idle)) else None
  }

  /** An exception, or the end of the process, in the middle of a transaction. */
  function Out<D, E>(w: World<D, E>, p: nat, ph: Phase<D, E>, action: Action<E>): Maybe<Move<D, E>>
    requires !ph.Idle?
  {
    if action.Raise? then Some(Move(w, Leaving(ph.guarded)))
    else if action.Crash? then Some(Move(Unlocked(w, p), Idle))
    else None
  }

  function Next<D, E>(apply: (E, D) -> Maybe<D>, st: State<D, E>, step: Step<E>): Maybe<State<D, E>> {
    if step.p >= |st.procs| then None
    else
      match Act(apply, st.world, step.p, st.procs[step.p], step.action)
      case Some(move) => Some(State(move.world, st.procs[step.p := move.phase]))
      case None => None
  }

  function Machine<D, E>(apply: (E, D) -> Maybe<D>): (State<D, E>, Step<E>) -> Maybe<State<D, E>> {
    (st, step) => Next(apply, st, step)
  }

  function Initial<D, E>(doc: D, processes: nat): State<D, E> {
    State(World(Whole(doc), Missing, None, []), seq(processes, i => Idle))
  }

  /** One edit after the other, by one process: what a run should amount to. */
  function Serially<D, E>(apply: (E, D) -> Maybe<D>, doc: D, edits: seq<E>): Maybe<D> {
    if edits == [] then Some(doc)
    else
      match Serially(apply, doc, edits[..|edits| - 1])
      case Some(before) => apply(edits[|edits| - 1], before)
      case None => None
  }

  /** One transaction: begin, load, change, open, fill, rename, leave, in that order. A process can break off at any
      point; its lock is free then, and the file as it was. */
  lemma StepsInOrder<D, E>(apply: (E, D) -> Maybe<D>, st: State<D, E>, p: nat, action: Action<E>)
    requires p < |st.procs|
    ensures var ph := st.procs[p];
      Next(apply, st, By(p, action)).Some? <==>
        || (action.Begin? && ph.Idle? && (action.guarded ==> st.world.lock.None?))
        || (action.Load? && ph.Begun?) || (action.Change? && ph.Loaded?) || (action.Open? && ph.Changed?)
        || (action.Fill? && ph.Writing? && st.world.temp.Torn?) || (action.Rename? && ph.Written?)
        || (action.Leave? && ph.Leaving?) || (action.Raise? && !ph.Idle? && !ph.Leaving?)
        || (action.Crash? && !ph.Idle?)
    ensures (action.Raise? || action.Crash? || action.Leave?) && Next(apply, st, By(p, action)).Some? ==>
      var st' := Next(apply, st, By(p, action)).value;
      && st'.world.file == st.world.file && st'.world.temp == st.world.temp && st'.world.committed == st.world.committed
      && (!action.Raise? ==>
            st'.procs[p].Idle? && st'.world.lock == if st.world.lock == Some(p) then None else st.world.lock)
      && (action.Raise? ==> st'.procs[p] == Leaving(st.procs[p].guarded) && st'.world.lock == st.world.lock)
  {
  }

  lemma {:induction false} SeriallySnoc<D, E>(apply: (E, D) -> Maybe<D>, doc: D, edits: seq<E>, edit: E)
    requires Serially(apply, doc, edits).Some?
    ensures Serially(apply, doc, edits + [edit]) == apply(edit, Serially(apply, doc, edits).value)
  {
    assert (edits + [edit])[..|edits|] == edits;
  }

  predicate Serial<D(==), E>(apply: (E, D) -> Maybe<D>, doc: D, w: World<D, E>) {
    w.file.Whole? && Serially(apply, doc, w.committed) == Some(w.file.doc)
  }

  // ---- exactly which step goes wrong ----

  /** A rename of something that is not what the edit makes of the file as it is by then. */
  predicate Spoils<D(==), E>(apply: (E, D) -> Maybe<D>, st: State<D, E>, step: Step<E>) {
    && step.action.Rename? && step.p < |st.procs| && st.procs[step.p].Written? && !st.world.temp.Missing?
    && st.world.file.Whole?
    && !(st.world.temp.Whole? && apply(st.procs[step.p].edit, st.world.file.doc) == Some(st.world.temp.doc))
  }

  /** With locked and unlocked writers alike, one step and no other takes the file away from what the
      committed edits give one after the other. */
  lemma SpoilsIff<D, E>(apply: (E, D) -> Maybe<D>, doc: D, st: State<D, E>, step: Step<E>)
    requires Serial(apply, doc, st.world) && Next(apply, st, step).Some?
    ensures Serial(apply, doc, Next(apply, st, step).value.world) <==> !Spoils(apply, st, step)
  {
    var ph := st.procs[step.p];
    if ph.Written? && step.action.Rename? {
      SeriallySnoc(apply, doc, st.world.committed, ph.edit);
    }
  }

  /** So in every run without that step, crashes and exceptions included, no committed edit is
      lost. */
  lemma {:induction false} UnspoiledIsSerial<D(!new), E(!new)>(
      apply: (E, D) -> Maybe<D>, doc: D, processes: nat, steps: seq<Step<E>>)
    requires Run(Machine(apply), Initial(doc, processes), steps).Some?
    requires Along(Machine(apply), (st, step) => !Spoils(apply, st, step), Initial(doc, processes), steps)
    ensures Serial(apply, doc, Run(Machine(apply), Initial(doc, processes), steps).value.world)
  {
    forall st: State<D, E>, step: Step<E> | Serial(apply, doc, st.world) && !Spoils(apply, st, step)
        && Next(apply, st, step).Some?
      ensures Serial(apply, doc, Next(apply, st, step).value.world)
    {
      hide Next, Serial, Spoils;
      SpoilsIff(apply, doc, st, step);
    }
    hide Next, Spoils;
    AlongKeeps(Machine(apply), (st: State<D, E>) => Serial(apply, doc, st.world),
               (st, step) => !Spoils(apply, st, step), Initial(doc, processes), steps);
  }

  // ---- one at a time, with the lock or without ----

  predicate Inside<D, E>(ph: Phase<D, E>) {
    !ph.Idle?
  }

  /** A process in a transaction has the lock if it wanted it, has read what is still in the file,
      and has written what its edit makes of that. */
  predicate Fits<D(==), E>(apply: (E, D) -> Maybe<D>, w: World<D, E>, p: nat, ph: Phase<D, E>) {
    && (Inside(ph) && ph.guarded <==> w.lock == Some(p))
    && (ph.Loaded? ==> w.file == Whole(ph.doc))
    && (ph.Changed? || ph.Writing? || ph.Written? ==>
          w.file.Whole? && apply(ph.edit, w.file.doc) == Some(ph.doc))
    && (ph.Writing? ==> w.temp.Torn?)
    && (ph.Written? ==> w.temp == Whole(ph.doc))
  }

  ghost predicate OneInside<D, E>(procs: seq<Phase<D, E>>) {
    forall p, q :: 0 <= p < q < |procs| ==> !Inside(procs[p]) || !Inside(procs[q])
  }

  ghost predicate Sound<D, E>(apply: (E, D) -> Maybe<D>, doc: D, st: State<D, E>) {
    && Serial(apply, doc, st.world) && OneInside(st.procs)
    && forall p :: 0 <= p < |st.procs| ==> Fits(apply, st.world, p, st.procs[p])
  }

  /** A transaction without the lock begins while nobody else is inside, and one with it while nobody
      is inside without; the lock sees to the rest. */
  ghost predicate Courteous<D, E>(st: State<D, E>, step: Step<E>) {
    step.action.Begin? ==>
      forall q :: 0 <= q < |st.procs| && q != step.p && Inside(st.procs[q]) ==>
        st.procs[q].guarded && step.action.guarded
  }

  lemma ActFits<D, E>(apply: (E, D) -> Maybe<D>, w: World<D, E>, p: nat, ph: Phase<D, E>, action: Action<E>)
    requires Fits(apply, w, p, ph) && w.file.Whole? && Act(apply, w, p, ph, action).Some?
    ensures var move := Act(apply, w, p, ph, action).value;
      && Fits(apply, move.world, p, move.phase)
      && (!Inside(ph) ==> action.Begin? && (action.guarded ==> w.lock.None?)
                          && move.world == if action.guarded then w.(lock := Some(p)) else w)
      && (move.world.lock == w.lock || move.world.lock == None || move.world.lock == Some(p))
  {
  }

  lemma NeverSpoils<D, E>(apply: (E, D) -> Maybe<D>, doc: D, st: State<D, E>, step: Step<E>)
    requires Sound(apply, doc, st)
    ensures !Spoils(apply, st, step)
  {
    hide Serial, OneInside;
    if step.p < |st.procs| {
      assert Fits(apply, st.world, step.p, st.procs[step.p]);
    }
  }

  lemma NextSound<D, E>(apply: (E, D) -> Maybe<D>, doc: D, st: State<D, E>, step: Step<E>)
    requires Sound(apply, doc, st) && Courteous(st, step) && Next(apply, st, step).Some?
    ensures Sound(apply, doc, Next(apply, st, step).value)
  {
    NeverSpoils(apply, doc, st, step);
    SpoilsIff(apply, doc, st, step);
    hide Act, Serially, Spoils;
    var p, st' := step.p, Next(apply, st, step).value;
    assert Fits(apply, st.world, p, st.procs[p]);
    ActFits(apply, st.world, p, st.procs[p], step.action);
    Alone(apply, doc, st, step);
    forall q | 0 <= q < |st'.procs|
      ensures Fits(apply, st'.world, q, st'.procs[q])
    {
      assert Fits(apply, st.world, q, st.procs[q]);
    }
  }

  /** Whoever takes such a step is, or becomes, the only one inside. */
  lemma Alone<D, E>(apply: (E, D) -> Maybe<D>, doc: D, st: State<D, E>, step: Step<E>)
    requires Sound(apply, doc, st) && Courteous(st, step) && Next(apply, st, step).Some?
    ensures forall q :: 0 <= q < |st.procs| && q != step.p ==> !Inside(st.procs[q])
  {
    hide Act, Serially;
    var p := step.p;
    assert Fits(apply, st.world, p, st.procs[p]);
    ActFits(apply, st.world, p, st.procs[p], step.action);
    forall q | 0 <= q < |st.procs| && q != p
      ensures !Inside(st.procs[q])
    {
      assert Fits(apply, st.world, q, st.procs[q]);
    }
  }

  /** Any interleaving of such transactions, with exceptions and crashes anywhere: the file is whole
      at every moment, and says what the committed edits make of the original document when done
      one after the other in the order of their commits. */
  lemma {:induction false} CourteousIsSerial<D(!new), E(!new)>(
      apply: (E, D) -> Maybe<D>, doc: D, processes: nat, steps: seq<Step<E>>)
    requires Run(Machine(apply), Initial(doc, processes), steps).Some?
    requires Along(Machine(apply), (st, step) => Courteous(st, step), Initial(doc, processes), steps)
    ensures var w := Run(Machine(apply), Initial(doc, processes), steps).value.world;
      w.file.Whole? && Serially(apply, doc, w.committed) == Some(w.file.doc)
  {
    forall st: State<D, E>, step: Step<E> | Sound(apply, doc, st) && Courteous(st, step) && Next(apply, st, step).Some?
      ensures Sound(apply, doc, Next(apply, st, step).value)
    {
      hide Next, Sound, Courteous;
      NextSound(apply, doc, st, step);
    }
    hide Next, Courteous;
    AlongKeeps(Machine(apply), (st: State<D, E>) => Sound(apply, doc, st), (st, step) => Courteous(st, step),
               Initial(doc, processes), steps);
  }

  // ---- with the lock ----

  predicate AllGuarded<E>(step: Step<E>) {
    step.action.Begin? ==> step.action.guarded
  }

  ghost predicate InsideGuarded<D, E>(procs: seq<Phase<D, E>>) {
    forall p :: 0 <= p < |procs| && Inside(procs[p]) ==> procs[p].guarded
  }

  /** Locked transactions need no courtesy, and so their runs are serial whatever they do. */
  lemma {:induction false} NoEditIsLost<D(!new), E(!new)>(
      apply: (E, D) -> Maybe<D>, doc: D, processes: nat, steps: seq<Step<E>>)
    requires Run(Machine(apply), Initial(doc, processes), steps).Some?
    requires forall i :: 0 <= i < |steps| ==> AllGuarded(steps[i])
    ensures var w := Run(Machine(apply), Initial(doc, processes), steps).value.world;
      w.file.Whole? && Serially(apply, doc, w.committed) == Some(w.file.doc)
  {
    GuardedIsCourteous(apply, Initial(doc, processes), steps);
    CourteousIsSerial(apply, doc, processes, steps);
  }

  lemma {:induction false} GuardedIsCourteous<D(!new), E(!new)>(
      apply: (E, D) -> Maybe<D>, st: State<D, E>, steps: seq<Step<E>>)
    requires InsideGuarded(st.procs) && forall i :: 0 <= i < |steps| ==> AllGuarded(steps[i])
    ensures Along(Machine(apply), (st, step) => Courteous(st, step), st, steps)
    decreases |steps|
  {
    if steps != [] {
      assert AllGuarded(steps[0]);
      assert Courteous(st, steps[0]);
      if Next(apply, st, steps[0]).Some? {
        var st' := Next(apply, st, steps[0]).value;
        ActGuarded(apply, st.world, steps[0].p, st.procs[steps[0].p], steps[0].action);
        hide Act;
        GuardedIsCourteous(apply, st', steps[1..]);
      }
    }
  }

  lemma ActGuarded<D, E>(apply: (E, D) -> Maybe<D>, w: World<D, E>, p: nat, ph: Phase<D, E>, action: Action<E>)
    requires (Inside(ph) ==> ph.guarded) && (action.Begin? ==> action.guarded) && Act(apply, w, p, ph, action).Some?
    ensures var ph' := Act(apply, w, p, ph, action).value.phase; Inside(ph') ==> ph'.guarded
  {
  }

  // ---- with a writer that bypasses the lock ----

  function Solo<D, E>(
      apply: (E, D) -> Maybe<D>, w: World<D, E>, p: nat, ph: Phase<D, E>, actions: seq<Action<E>>): Maybe<Move<D, E>>
    decreases |actions|
  {
    if actions == [] then Some(Move(w, ph))
    else
      match Act(apply, w, p, ph, actions[0])
      case Some(move) => Solo(apply, move.world, p, move.phase, actions[1..])
      case None => None
  }

  function Steps<E>(p: nat, actions: seq<Action<E>>): seq<Step<E>> {
    if actions == [] then [] else [By(p, actions[0])] + Steps(p, actions[1..])
  }

  lemma {:induction false} SoloRuns<D, E>(
      apply: (E, D) -> Maybe<D>, st: State<D, E>, p: nat, actions: seq<Action<E>>)
    requires p < |st.procs| && Solo(apply, st.world, p, st.procs[p], actions).Some?
    ensures var move := Solo(apply, st.world, p, st.procs[p], actions).value;
      Run(Machine(apply), st, Steps(p, actions)) == Some(State(move.world, st.procs[p := move.phase]))
    decreases |actions|
  {
    hide Act;
    if actions == [] {
      assert st.procs[p := st.procs[p]] == st.procs;
    } else {
      var move := Act(apply, st.world, p, st.procs[p], actions[0]).value;
      var st' := State(move.world, st.procs[p := move.phase]);
      SoloRuns(apply, st', p, actions[1..]);
      var end := Solo(apply, move.world, p, move.phase, actions[1..]).value;
      assert st'.procs[p := end.phase] == st.procs[p := end.phase];
      assert Steps(p, actions)[1..] == Steps(p, actions[1..]);
    }
  }

  /** Load and change; then write. */
  function Front<E>(guarded: bool, edit: E): seq<Action<E>> {
    [Begin(guarded, edit), Load, Change]
  }

  function Back<E>(): seq<Action<E>> {
    [Open, Fill, Rename, Leave]
  }

  lemma {:induction false} FrontRuns<D, E>(apply: (E, D) -> Maybe<D>, w: World<D, E>, p: nat, guarded: bool, edit: E)
    requires w.file.Whole? && apply(edit, w.file.doc).Some? && w.lock.None?
    ensures Solo(apply, w, p, Idle, Front(guarded, edit))
      == Some(Move(w.(lock := if guarded then Some(p) else None),
                Changed(guarded, edit, apply(edit, w.file.doc).value)))
  {
    var w' := w.(lock := if guarded then Some(p) else None);
    var load: Action<E> := Load;
    assert [load, Change][1..] == [Change];
    assert Solo(apply, w', p, Loaded(guarded, edit, w.file.doc), [Change])
      == Some(Move(w', Changed(guarded, edit, apply(edit, w.file.doc).value)));
    assert Front(guarded, edit)[1..] == [Load, Change];
  }

  lemma {:induction false} BackRuns<D, E>(apply: (E, D) -> Maybe<D>, w: World<D, E>, p: nat, ph: Phase<D, E>)
    requires ph.Changed? && (ph.guarded <==> w.lock == Some(p))
    ensures Solo(apply, w, p, ph, Back())
      == Some(Move(World(Whole(ph.doc), Missing, if ph.guarded then None else w.lock, w.committed + [ph.edit]), Idle))
  {
    var w3 := World(Whole(ph.doc), Missing, w.lock, w.committed + [ph.edit]);
    assert Solo(apply, w3, p, Leaving(ph.guarded), [Leave]) == Some(Move(Unlocked(w3, p), Idle));
    var rename: Action<E> := Rename;
    var fill: Action<E> := Fill;
    assert [rename, Leave][1..] == [Leave];
    assert Solo(apply, w.(temp := Whole(ph.doc)), p, Written(ph.guarded, ph.edit, ph.doc), [Rename, Leave])
      == Some(Move(Unlocked(w3, p), Idle));
    assert [fill, Rename, Leave][1..] == [Rename, Leave];
    assert Solo(apply, w.(temp := Torn), p, Writing(ph.guarded, ph.edit, ph.doc), [fill, Rename, Leave])
      == Some(Move(Unlocked(w3, p), Idle));
    assert Back<E>()[1..] == [Fill, Rename, Leave];
  }

  lemma {:induction false} Turn<D, E>(
      apply: (E, D) -> Maybe<D>, first: State<D, E>, steps: seq<Step<E>>, p: nat, actions: seq<Action<E>>,
      move: Move<D, E>)
    requires Run(Machine(apply), first, steps).Some?
    requires var st := Run(Machine(apply), first, steps).value;
      p < |st.procs| && Solo(apply, st.world, p, st.procs[p], actions) == Some(move)
    ensures var st := Run(Machine(apply), first, steps).value;
      Run(Machine(apply), first, steps + Steps(p, actions)) == Some(State(move.world, st.procs[p := move.phase]))
  {
    hide Solo, Steps;
    SoloRuns(apply, Run(Machine(apply), first, steps).value, p, actions);
    RunOn(Machine(apply), first, steps, Steps(p, actions));
  }

  /** One process loads without the lock, another commits a whole transaction, the first saves. */
  function Overlap<E>(rude: E, polite: E): seq<Step<E>> {
    Steps(0, Front(false, rude)) + Steps(1, Front(true, polite)) + Steps(1, Back()) + Steps(0, Back())
  }

  /** Whatever the two edits are, the locked one leaves no trace in the file, although both are
      committed: the outcome is the serial one only where the first edit would erase the second
      anyway. */
  lemma EditIsLost<D, E>(apply: (E, D) -> Maybe<D>, doc: D, rude: E, polite: E)
    requires apply(rude, doc).Some? && apply(polite, doc).Some?
    ensures var end := Run(Machine(apply), Initial(doc, 2), Overlap(rude, polite));
      && end.Some?
      && end.value.world.committed == [polite, rude]
      && end.value.world.file == Whole(apply(rude, doc).value)
      && (Serially(apply, doc, [polite, rude]) == Some(apply(rude, doc).value)
          <==> apply(rude, apply(polite, doc).value) == apply(rude, doc))
  {
    var first := Initial<D, E>(doc, 2);
    var w0 := first.world;
    var w1 := w0.(lock := Some(1));
    var ph0 := Changed(false, rude, apply(rude, doc).value);
    var ph1 := Changed(true, polite, apply(polite, doc).value);
    var w2 := World(Whole(ph1.doc), Missing, None, [polite]);
    var w3 := World(Whole(ph0.doc), Missing, None, [polite, rude]);
    assert [] + [polite] == [polite] && [polite] + [rude] == [polite, rude];
    FrontRuns(apply, w0, 0, false, rude);
    FrontRuns(apply, w0, 1, true, polite);
    BackRuns(apply, w1, 1, ph1);
    BackRuns(apply, w2, 0, ph0);
    SeriallySnoc(apply, doc, [], polite);
    SeriallySnoc(apply, doc, [polite], rude);
    hide Solo, Steps, Front, Back, Act, Serially;
    var t1 := Steps(0, Front(false, rude));
    var t2 := t1 + Steps(1, Front(true, polite));
    var t3 := t2 + Steps(1, Back());
    SoloRuns(apply, first, 0, Front(false, rude));
    hide Run;
    Turn(apply, first, t1, 1, Front(true, polite), Move(w1, ph1));
    Turn(apply, first, t2, 1, Back(), Move(w2, Idle));
    Turn(apply, first, t3, 0, Back(), Move(w3, Idle));
  }

  /** The two share the name of the temporary file too: one is about to rename it when the other
      opens it for writing. */
  function Collision<E>(rude: E, polite: E): seq<Step<E>> {
    Steps(0, Front(false, rude)) + Steps(1, Front(true, polite)) + Steps(1, [Open, Fill]) + Steps(0, [Open])
    + Steps(1, [Rename]) + Steps(0, [Crash])
  }

  lemma {:induction false} SoloOne<D, E>(
      apply: (E, D) -> Maybe<D>, w: World<D, E>, p: nat, ph: Phase<D, E>, action: Action<E>)
    ensures Solo(apply, w, p, ph, [action]) == Act(apply, w, p, ph, action)
  {
    hide Act;
  }

  lemma {:induction false} OpenAndFill<D, E>(apply: (E, D) -> Maybe<D>, w: World<D, E>, p: nat, ph: Phase<D, E>)
    requires ph.Changed?
    ensures Solo(apply, w, p, ph, [Open, Fill])
      == Some(Move(w.(temp := Whole(ph.doc)), Written(ph.guarded, ph.edit, ph.doc)))
  {
    var open: Action<E> := Open;
    assert [open, Fill][1..] == [Fill];
    SoloOne(apply, w.(temp := Torn), p, Writing(ph.guarded, ph.edit, ph.doc), Fill);
  }

  /** Then the locked, successful transaction leaves half a file behind. */
  lemma FileIsTorn<D, E>(apply: (E, D) -> Maybe<D>, doc: D, rude: E, polite: E)
    requires apply(rude, doc).Some? && apply(polite, doc).Some?
    ensures var end := Run(Machine(apply), Initial(doc, 2), Collision(rude, polite));
      end.Some? && end.value.world.committed == [polite] && end.value.world.file.Torn?
  {
    var first := Initial<D, E>(doc, 2);
    var w0 := first.world;
    var w1 := w0.(lock := Some(1));
    var ph0 := Changed(false, rude, apply(rude, doc).value);
    var ph1 := Changed(true, polite, apply(polite, doc).value);
    var w4 := w1.(file := Torn, temp := Missing, committed := w1.committed + [polite]);
    assert [] + [polite] == [polite];
    FrontRuns(apply, w0, 0, false, rude);
    FrontRuns(apply, w0, 1, true, polite);
    OpenAndFill(apply, w1, 1, ph1);
    hide Solo, Steps, Front;
    SoloOne(apply, w1.(temp := Whole(ph1.doc)), 0, ph0, Open);
    SoloOne(apply, w1.(temp := Torn), 1, Written(true, polite, ph1.doc), Rename);
    SoloOne(apply, w4, 0, Writing(false, rude, ph0.doc), Crash);
    assert Act(apply, w1.(temp := Whole(ph1.doc)), 0, ph0, Open)
      == Some(Move(w1.(temp := Torn), Writing(false, rude, ph0.doc)));
    assert Act(apply, w1.(temp := Torn), 1, Written(true, polite, ph1.doc), Rename) == Some(Move(w4, Leaving(true)));
    assert Act(apply, w4, 0, Writing(false, rude, ph0.doc), Crash) == Some(Move(w4, Idle));
    hide Act;
    var t1 := Steps(0, Front(false, rude));
    var t2 := t1 + Steps(1, Front(true, polite));
    var t3 := t2 + Steps(1, [Open, Fill]);
    var t4 := t3 + Steps(0, [Open]);
    var t5 := t4 + Steps(1, [Rename]);
    SoloRuns(apply, first, 0, Front(false, rude));
    hide Run;
    Turn(apply, first, t1, 1, Front(true, polite), Move(w1, ph1));
    Turn(apply, first, t2, 1, [Open, Fill], Move(w1.(temp := Whole(ph1.doc)), Written(true, polite, ph1.doc)));
    Turn(apply, first, t3, 0, [Open], Move(w1.(temp := Torn), Writing(false, rude, ph0.doc)));
    Turn(apply, first, t4, 1, [Rename], Move(w4, Leaving(true)));
    Turn(apply, first, t5, 0, [Crash], Move(w4, Idle));
  }
}
