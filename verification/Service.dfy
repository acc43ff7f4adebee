/** Stopping Klipper around a batch of writes, crashing anywhere, and putting it back. */
module Service {
  import opened Text
  import Runs

  /** Where a process is. `left` boards are still to be written out of a batch; `stopped`
      says that this operation stopped the service itself. */
  datatype Phase =
    | Dead
    | Booting
    | RecCheck
    | RecStart
    | RecClear
    | Idle
    | OpEntry(left: nat)
    | OpRecord(left: nat)
    | OpStop(left: nat)
    | OpVerify(left: nat)
    | AbortStart
    | AbortClear
    | Body(left: nat, stopped: bool)
    | Writing(left: nat, stopped: bool)
    | Restore
    | RestoreClear
    | Unlock

  /** What the operation that holds the lock has done to the service and the boards. */
  datatype Event = Stop | Start | Write(serviceUp: bool)

  /** What the processes share. `owed`: a stop was issued, and since then no start was
      attempted and no reconciliation saw the service up. */
  datatype World = World(up: bool, journal: bool, owed: bool, holder: Maybe<nat>, batch: seq<Event>)

  datatype State = State(world: World, procs: seq<Phase>)

  /** Who may reconcile when: as the code has it, or with the operation lock held. */
  datatype Mode = AsCoded | Guarded

  /** `ok = false` is a check that itself fails, which the code reads as "not active".
      An action on the service takes effect or not, and may raise either way. */
  datatype Action =
    | Boot
    | ReadJournal
    | CheckReconcile(ok: bool)
    | StartReconcile(effect: bool, raises: bool)
    | ClearReconcile(unlinked: bool)
    | Acquire(boards: nat)
    | CheckEntry(ok: bool)
    | RecordStop(written: bool)
    | IssueStop(effect: bool, raises: bool)
    | Verify(ok: bool, timeout: bool)
    | StartAbort(effect: bool)
    | ClearAbort(unlinked: bool)
    | NextBoard
    | Cancel
    | EndWrite
    | StartRestore(effect: bool)
    | ClearRestore(unlinked: bool)
    | Release
    | Exit
    | Raise
    | Crash

  datatype Step = By(p: nat, action: Action) | UserStop | UserStart

  /** What one step leaves behind: the world, and where the process that took it is now. */
  datatype Move = Move(world: World, phase: Phase)

  predicate InOp(ph: Phase) {
    ph.OpEntry? || ph.OpRecord? || ph.OpStop? || ph.OpVerify? || ph.AbortStart? || ph.AbortClear?
    || ph.Body? || ph.Writing? || ph.Restore? || ph.RestoreClear? || ph.Unlock?
  }

  predicate InReconcile(ph: Phase) {
    ph.RecCheck? || ph.RecStart? || ph.RecClear?
  }

  function Started(w: World, effect: bool): World {
    w.(up := w.up || effect, owed := false)
  }

  function Unlinked(w: World, unlinked: bool): World {
    w.(journal := w.journal && !unlinked)
  }

  /** The world without `p` among the holders of the lock. */
  function Without(w: World, p: nat): World {
    if w.holder == Some(p) then w.(holder := None) else w
  }

  /** `reconcile`, which does not look at the lock unless it is guarded. */
  function Reconcile(mode: Mode, w: World, p: nat, ph: Phase, action: Action): Maybe<Move> {
    match ph
    case Booting =>
      if !action.ReadJournal? then None
      else if !w.journal then Some(Move(w, Idle))
      else if !mode.Guarded? then Some(Move(w, RecCheck))
      else if w.holder.Some? then Some(Move(w, Idle))
      else Some(Move(w.(holder := Some(p)), RecCheck))
    case RecCheck =>
      if !action.CheckReconcile? then None
      else if action.ok && w.up then Some(Move(w.(owed := false), RecClear))
      else Some(Move(w, RecStart))
    case RecStart =>
      if !action.StartReconcile? then None
      else if action.raises then Some(Move(Without(Started(w, action.effect), p), Idle))
      else Some(Move(Started(w, action.effect), RecClear))
    case RecClear =>
      if !action.ClearReconcile? then None
      else Some(Move(Without(Unlinked(w, action.unlinked), p), Idle))
    case _ => None
  }

  /** `klipper_stopped` up to the block: check, record, stop, and verify that it took effect. */
  function Enter(w: World, ph: Phase, action: Action): Maybe<Move> {
    match ph
    case OpEntry(n) =>
      if !action.CheckEntry? then None
      else if action.ok && w.up then Some(Move(w, OpRecord(n)))
      else Some(Move(w, Body(n, false)))
    case OpRecord(n) =>
      if !action.RecordStop? then None
      else if action.written then Some(Move(w.(journal := true), OpStop(n)))
      else Some(Move(w, Unlock))
    case OpStop(n) =>
      if !action.IssueStop? then None
      else Some(Move(w.(up := w.up && !action.effect, owed := true, batch := w.batch + [Stop]),
                     if action.raises then Unlock else OpVerify(n)))
    case OpVerify(n) =>
      if !action.Verify? then None
      else if !(action.ok && w.up) then Some(Move(w, Body(n, true)))
      else Some(Move(w, if action.timeout then AbortStart else OpVerify(n)))
    case AbortStart =>
      if !action.StartAbort? then None
      else Some(Move(Started(w.(batch := w.batch + [Start]), action.effect), AbortClear))
    case AbortClear =>
      if !action.ClearAbort? then None else Some(Move(Unlinked(w, action.unlinked), Unlock))
    case _ => None
  }

  /** Where the block leads however it ends. */
  function AfterBlock(stopped: bool): Phase {
    if stopped then Restore else Unlock
  }

  /** The block itself, one board after the other, and the `finally` behind it. */
  function Block(w: World, ph: Phase, action: Action): Maybe<Move> {
    match ph
    case Body(n, stopped) =>
      if action.NextBoard? && n > 0 then Some(Move(w.(batch := w.batch + [Write(w.up)]), Writing(n - 1, stopped)))
      else if action.NextBoard? || action.Cancel? then Some(Move(w, AfterBlock(stopped)))
      else None
    case Writing(n, stopped) =>
      if action.EndWrite? then Some(Move(w, Body(n, stopped))) else None
    case Restore =>
      if !action.StartRestore? then None
      else Some(Move(Started(w.(batch := w.batch + [Start]), action.effect), RestoreClear))
    case RestoreClear =>
      if !action.ClearRestore? then None else Some(Move(Unlinked(w, action.unlinked), Unlock))
    case _ => None
  }

  /** Where an exception between two steps of an operation leads, such as an interrupt from
      the keyboard: only inside the block does it still reach the restart. */
  function AfterRaise(ph: Phase): Phase {
    if ph.Body? || ph.Writing? then AfterBlock(ph.stopped) else Unlock
  }

  /** One step of process `p`; `None` when it is not in a position to take it. */
  function Act(mode: Mode, w: World, p: nat, ph: Phase, action: Action): Maybe<Move> {
    match action
    case Boot => if ph.Dead? then Some(Move(w, Booting)) else None
    case Exit => if ph.Idle? then Some(Move(w, Dead)) else None
    case Crash => if ph.Dead? then None else Some(Move(Without(w, p), Dead))
    case Raise => if InOp(ph) then Some(Move(w, AfterRaise(ph))) else None
    case Acquire(n) =>
      if ph.Idle? && w.holder.None? then Some(Move(w.(holder := Some(p), batch := []), OpEntry(n))) else None
    case Release => if ph.Unlock? then Some(Move(Without(w, p), Idle)) else None
    case _ =>
      if ph.Booting? || InReconcile(ph) then Reconcile(mode, w, p, ph, action)
      else if ph.Body? || ph.Writing? || ph.Restore? || ph.RestoreClear? then Block(w, ph, action)
      else Enter(w, ph, action)
  }

  function Next(mode: Mode, st: State, step: Step): Maybe<State> {
    match step
    case UserStop => Some(st.(world := st.world.(up := false)))
    case UserStart => Some(st.(world := st.world.(up := true)))
    case By(p, action) =>
      if p >= |st.procs| then None
      else
        match Act(mode, st.world, p, st.procs[p], action)
        case Some(move) => Some(State(move.world, st.procs[p := move.phase]))
        case None => None
  }

  /** The state after a sequence of steps; `None` when one of them cannot be taken. */
  function Run(mode: Mode, st: State, steps: seq<Step>): Maybe<State> {
    Runs.Run(Machine(mode), st, steps)
  }

  function Machine(mode: Mode): (State, Step) -> Maybe<State> {
    (st, step) => Next(mode, st, step)
  }

  function Initial(processes: nat, up: bool): State {
    State(World(up, false, false, None, []), seq(processes, i => Dead))
  }

  // ---- the lock, and what one operation does: true as the code stands ----

  /** `batch` is an optional stop, some writes, and an optional start, in that order. */
  ghost predicate Shape(batch: seq<Event>, stopped: bool, started: bool) {
    var lo := if stopped then 1 else 0;
    var hi := |batch| - (if started then 1 else 0);
    && lo <= hi
    && (stopped ==> batch[0].Stop?)
    && (started ==> batch[|batch| - 1].Start?)
    && (forall i :: lo <= i < hi ==> batch[i].Write?)
  }

  ghost predicate OneBracket(batch: seq<Event>) {
    Shape(batch, false, false) || Shape(batch, true, false) || Shape(batch, true, true)
  }

  ghost predicate BatchFits(ph: Phase, batch: seq<Event>) {
    match ph
    case OpEntry(_) => batch == []
    case OpRecord(_) => batch == []
    case OpStop(_) => batch == []
    case OpVerify(_) => Shape(batch, true, false)
    case AbortStart => Shape(batch, true, false)
    case AbortClear => Shape(batch, true, true)
    case Body(_, stopped) => Shape(batch, stopped, false)
    case Writing(_, stopped) => Shape(batch, stopped, false)
    case Restore => Shape(batch, true, false)
    case RestoreClear => Shape(batch, true, true)
    case Unlock => OneBracket(batch)
    case _ => true
  }

  /** A process inside an operation holds the lock, and has bracketed its writes so far. */
  ghost predicate LockFits(w: World, p: nat, ph: Phase) {
    InOp(ph) ==> w.holder == Some(p) && BatchFits(ph, w.batch)
  }

  /** One more event at the end of a batch. */
  lemma ShapeGrows(batch: seq<Event>, up: bool)
    ensures batch == [] ==> Shape(batch, false, false) && Shape(batch + [Stop], true, false)
    ensures forall stopped :: Shape(batch, stopped, false) ==> Shape(batch + [Write(up)], stopped, false)
    ensures Shape(batch, true, false) ==> Shape(batch + [Start], true, true)
  {
  }

  lemma EnterBrackets(w: World, p: nat, ph: Phase, action: Action)
    requires LockFits(w, p, ph) && Enter(w, ph, action).Some?
    ensures var move := Enter(w, ph, action).value;
      LockFits(move.world, p, move.phase) && w.holder == Some(p)
  {
    ShapeGrows(w.batch, w.up);
    hide Shape;
  }

  lemma BlockBrackets(w: World, p: nat, ph: Phase, action: Action)
    requires LockFits(w, p, ph) && Block(w, ph, action).Some?
    ensures var move := Block(w, ph, action).value;
      LockFits(move.world, p, move.phase) && w.holder == Some(p)
  {
    ShapeGrows(w.batch, w.up);
    hide Shape;
  }

  lemma ReconcileBrackets(mode: Mode, w: World, p: nat, ph: Phase, action: Action)
    requires Reconcile(mode, w, p, ph, action).Some?
    ensures var move := Reconcile(mode, w, p, ph, action).value;
      && !InOp(move.phase) && move.world.batch == w.batch
      && (move.world.holder == w.holder || w.holder == None || w.holder == Some(p))
  {
  }

  lemma RaiseBrackets(w: World, p: nat, ph: Phase)
    requires LockFits(w, p, ph) && InOp(ph)
    ensures LockFits(w, p, AfterRaise(ph))
  {
    hide Shape;
    assert w.batch == [] ==> Shape(w.batch, false, false) by { ShapeGrows(w.batch, w.up); }
  }

  /** Whatever a process does, it stays within its lock and its bracket, and it changes lock
      and batch only while no other process holds the lock. */
  lemma ActBrackets(mode: Mode, w: World, p: nat, ph: Phase, action: Action)
    requires LockFits(w, p, ph) && Act(mode, w, p, ph, action).Some?
    ensures var move := Act(mode, w, p, ph, action).value;
      && LockFits(move.world, p, move.phase)
      && ((move.world.holder == w.holder && move.world.batch == w.batch) || w.holder == None || w.holder == Some(p))
  {
    hide Enter, Block, Reconcile, Shape, AfterRaise;
    match action
    case Boot =>
    case Exit =>
    case Crash =>
    case Acquire(_) =>
    case Release =>
    case Raise => RaiseBrackets(w, p, ph);
    case _ =>
      hide LockFits;
      if ph.Booting? || InReconcile(ph) {
        ReconcileBrackets(mode, w, p, ph, action);
        NotInOp(Reconcile(mode, w, p, ph, action).value, p);
      } else if ph.Body? || ph.Writing? || ph.Restore? || ph.RestoreClear? {
        BlockBrackets(w, p, ph, action);
      } else {
        EnterBrackets(w, p, ph, action);
      }
  }

  lemma NotInOp(move: Move, p: nat)
    requires !InOp(move.phase)
    ensures LockFits(move.world, p, move.phase)
  {
  }

  ghost predicate Locked(st: State) {
    forall p :: 0 <= p < |st.procs| ==> LockFits(st.world, p, st.procs[p])
  }

  lemma LockedNext(mode: Mode, st: State, step: Step)
    requires Locked(st) && Next(mode, st, step).Some?
    ensures Locked(Next(mode, st, step).value)
  {
    hide Act, BatchFits;
    if step.By? {
      ActBrackets(mode, st.world, step.p, st.procs[step.p], step.action);
    }
    var st' := Next(mode, st, step).value;
    forall q | 0 <= q < |st'.procs|
      ensures LockFits(st'.world, q, st'.procs[q])
    {
      hide InOp;
      assert LockFits(st.world, q, st.procs[q]);
    }
  }

  /** In every run at most one process is inside an operation, it holds the lock, and what the
      operation did so far is a stop, then writes, then a start, each at most once around them. */
  lemma {:induction false} OneOperation(mode: Mode, st: State, steps: seq<Step>)
    requires Locked(st) && Run(mode, st, steps).Some?
    ensures var st' := Run(mode, st, steps).value;
      && Locked(st')
      && (forall p, q :: 0 <= p < q < |st'.procs| ==> !InOp(st'.procs[p]) || !InOp(st'.procs[q]))
    decreases |steps|
  {
    if steps != [] {
      hide Next, Locked;
      LockedNext(mode, st, steps[0]);
      OneOperation(mode, Next(mode, st, steps[0]).value, steps[1..]);
    } else {
      hide BatchFits;
      forall p, q | 0 <= p < q < |st.procs|
        ensures !InOp(st.procs[p]) || !InOp(st.procs[q])
      {
        hide InOp;
        assert LockFits(st.world, p, st.procs[p]) && LockFits(st.world, q, st.procs[q]);
      }
    }
  }

  // ---- Klipper comes back: with reconciliation guarded, or as coded and apart ----

  /** Between two steps that touch service or journal. */
  predicate Busy(ph: Phase) {
    InOp(ph) || InReconcile(ph)
  }

  /** No process besides `p` is. */
  ghost predicate Quiet(procs: seq<Phase>, p: nat) {
    forall q :: 0 <= q < |procs| && q != p ==> !Busy(procs[q])
  }

  ghost predicate Solitary(procs: seq<Phase>) {
    forall p, q :: 0 <= p < q < |procs| ==> !Busy(procs[p]) || !Busy(procs[q])
  }

  /** The steps by which a process begins an operation, or a reconciliation that has work to do. */
  predicate Enters(w: World, action: Action) {
    action.Acquire? || (action.ReadJournal? && w.journal)
  }

  /** As coded, those steps are taken only while no other process is busy: the agent may sit idle
      beside a flash from the command line, and either may come and go. */
  ghost predicate Apart(mode: Mode, st: State, step: Step) {
    mode.AsCoded? && step.By? && Enters(st.world, step.action) ==> Quiet(st.procs, step.p)
  }

  /** What a process at `ph` relies on in the journal. */
  ghost predicate SafeFits(mode: Mode, w: World, p: nat, ph: Phase) {
    && (mode.Guarded? && InReconcile(ph) ==> w.holder == Some(p))
    && (ph.OpStop? ==> w.journal)
    && (ph.RecClear? || ph.AbortClear? || ph.RestoreClear? ==> !w.owed)
  }

  /** A stop that nobody has tried to undo is on record. */
  predicate Recorded(w: World) {
    w.owed ==> w.journal
  }

  ghost predicate Safe(mode: Mode, st: State) {
    && Recorded(st.world) && Solitary(st.procs)
    && (forall p :: 0 <= p < |st.procs| ==> SafeFits(mode, st.world, p, st.procs[p]))
  }

  /** Only who is busy touches service or journal; the lock changes hands through nobody's; and
      one gets busy by entering, guarded only with the lock free. */
  predicate Courteous(mode: Mode, w: World, p: nat, ph: Phase, action: Action, move: Move) {
    && (Busy(ph) || (move.world.journal == w.journal && move.world.owed == w.owed && (move.world.up ==> w.up)))
    && (move.world.holder == w.holder || w.holder == None || w.holder == Some(p))
    && (Busy(move.phase) && !Busy(ph) ==> Enters(w, action) && (mode.Guarded? ==> w.holder == None))
  }

  lemma ReconcileSafe(mode: Mode, w: World, p: nat, ph: Phase, action: Action)
    requires SafeFits(mode, w, p, ph) && Recorded(w)
    requires Reconcile(mode, w, p, ph, action).Some?
    ensures var move := Reconcile(mode, w, p, ph, action).value;
      && SafeFits(mode, move.world, p, move.phase) && Recorded(move.world)
      && Courteous(mode, w, p, ph, action, move)
  {
  }

  lemma EnterSafe(mode: Mode, w: World, p: nat, ph: Phase, action: Action)
    requires SafeFits(mode, w, p, ph) && Recorded(w)
    requires Enter(w, ph, action).Some? && w.holder == Some(p)
    ensures var move := Enter(w, ph, action).value;
      && SafeFits(mode, move.world, p, move.phase) && Recorded(move.world)
      && Courteous(mode, w, p, ph, action, move)
  {
  }

  lemma BlockSafe(mode: Mode, w: World, p: nat, ph: Phase, action: Action)
    requires SafeFits(mode, w, p, ph) && Recorded(w)
    requires Block(w, ph, action).Some? && w.holder == Some(p)
    ensures var move := Block(w, ph, action).value;
      && SafeFits(mode, move.world, p, move.phase) && Recorded(move.world)
      && Courteous(mode, w, p, ph, action, move)
  {
  }

  lemma ActSafe(mode: Mode, w: World, p: nat, ph: Phase, action: Action)
    requires LockFits(w, p, ph) && SafeFits(mode, w, p, ph) && Recorded(w)
    requires Act(mode, w, p, ph, action).Some?
    ensures var move := Act(mode, w, p, ph, action).value;
      && SafeFits(mode, move.world, p, move.phase) && Recorded(move.world)
      && Courteous(mode, w, p, ph, action, move)
  {
    hide Enter, Block, Reconcile, BatchFits;
    match action
    case Boot =>
    case Exit =>
    case Crash =>
    case Acquire(_) =>
    case Release =>
    case Raise =>
    case _ =>
      hide SafeFits, Courteous, Recorded;
      if ph.Booting? || InReconcile(ph) {
        ReconcileSafe(mode, w, p, ph, action);
      } else if ph.Body? || ph.Writing? || ph.Restore? || ph.RestoreClear? {
        BlockSafe(mode, w, p, ph, action);
      } else {
        EntersInOp(w, ph, action);
        EnterSafe(mode, w, p, ph, action);
      }
  }

  lemma EntersInOp(w: World, ph: Phase, action: Action)
    requires Enter(w, ph, action).Some?
    ensures InOp(ph)
  {
  }

  /** With the lock in nobody's hands nobody is busy, if one has to have it for that. */
  lemma FreeIsQuiet(st: State, p: nat)
    requires Locked(st) && Safe(Guarded, st) && st.world.holder == None
    ensures Quiet(st.procs, p)
  {
    hide BatchFits;
    forall q | 0 <= q < |st.procs|
      ensures !Busy(st.procs[q])
    {
      assert LockFits(st.world, q, st.procs[q]) && SafeFits(Guarded, st.world, q, st.procs[q]);
    }
  }

  lemma SafeNext(mode: Mode, st: State, step: Step)
    requires Locked(st) && Safe(mode, st) && Apart(mode, st, step) && Next(mode, st, step).Some?
    ensures Safe(mode, Next(mode, st, step).value)
  {
    hide Act, Locked;
    var st' := Next(mode, st, step).value;
    if step.By? {
      var p := step.p;
      LockedAt(st, p);
      ActSafe(mode, st.world, p, st.procs[p], step.action);
      hide Enters, LockFits;
      if mode.Guarded? && st.world.holder == None {
        FreeIsQuiet(st, p);
      }
      assert Busy(st'.procs[p]) ==> Quiet(st.procs, p);
      assert Busy(st.procs[p]) ==> Quiet(st.procs, p);
    }
    forall q | 0 <= q < |st'.procs|
      ensures SafeFits(mode, st'.world, q, st'.procs[q])
    {
      assert SafeFits(mode, st.world, q, st.procs[q]);
    }
  }

  lemma LockedAt(st: State, p: nat)
    requires Locked(st) && p < |st.procs|
    ensures LockFits(st.world, p, st.procs[p])
  {
  }

  /** A rule for the steps of a run, which may depend on the state they are taken in. */
  ghost predicate Follows(mode: Mode, rule: (State, Step) -> bool, st: State, steps: seq<Step>) {
    Runs.Along(Machine(mode), rule, st, steps)
  }

  /** Whatever crashes, raises or fails: a stop with no start tried since is in the journal, in
      every guarded run, and in every run of the code as it is whose processes enter apart. */
  lemma {:induction false} StopsAreRecorded(mode: Mode, st: State, steps: seq<Step>)
    requires Locked(st) && Safe(mode, st) && Run(mode, st, steps).Some?
    requires Follows(mode, (s, step) => Apart(mode, s, step), st, steps)
    ensures var st' := Run(mode, st, steps).value; Locked(st') && Safe(mode, st')
    decreases |steps|
  {
    if steps != [] {
      hide Next, Locked, Safe, Apart;
      LockedNext(mode, st, steps[0]);
      SafeNext(mode, st, steps[0]);
      StopsAreRecorded(mode, Next(mode, st, steps[0]).value, steps[1..]);
    }
  }

  lemma InitialSafe(mode: Mode, processes: nat, up: bool)
    ensures Locked(Initial(processes, up)) && Safe(mode, Initial(processes, up))
  {
  }

  // ---- and exactly which step of the code loses a record ----

  /** A stop that was issued, or is about to be, is on record. */
  ghost predicate OnRecord(st: State) {
    Recorded(st.world) && forall p :: 0 <= p < |st.procs| && st.procs[p].OpStop? ==> st.world.journal
  }

  /** After its own start an operation owes none until it is over. */
  ghost predicate Settled(st: State) {
    forall p :: 0 <= p < |st.procs| && (st.procs[p].AbortClear? || st.procs[p].RestoreClear?) ==> !st.world.owed
  }

  /** A reconciliation unlinks the journal while a stop is owed, or while another process has
      recorded its stop and not yet issued it. */
  ghost predicate LosesRecord(st: State, step: Step) {
    && step.By? && step.p < |st.procs| && step.action == ClearReconcile(true) && st.procs[step.p].RecClear?
    && (st.world.owed || exists q :: 0 <= q < |st.procs| && st.procs[q].OpStop?)
  }

  /** Journal and debt after one step of one process. */
  lemma ActRecords(mode: Mode, w: World, p: nat, ph: Phase, action: Action)
    requires LockFits(w, p, ph) && Act(mode, w, p, ph, action).Some?
    ensures var move := Act(mode, w, p, ph, action).value;
      && (move.world.owed && !w.owed ==> ph.OpStop? && w.journal == move.world.journal && w.holder == Some(p))
      && (move.world.owed && w.owed && !move.world.journal && w.journal ==>
            (action == ClearReconcile(true) && ph.RecClear?) || ph.AbortClear? || ph.RestoreClear?)
      && (!move.world.journal && w.journal ==>
            (action == ClearReconcile(true) && ph.RecClear?)
            || ((ph.AbortClear? || ph.RestoreClear?) && w.holder == Some(p)))
      && (action == ClearReconcile(true) && ph.RecClear? ==>
            !move.world.journal && move.world.owed == w.owed && !move.phase.OpStop?)
      && (move.phase.OpStop? ==> move.world.journal)
      && (move.phase.AbortClear? || move.phase.RestoreClear? ==> !move.world.owed)
  {
    hide BatchFits;
    if action.Boot? || action.Exit? || action.Crash? || action.Raise? || action.Acquire? || action.Release? {
      hide Enter, Block, Reconcile;
    } else if ph.Booting? || InReconcile(ph) {
      hide Enter, Block;
    } else if ph.Body? || ph.Writing? || ph.Restore? || ph.RestoreClear? {
      hide Enter, Reconcile;
    } else {
      hide Block, Reconcile;
    }
  }

  lemma SettledNext(mode: Mode, st: State, step: Step)
    requires Locked(st) && Settled(st) && Next(mode, st, step).Some?
    ensures Settled(Next(mode, st, step).value)
  {
    hide Act, BatchFits;
    if step.By? {
      ActRecords(mode, st.world, step.p, st.procs[step.p], step.action);
    }
    var st' := Next(mode, st, step).value;
    forall q | 0 <= q < |st'.procs| && (st'.procs[q].AbortClear? || st'.procs[q].RestoreClear?)
      ensures !st'.world.owed
    {
      assert LockFits(st.world, q, st.procs[q]);
    }
  }

  /** In the code as it is, one step and no other can leave a stop without a record. */
  lemma RecordIsLostIff(mode: Mode, st: State, step: Step)
    requires Locked(st) && Settled(st) && OnRecord(st) && Next(mode, st, step).Some?
    ensures OnRecord(Next(mode, st, step).value) <==> !LosesRecord(st, step)
  {
    hide Act, BatchFits;
    var st' := Next(mode, st, step).value;
    if step.By? {
      var p := step.p;
      ActRecords(mode, st.world, p, st.procs[p], step.action);
      assert LockFits(st.world, p, st.procs[p]);
      if LosesRecord(st, step) {
        if !st.world.owed {
          var q :| 0 <= q < |st.procs| && st.procs[q].OpStop?;
          assert st'.procs[q].OpStop?;
        }
      } else {
        forall q | 0 <= q < |st'.procs| && st'.procs[q].OpStop?
          ensures st'.world.journal
        {
          assert LockFits(st.world, q, st.procs[q]);
        }
      }
    }
  }

  /** So in every run without that step the record is never lost. */
  lemma RecordIsKept(mode: Mode, processes: nat, up: bool, steps: seq<Step>)
    requires Run(mode, Initial(processes, up), steps).Some?
    requires Follows(mode, (s, step) => !LosesRecord(s, step), Initial(processes, up), steps)
    ensures OnRecord(Run(mode, Initial(processes, up), steps).value)
  {
    hide Locked, Settled, OnRecord, LosesRecord, Next;
    forall s: State, step: Step | Locked(s) && Settled(s) && OnRecord(s) && !LosesRecord(s, step)
        && Next(mode, s, step).Some?
      ensures Locked(Next(mode, s, step).value) && Settled(Next(mode, s, step).value)
      ensures OnRecord(Next(mode, s, step).value)
    {
      LockedNext(mode, s, step);
      SettledNext(mode, s, step);
      RecordIsLostIff(mode, s, step);
    }
    InitialSafe(mode, processes, up);
    InitialSettled(processes, up);
    Runs.AlongKeeps(Machine(mode), s => Locked(s) && Settled(s) && OnRecord(s), (s, step) => !LosesRecord(s, step),
                    Initial(processes, up), steps);
  }

  lemma InitialSettled(processes: nat, up: bool)
    ensures Settled(Initial(processes, up)) && OnRecord(Initial(processes, up))
  {
  }

  /** Processes that enter apart never take it. */
  lemma ApartKeepsRecord(mode: Mode, st: State, step: Step)
    requires Safe(mode, st)
    ensures !LosesRecord(st, step)
  {
    if LosesRecord(st, step) {
      assert SafeFits(mode, st.world, step.p, st.procs[step.p]);
      var q :| 0 <= q < |st.procs| && st.procs[q].OpStop?;
      assert Busy(st.procs[q]) && Busy(st.procs[step.p]);
    }
  }

  /** So runs of such processes are among those that keep the record. */
  lemma {:induction false} ApartNeverLoses(mode: Mode, st: State, steps: seq<Step>)
    requires Locked(st) && Safe(mode, st)
    requires Follows(mode, (s, step) => Apart(mode, s, step), st, steps)
    ensures Follows(mode, (s, step) => !LosesRecord(s, step), st, steps)
    decreases |steps|
  {
    hide Next, Locked, Safe, Apart, LosesRecord;
    if steps != [] {
      ApartKeepsRecord(mode, st, steps[0]);
      if Next(mode, st, steps[0]).Some? {
        LockedNext(mode, st, steps[0]);
        SafeNext(mode, st, steps[0]);
        ApartNeverLoses(mode, Next(mode, st, steps[0]).value, steps[1..]);
      }
    }
  }

  /** `p` takes several steps with nobody else in between. */
  function Solo(mode: Mode, w: World, p: nat, ph: Phase, actions: seq<Action>): Maybe<Move>
    decreases |actions|
  {
    if actions == [] then Some(Move(w, ph))
    else
      match Act(mode, w, p, ph, actions[0])
      case Some(move) => Solo(mode, move.world, p, move.phase, actions[1..])
      case None => None
  }

  function Steps(p: nat, actions: seq<Action>): seq<Step> {
    if actions == [] then [] else [By(p, actions[0])] + Steps(p, actions[1..])
  }

  lemma {:induction false} SoloRuns(mode: Mode, st: State, p: nat, actions: seq<Action>)
    requires p < |st.procs|
    requires Solo(mode, st.world, p, st.procs[p], actions).Some?
    ensures var move := Solo(mode, st.world, p, st.procs[p], actions).value;
      Run(mode, st, Steps(p, actions)) == Some(State(move.world, st.procs[p := move.phase]))
    decreases |actions|
  {
    hide Act;
    if actions == [] {
      assert st.procs[p := st.procs[p]] == st.procs;
    } else {
      var move := Act(mode, st.world, p, st.procs[p], actions[0]).value;
      var st' := State(move.world, st.procs[p := move.phase]);
      SoloRuns(mode, st', p, actions[1..]);
      var end := Solo(mode, move.world, p, move.phase, actions[1..]).value;
      assert st'.procs[p := end.phase] == st.procs[p := end.phase];
      assert Steps(p, actions)[1..] == Steps(p, actions[1..]);
    }
  }

  /** A reconciliation in which the checks and the start work. */
  function Recovery(w: World): seq<Action> {
    if !w.journal then [ReadJournal]
    else if w.up then [ReadJournal, CheckReconcile(true), ClearReconcile(true)]
    else [ReadJournal, CheckReconcile(true), StartReconcile(true, false), ClearReconcile(true)]
  }

  lemma {:induction false} SoloStep(mode: Mode, w: World, p: nat, ph: Phase, action: Action, rest: seq<Action>)
    requires Act(mode, w, p, ph, action).Some?
    ensures var move := Act(mode, w, p, ph, action).value;
      Solo(mode, w, p, ph, [action] + rest) == Solo(mode, move.world, p, move.phase, rest)
  {
    assert ([action] + rest)[1..] == rest;
  }

  lemma {:induction false} RecoveryWorks(mode: Mode, w: World, p: nat)
    requires Recorded(w) && (mode.Guarded? ==> w.holder.None?)
    ensures var end := Solo(mode, w, p, Booting, Recovery(w));
      && end.Some? && end.value.phase.Idle?
      && !end.value.world.owed && !end.value.world.journal
      && (w.owed || w.journal ==> end.value.world.up)
  {
    hide Solo;
    var start := [StartReconcile(true, false)];
    var clear := [ClearReconcile(true)];
    var w1 := Act(mode, w, p, Booting, ReadJournal).value;
    SoloStep(mode, w, p, Booting, ReadJournal, Recovery(w)[1..]);
    assert Recovery(w) == [ReadJournal] + Recovery(w)[1..];
    if !w.journal {
      SoloNone(mode, w, p, Idle);
    } else {
      var w2 := Act(mode, w1.world, p, w1.phase, CheckReconcile(true)).value;
      SoloStep(mode, w1.world, p, w1.phase, CheckReconcile(true), Recovery(w)[2..]);
      assert Recovery(w)[1..] == [CheckReconcile(true)] + Recovery(w)[2..];
      if !w.up {
        SoloStep(mode, w2.world, p, RecStart, StartReconcile(true, false), clear);
        assert Recovery(w)[2..] == start + clear;
      } else {
        assert Recovery(w)[2..] == clear;
      }
      var w3 := Started(w2.world, true).(owed := false);
      SoloStep(mode, w3, p, RecClear, ClearReconcile(true), []);
      SoloNone(mode, Without(Unlinked(w3, true), p), p, Idle);
      assert clear == clear + [];
    }
  }

  lemma {:induction false} SoloOne(mode: Mode, w: World, p: nat, ph: Phase, action: Action)
    ensures Solo(mode, w, p, ph, [action]) == Act(mode, w, p, ph, action)
  {
    hide Act;
  }

  /** With nothing on record a reconciliation does nothing, whatever is owed. */
  lemma {:induction false} NothingRecordedNothingDone(mode: Mode, w: World, p: nat)
    requires !w.journal
    ensures Solo(mode, w, p, Booting, Recovery(w)) == Some(Move(w, Idle))
  {
    SoloOne(mode, w, p, Booting, ReadJournal);
  }

  lemma {:induction false} SoloNone(mode: Mode, w: World, p: nat, ph: Phase)
    ensures Solo(mode, w, p, ph, []) == Some(Move(w, ph))
  {
  }

  /** After any run that keeps the record, a process that starts up and reconciles ends with nothing
      owed, and with the service up if it was owed a start or if the journal says that it was
      stopped. */
  lemma {:induction false} KlipperComesBack(mode: Mode, processes: nat, up: bool, steps: seq<Step>, p: nat)
    requires Run(mode, Initial(processes, up), steps).Some?
    requires Follows(mode, (s, step) => !LosesRecord(s, step), Initial(processes, up), steps)
    requires var st := Run(mode, Initial(processes, up), steps).value;
      p < |st.procs| && st.procs[p].Booting? && (mode.Guarded? ==> st.world.holder.None?)
    ensures var st := Run(mode, Initial(processes, up), steps).value;
      var end := Run(mode, st, Steps(p, Recovery(st.world)));
      && end.Some? && |end.value.procs| == |st.procs| && end.value.procs[p].Idle?
      && !end.value.world.owed && !end.value.world.journal
      && (st.world.owed || st.world.journal ==> end.value.world.up)
  {
    hide Solo, Steps, Recovery, Next, LosesRecord;
    var st := Run(mode, Initial(processes, up), steps).value;
    RecordIsKept(mode, processes, up, steps);
    RecoveryWorks(mode, st.world, p);
    SoloRuns(mode, st, p, Recovery(st.world));
  }

  // ---- no board is written while Klipper runs ----

  /** The checks `klipper_stopped` relies on work. */
  predicate Seeing(action: Action) {
    (action.CheckEntry? ==> action.ok) && (action.Verify? ==> action.ok)
  }

  /** Somebody is at the boards, or between two of them. */
  ghost predicate SomebodyInside(procs: seq<Phase>) {
    exists p :: 0 <= p < |procs| && (procs[p].Body? || procs[p].Writing?)
  }

  /** The checks of every operation work, and nobody starts the service by hand while somebody is
      inside a block; and the processes enter apart, where nothing else sees to that. */
  ghost predicate Careful(mode: Mode, st: State, step: Step) {
    && (step.By? ==> Seeing(step.action))
    && (step.UserStart? ==> !SomebodyInside(st.procs))
    && Apart(mode, st, step)
  }

  predicate DownFits(w: World, ph: Phase) {
    ph.Body? || ph.Writing? ==> !w.up
  }

  /** Every board of the batch was written with the service down. */
  ghost predicate WrittenDown(batch: seq<Event>) {
    forall i :: 0 <= i < |batch| ==> batch[i] != Write(true)
  }

  ghost predicate Down(st: State) {
    WrittenDown(st.world.batch) && forall p :: 0 <= p < |st.procs| ==> DownFits(st.world, st.procs[p])
  }

  lemma WrittenSnoc(batch: seq<Event>, e: Event)
    requires WrittenDown(batch) && e != Write(true)
    ensures WrittenDown(batch + [e])
  {
  }

  /** What `ActDown` promises of the kinds of step. */
  ghost predicate StaysDown(move: Move) {
    DownFits(move.world, move.phase) && WrittenDown(move.world.batch)
  }

  lemma OpDown(w: World, p: nat, ph: Phase, action: Action)
    requires w.holder == Some(p) && DownFits(w, ph) && WrittenDown(w.batch) && Seeing(action)
    ensures Enter(w, ph, action).Some? ==> StaysDown(Enter(w, ph, action).value)
    ensures Block(w, ph, action).Some? ==> StaysDown(Block(w, ph, action).value)
  {
    WrittenSnoc(w.batch, Stop);
    WrittenSnoc(w.batch, Start);
    WrittenSnoc(w.batch, Write(false));
    hide WrittenDown;
  }

  lemma ReconcileDown(mode: Mode, w: World, p: nat, ph: Phase, action: Action)
    requires WrittenDown(w.batch) && Reconcile(mode, w, p, ph, action).Some?
    ensures StaysDown(Reconcile(mode, w, p, ph, action).value)
  {
    hide WrittenDown;
  }

  lemma ActDown(mode: Mode, w: World, p: nat, ph: Phase, action: Action)
    requires LockFits(w, p, ph) && DownFits(w, ph) && WrittenDown(w.batch)
    requires Seeing(action) && Act(mode, w, p, ph, action).Some?
    ensures StaysDown(Act(mode, w, p, ph, action).value)
  {
    hide BatchFits, Enter, Block, Reconcile;
    match action
    case Boot =>
    case Exit =>
    case Crash =>
    case Acquire(_) =>
    case Release =>
    case Raise =>
    case _ =>
      hide WrittenDown, DownFits, StaysDown;
      if ph.Booting? || InReconcile(ph) {
        ReconcileDown(mode, w, p, ph, action);
      } else if ph.Body? || ph.Writing? || ph.Restore? || ph.RestoreClear? {
        OpDown(w, p, ph, action);
      } else {
        EntersInOp(w, ph, action);
        OpDown(w, p, ph, action);
      }
  }

  lemma DownNext(mode: Mode, st: State, step: Step)
    requires Locked(st) && Safe(mode, st) && Down(st) && Careful(mode, st, step)
    requires Next(mode, st, step).Some?
    ensures Down(Next(mode, st, step).value)
  {
    hide Act, Locked, WrittenDown, Apart;
    var st' := Next(mode, st, step).value;
    if step.By? {
      LockedAt(st, step.p);
      assert SafeFits(mode, st.world, step.p, st.procs[step.p]);
      ActDown(mode, st.world, step.p, st.procs[step.p], step.action);
      ActSafe(mode, st.world, step.p, st.procs[step.p], step.action);
      assert Busy(st.procs[step.p]) ==> Quiet(st.procs, step.p);
    }
    hide SafeFits, LockFits;
    forall q | 0 <= q < |st'.procs|
      ensures DownFits(st'.world, st'.procs[q])
    {
      assert DownFits(st.world, st.procs[q]);
    }
  }

  /** A failing check takes an operation into its block with the service up. */
  predicate Blinded(w: World, ph: Phase, action: Action) {
    w.up && ((ph.OpEntry? && action.CheckEntry? && !action.ok) || (ph.OpVerify? && action.Verify? && !action.ok))
  }

  /** The service comes up under somebody inside, by hand or by a reconciliation; or somebody goes
      inside blindly. */
  ghost predicate WritesUp(st: State, step: Step) {
    match step
    case UserStop => false
    case UserStart => SomebodyInside(st.procs)
    case By(p, action) =>
      && p < |st.procs|
      && (|| Blinded(st.world, st.procs[p], action)
          || (st.procs[p].RecStart? && action.StartReconcile? && action.effect && SomebodyInside(st.procs)))
  }

  /** Where a step goes itself, and whether it can bring the service up. */
  ghost predicate BroughtUp(w: World, p: nat, ph: Phase, action: Action, move: Move) {
    && (StaysDown(move) <==> !Blinded(w, ph, action))
    && (move.world.up && !w.up ==> w.holder == Some(p) || (ph.RecStart? && action.StartReconcile? && action.effect))
    && (ph.RecStart? && action.StartReconcile? && action.effect ==> move.world.up)
  }

  lemma OpBringsUp(w: World, p: nat, ph: Phase, action: Action)
    requires w.holder == Some(p) && !ph.RecStart? && DownFits(w, ph) && WrittenDown(w.batch)
    ensures Enter(w, ph, action).Some? ==> BroughtUp(w, p, ph, action, Enter(w, ph, action).value)
    ensures Block(w, ph, action).Some? ==> BroughtUp(w, p, ph, action, Block(w, ph, action).value)
  {
    WrittenSnoc(w.batch, Stop);
    WrittenSnoc(w.batch, Start);
    WrittenSnoc(w.batch, Write(false));
    hide WrittenDown;
  }

  lemma ReconcileBringsUp(mode: Mode, w: World, p: nat, ph: Phase, action: Action)
    requires WrittenDown(w.batch) && Reconcile(mode, w, p, ph, action).Some?
    ensures BroughtUp(w, p, ph, action, Reconcile(mode, w, p, ph, action).value)
  {
    hide WrittenDown;
  }

  lemma ActBringsUp(mode: Mode, w: World, p: nat, ph: Phase, action: Action)
    requires LockFits(w, p, ph) && DownFits(w, ph) && WrittenDown(w.batch) && Act(mode, w, p, ph, action).Some?
    ensures BroughtUp(w, p, ph, action, Act(mode, w, p, ph, action).value)
  {
    hide BatchFits, Enter, Block, Reconcile;
    match action
    case Boot =>
    case Exit =>
    case Crash =>
    case Acquire(_) =>
    case Release =>
    case Raise =>
    case _ =>
      hide WrittenDown, DownFits, BroughtUp;
      if ph.Booting? || InReconcile(ph) {
        ReconcileBringsUp(mode, w, p, ph, action);
      } else if ph.Body? || ph.Writing? || ph.Restore? || ph.RestoreClear? {
        OpBringsUp(w, p, ph, action);
      } else {
        EntersInOp(w, ph, action);
        OpBringsUp(w, p, ph, action);
      }
  }

  /** In the code as it is exactly these steps open the way to a write with the service up. */
  lemma WritesUpIff(mode: Mode, st: State, step: Step)
    requires Locked(st) && Down(st) && Next(mode, st, step).Some?
    ensures Down(Next(mode, st, step).value) <==> !WritesUp(st, step)
  {
    hide Act, BatchFits, WrittenDown;
    var st' := Next(mode, st, step).value;
    if step.By? {
      assert LockFits(st.world, step.p, st.procs[step.p]) && DownFits(st.world, st.procs[step.p]);
      ActBringsUp(mode, st.world, step.p, st.procs[step.p], step.action);
      assert st'.procs[step.p] == Act(mode, st.world, step.p, st.procs[step.p], step.action).value.phase;
    }
    if st'.world.up && SomebodyInside(st.procs) {
      var q :| 0 <= q < |st.procs| && (st.procs[q].Body? || st.procs[q].Writing?);
      assert LockFits(st.world, q, st.procs[q]) && DownFits(st.world, st.procs[q]);
      if step.By? && q == step.p {
        assert !st.procs[q].RecStart?;
      } else {
        assert st'.procs[q] == st.procs[q] && !DownFits(st'.world, st'.procs[q]);
      }
    }
    forall q | 0 <= q < |st'.procs| && !WritesUp(st, step)
      ensures DownFits(st'.world, st'.procs[q])
    {
      assert DownFits(st.world, st.procs[q]) && LockFits(st.world, q, st.procs[q]);
      assert st.procs[q].Body? || st.procs[q].Writing? ==> SomebodyInside(st.procs);
    }
  }

  /** So in every run of the code without such a step, no board is written with the service up. */
  lemma WrittenDownWithout(mode: Mode, processes: nat, up: bool, steps: seq<Step>)
    requires Run(mode, Initial(processes, up), steps).Some?
    requires Follows(mode, (s, step) => !WritesUp(s, step), Initial(processes, up), steps)
    ensures Down(Run(mode, Initial(processes, up), steps).value)
  {
    hide Locked, Down, WritesUp, Next;
    forall s: State, step: Step | Locked(s) && Down(s) && !WritesUp(s, step) && Next(mode, s, step).Some?
      ensures Locked(Next(mode, s, step).value) && Down(Next(mode, s, step).value)
    {
      LockedNext(mode, s, step);
      WritesUpIff(mode, s, step);
    }
    InitialSafe(mode, processes, up);
    InitialDown(processes, up);
    Runs.AlongKeeps(Machine(mode), (s: State) => Locked(s) && Down(s), (s, step) => !WritesUp(s, step),
                    Initial(processes, up), steps);
  }

  lemma InitialDown(processes: nat, up: bool)
    ensures Down(Initial(processes, up))
  {
  }

  /** Whoever is at a board has the lock and the service down, in every state of every run in
      which the checks work and nobody starts the service by hand in the middle of a batch. */
  lemma {:induction false} NoWriteWhileUp(mode: Mode, st: State, steps: seq<Step>)
    requires Locked(st) && Safe(mode, st) && Down(st)
    requires Follows(mode, (s, step) => Careful(mode, s, step), st, steps) && Run(mode, st, steps).Some?
    ensures var st' := Run(mode, st, steps).value;
      && WrittenDown(st'.world.batch)
      && forall p :: 0 <= p < |st'.procs| && (st'.procs[p].Body? || st'.procs[p].Writing?)
           ==> !st'.world.up && st'.world.holder == Some(p)
    decreases |steps|
  {
    if steps != [] {
      assert Careful(mode, st, steps[0]);
      hide Next, Locked, Safe, Down, WrittenDown, Seeing, Apart;
      LockedNext(mode, st, steps[0]);
      SafeNext(mode, st, steps[0]);
      DownNext(mode, st, steps[0]);
      NoWriteWhileUp(mode, Next(mode, st, steps[0]).value, steps[1..]);
    } else {
      hide BatchFits, Safe, WrittenDown;
      forall p | 0 <= p < |st.procs| && (st.procs[p].Body? || st.procs[p].Writing?)
        ensures !st.world.up && st.world.holder == Some(p)
      {
        assert DownFits(st.world, st.procs[p]) && LockFits(st.world, p, st.procs[p]);
      }
    }
  }

  // ---- a service that was down on entry is left alone ----

  /** Inside a block that found the service down, or past its end. */
  predicate Hands(ph: Phase) {
    (ph.Body? && !ph.stopped) || (ph.Writing? && !ph.stopped) || ph.Unlock?
  }

  lemma HandsOff(mode: Mode, w: World, p: nat, ph: Phase, action: Action)
    requires Hands(ph) && action != Release && action != Crash && Act(mode, w, p, ph, action).Some?
    ensures var move := Act(mode, w, p, ph, action).value;
      Hands(move.phase) && (move.world == w || move.world == w.(batch := w.batch + [Write(w.up)]))
  {
  }

  /** Whatever the operation still does, it neither stops nor starts the service, nor touches
      the journal. */
  lemma {:induction false} LeftAlone(mode: Mode, w: World, p: nat, ph: Phase, actions: seq<Action>)
    requires Hands(ph) && Solo(mode, w, p, ph, actions).Some?
    requires forall i :: 0 <= i < |actions| ==> actions[i] != Release && actions[i] != Crash
    ensures var end := Solo(mode, w, p, ph, actions).value;
      && Hands(end.phase) && end.world == w.(batch := end.world.batch)
      && |w.batch| <= |end.world.batch| && end.world.batch[..|w.batch|] == w.batch
      && forall i :: |w.batch| <= i < |end.world.batch| ==> end.world.batch[i] == Write(w.up)
    decreases |actions|
  {
    if actions != [] {
      hide Act, Hands;
      var move := Act(mode, w, p, ph, actions[0]).value;
      HandsOff(mode, w, p, ph, actions[0]);
      LeftAlone(mode, move.world, p, move.phase, actions[1..]);
      var end := Solo(mode, w, p, ph, actions).value;
      assert end.world.batch[..|w.batch|] == end.world.batch[..|move.world.batch|][..|w.batch|];
      assert |move.world.batch| > |w.batch| ==>
        end.world.batch[|w.batch|] == end.world.batch[..|move.world.batch|][|w.batch|];
    }
  }

  // ---- the operation as the code runs it, from taking the lock to giving it back ----

  /** How the outside world answers one operation: what the checks say, how long the service is
      polled, before which board the user cancels, during which board something unforeseen is
      raised, and what takes effect. */
  datatype Answers = Answers(
    seen: bool, written: bool, stopped: bool, stopRaises: bool, polls: nat, cancelAt: nat, breaksAt: nat,
    started: bool, unlinked: bool)

  /** The boards that get their turn if nothing is raised. */
  function Turns(boards: nat, a: Answers): nat {
    if a.cancelAt < boards then a.cancelAt else boards
  }

  /** The boards whose write is over, and those whose write has begun. */
  function Flashed(boards: nat, a: Answers): nat {
    if a.breaksAt < Turns(boards, a) then a.breaksAt else Turns(boards, a)
  }

  function Begun(boards: nat, a: Answers): nat {
    if a.breaksAt < Turns(boards, a) then a.breaksAt + 1 else Turns(boards, a)
  }

  lemma {:induction false} SoloSnoc(mode: Mode, w: World, p: nat, ph: Phase, actions: seq<Action>, action: Action)
    requires Solo(mode, w, p, ph, actions).Some?
    ensures var mid := Solo(mode, w, p, ph, actions).value;
      Solo(mode, w, p, ph, actions + [action]) == Act(mode, mid.world, p, mid.phase, action)
    decreases |actions|
  {
    if actions == [] {
      assert actions + [action] == [action];
      SoloOne(mode, w, p, ph, action);
    } else {
      hide Act;
      assert (actions + [action])[1..] == actions[1..] + [action];
      var move := Act(mode, w, p, ph, actions[0]).value;
      SoloSnoc(mode, move.world, p, move.phase, actions[1..], action);
    }
  }

  function Writes(n: nat, up: bool): (batch: seq<Event>)
    ensures |batch| == n && Shape(batch, false, false)
  {
    if n == 0 then [] else Writes(n - 1, up) + [Write(up)]
  }

  /** One process flashing a batch, step by step. */
  class Operation {
    const mode: Mode
    const p: nat
    ghost const origin: World
    var world: World
    var phase: Phase
    ghost var trace: seq<Action>

    ghost predicate Valid()
      reads this
    {
      Solo(mode, origin, p, Idle, trace) == Some(Move(world, phase))
    }

    constructor (mode: Mode, p: nat, w: World)
      ensures Valid() && world == origin == w && phase == Idle && trace == []
      ensures this.mode == mode && this.p == p
    {
      this.mode, this.p, origin, world, phase, trace := mode, p, w, w, Idle, [];
    }

    method Do(action: Action)
      requires Valid() && Act(mode, world, p, phase, action).Some?
      modifies this
      ensures Valid() && trace == old(trace) + [action]
      ensures Move(world, phase) == Act(mode, old(world), p, old(phase), action).value
    {
      SoloSnoc(mode, origin, p, Idle, trace, action);
      hide Act, Solo;
      var move := Act(mode, world, p, phase, action).value;
      world, phase, trace := move.world, move.phase, trace + [action];
    }

    method WriteBoard()
      requires Valid() && phase.Body? && phase.left > 0
      modifies this
      ensures Valid() && phase == Body(old(phase).left - 1, old(phase).stopped)
      ensures world == old(world).(batch := old(world.batch) + [Write(old(world.up))])
    {
      hide Solo;
      Do(NextBoard);
      Do(EndWrite);
    }

    /** The loop over the boards, which looks for a cancellation before each of them. */
    method FlashSome(boards: nat, a: Answers) returns (flashed: nat)
      requires Valid() && phase.Body? && phase.left == boards
      modifies this
      ensures Valid() && flashed == Flashed(boards, a)
      ensures phase == Body(boards - flashed, old(phase).stopped)
      ensures world == old(world).(batch := old(world.batch) + Writes(flashed, old(world.up)))
    {
      hide Solo;
      ghost var before := world;
      var stopped := phase.stopped;
      flashed := 0;
      assert before.batch + [] == before.batch;
      while flashed < boards && flashed != a.cancelAt && flashed != a.breaksAt
        invariant Valid() && flashed <= boards && flashed <= a.cancelAt && flashed <= a.breaksAt
        invariant phase == Body(boards - flashed, stopped)
        invariant world == before.(batch := before.batch + Writes(flashed, before.up))
      {
        WriteBoard();
        flashed := flashed + 1;
        assert (before.batch + Writes(flashed - 1, before.up)) + [Write(before.up)]
            == before.batch + Writes(flashed, before.up);
      }
    }

    /** The block: it ends with the last board, before the next, or in the middle of one. */
    method Boards(boards: nat, a: Answers) returns (flashed: nat)
      requires Valid() && phase.Body? && phase.left == boards
      modifies this
      ensures Valid() && phase == AfterBlock(old(phase).stopped)
      ensures flashed == Flashed(boards, a)
      ensures world == old(world).(batch := old(world.batch) + Writes(Begun(boards, a), old(world.up)))
    {
      hide Solo;
      ghost var before := world;
      flashed := FlashSome(boards, a);
      if flashed < boards && flashed != a.cancelAt {
        BreakBoard();
        assert (before.batch + Writes(flashed, before.up)) + [Write(before.up)]
            == before.batch + Writes(flashed + 1, before.up);
      } else {
        Do(if flashed < boards then Cancel else NextBoard);
      }
    }

    /** An exception that nobody expects, in the middle of a write. */
    method BreakBoard()
      requires Valid() && phase.Body? && phase.left > 0
      modifies this
      ensures Valid() && phase == AfterBlock(old(phase).stopped)
      ensures world == old(world).(batch := old(world.batch) + [Write(old(world.up))])
    {
      hide Solo;
      Do(NextBoard);
      Do(Raise);
    }

    /** Stop, then look until the service is down or the time is up. */
    method StopService(a: Answers)
      requires Valid() && phase.OpStop? && world.up && world.batch == [] && world.holder == Some(p)
      modifies this
      ensures Valid()
      ensures world == old(world).(up := !a.stopped, owed := true, batch := [Stop])
      ensures phase == if a.stopRaises then Unlock else if a.stopped then Body(old(phase).left, true) else AbortStart
    {
      hide Solo;
      var n := phase.left;
      Do(IssueStop(a.stopped, a.stopRaises));
      assert [] + [Stop] == [Stop];
      if a.stopRaises {
        return;
      }
      var polls: nat := a.polls;
      while phase.OpVerify?
        invariant Valid() && world == old(world).(up := !a.stopped, owed := true, batch := [Stop])
        invariant phase == OpVerify(n) || phase == if a.stopped then Body(n, true) else AbortStart
        decreases if phase.OpVerify? then polls + 1 else 0
      {
        var timeout := polls == 0;
        if polls > 0 {
          polls := polls - 1;
        }
        Do(Verify(true, timeout));
      }
    }

    /** The `finally`: start, then drop the journal whatever the start did. */
    method StartService(a: Answers)
      requires Valid() && (phase.Restore? || phase.AbortStart?) && world.holder == Some(p)
      modifies this
      ensures Valid() && phase == Unlock
      ensures world == old(world).(up := old(world.up) || a.started, owed := false,
                                   journal := old(world.journal) && !a.unlinked, batch := old(world.batch) + [Start])
    {
      hide Solo;
      if phase.Restore? {
        Do(StartRestore(a.started));
        Do(ClearRestore(a.unlinked));
      } else {
        Do(StartAbort(a.started));
        Do(ClearAbort(a.unlinked));
      }
    }

    /** Up to the decision whether there is a service to stop. */
    method Begin(boards: nat, a: Answers)
      requires Valid() && phase.Idle? && world.holder.None?
      modifies this
      ensures Valid()
      ensures var active := old(world.up) && a.seen;
        && phase == (if !active then Body(boards, false) else if a.written then OpStop(boards) else Unlock)
        && world == old(world).(holder := Some(p), batch := [], journal := old(world.journal) || (active && a.written))
    {
      hide Solo;
      Do(Acquire(boards));
      Do(CheckEntry(a.seen));
      if phase.OpRecord? {
        Do(RecordStop(a.written));
      }
    }

    /** A whole batch: the service ends up as it was found, unless stop or start had no effect; and
        what the stop leaves behind when it raises, a reconciliation has to put right. */
    method FlashAll(boards: nat, a: Answers) returns (flashed: nat)
      requires Valid() && phase.Idle? && world.holder.None?
      modifies this
      ensures Valid() && phase.Idle? && world.holder.None?
      ensures !(old(world.up) && a.seen) ==>
        && flashed == Flashed(boards, a)
        && world == old(world).(batch := Writes(Begun(boards, a), old(world.up)))
      ensures old(world.up) && a.seen && !a.written ==> flashed == 0 && world == old(world).(batch := [])
      ensures old(world.up) && a.seen && a.written && a.stopRaises ==>
        flashed == 0 && world == World(!a.stopped, true, true, None, [Stop])
      ensures old(world.up) && a.seen && a.written && !a.stopRaises && a.stopped ==>
        && flashed == Flashed(boards, a)
        && world == World(a.started, !a.unlinked, false, None, [Stop] + Writes(Begun(boards, a), false) + [Start])
      ensures old(world.up) && a.seen && a.written && !a.stopRaises && !a.stopped ==>
        flashed == 0 && world == World(true, !a.unlinked, false, None, [Stop, Start])
    {
      hide Solo, Flashed, Begun;
      flashed := 0;
      Begin(boards, a);
      if phase.Body? {
        flashed := Boards(boards, a);
        ghost var writes := Writes(Begun(boards, a), world.up);
        assert [] + writes == writes;
      } else if phase.OpStop? {
        StopService(a);
        if a.stopped && !a.stopRaises {
          flashed := Boards(boards, a);
        } else {
          assert [Stop] + [Start] == [Stop, Start];
        }
        if !a.stopRaises {
          StartService(a);
        }
      }
      Do(Release);
    }
  }

  // ---- what goes wrong without the guard, or with a check that fails ----

  /** A run goes on with some steps of `p`. */
  lemma {:induction false} Turn(mode: Mode, first: State, steps: seq<Step>, p: nat, actions: seq<Action>, move: Move)
    requires Run(mode, first, steps).Some?
    requires var st := Run(mode, first, steps).value;
      p < |st.procs| && Solo(mode, st.world, p, st.procs[p], actions) == Some(move)
    ensures var st := Run(mode, first, steps).value;
      Run(mode, first, steps + Steps(p, actions)) == Some(State(move.world, st.procs[p := move.phase]))
  {
    hide Solo, Steps;
    SoloRuns(mode, Run(mode, first, steps).value, p, actions);
    Runs.RunOn(Machine(mode), first, steps, Steps(p, actions));
  }

  /** A process that has recorded the stop it is about to issue. */
  const TO_RECORD: seq<Action> := [Boot, ReadJournal, Acquire(2), CheckEntry(true), RecordStop(true)]

  lemma Recording()
    ensures Solo(AsCoded, World(true, false, false, None, []), 0, Dead, TO_RECORD)
      == Some(Move(World(true, true, false, Some(0), []), OpStop(2)))
  {
  }

  /** A second process starts up, sees the journal, and looks at the service. */
  const TO_CHECK: seq<Action> := [Boot, ReadJournal, CheckReconcile(true)]

  lemma {:induction false} Checking(w: World)
    requires w.journal
    ensures Solo(AsCoded, w, 1, Dead, TO_CHECK)
      == Some(if w.up then Move(w.(owed := false), RecClear) else Move(w, RecStart))
  {
  }

  /** The stop takes effect. */
  lemma Stopping()
    ensures Act(AsCoded, World(true, true, false, Some(0), []), 0, OpStop(2), IssueStop(true, false))
      == Some(Move(World(false, true, true, Some(0), [Stop]), OpVerify(2)))
  {
    assert [] + [Stop] == [Stop];
  }

  const JOURNAL_LOST: seq<Step> :=
    Steps(0, TO_RECORD) + Steps(1, TO_CHECK) + Steps(0, [IssueStop(true, false)])
    + Steps(1, [ClearReconcile(true)]) + Steps(0, [Crash])

  lemma ClearAndCrash(w: World)
    requires w.holder == Some(0)
    ensures Act(AsCoded, w, 1, RecClear, ClearReconcile(true)) == Some(Move(w.(journal := false), Idle))
    ensures Act(AsCoded, w, 0, OpVerify(2), Crash) == Some(Move(w.(holder := None), Dead))
  {
  }

  /** As the code stands, a reconciliation between the record and the stop it announces erases
      the record: after a crash nothing on disk says that the service has to come back. */
  lemma JournalLost()
    ensures var end := Run(AsCoded, Initial(2, true), JOURNAL_LOST);
      && end.Some? && end.value.procs == [Dead, Idle]
      && end.value.world.owed && !end.value.world.up && !end.value.world.journal
  {
    hide Act, Solo, Run, Steps, TO_RECORD, TO_CHECK;
    var w1 := World(true, true, false, Some(0), []);
    var w2 := World(false, true, true, Some(0), [Stop]);
    var w3 := w2.(journal := false);
    var w4 := w3.(holder := None);
    var first := Initial(2, true);
    Recording();
    Checking(w1);
    Stopping();
    ClearAndCrash(w2);
    ClearAndCrash(w3);
    SoloOne(AsCoded, w1, 0, OpStop(2), IssueStop(true, false));
    SoloOne(AsCoded, w2, 1, RecClear, ClearReconcile(true));
    SoloOne(AsCoded, w3, 0, OpVerify(2), Crash);
    var t1 := Steps(0, TO_RECORD);
    var t2 := t1 + Steps(1, TO_CHECK);
    var t3 := t2 + Steps(0, [IssueStop(true, false)]);
    var t4 := t3 + Steps(1, [ClearReconcile(true)]);
    FirstTurn(first, 0, TO_RECORD, Move(w1, OpStop(2)));
    Turn(AsCoded, first, t1, 1, TO_CHECK, Move(w1, RecClear));
    Turn(AsCoded, first, t2, 0, [IssueStop(true, false)], Move(w2, OpVerify(2)));
    Turn(AsCoded, first, t3, 1, [ClearReconcile(true)], Move(w3, Idle));
    Turn(AsCoded, first, t4, 0, [Crash], Move(w4, Dead));
  }

  lemma {:induction false} FirstTurn(first: State, p: nat, actions: seq<Action>, move: Move)
    requires p < |first.procs| && Solo(AsCoded, first.world, p, first.procs[p], actions) == Some(move)
    ensures Run(AsCoded, first, Steps(p, actions)) == Some(State(move.world, first.procs[p := move.phase]))
  {
    hide Act;
    SoloRuns(AsCoded, first, p, actions);
  }

  const MID_FLASH: seq<Step> :=
    Steps(0, TO_RECORD) + Steps(0, [IssueStop(true, false)]) + Steps(0, [Verify(true, false)])
    + Steps(0, [NextBoard]) + Steps(1, TO_CHECK) + Steps(1, [StartReconcile(true, false)])

  lemma MidFlash(w: World)
    requires w == World(false, true, true, Some(0), [Stop])
    ensures Act(AsCoded, w, 0, OpVerify(2), Verify(true, false)) == Some(Move(w, Body(2, true)))
    ensures Act(AsCoded, w, 0, Body(2, true), NextBoard)
      == Some(Move(w.(batch := [Stop, Write(false)]), Writing(1, true)))
    ensures Act(AsCoded, w.(batch := [Stop, Write(false)]), 1, RecStart, StartReconcile(true, false))
      == Some(Move(World(true, true, false, Some(0), [Stop, Write(false)]), RecClear))
  {
    assert [Stop] + [Write(false)] == [Stop, Write(false)];
  }

  /** As the code stands, starting the command line tool while the agent writes a board starts
      Klipper under it. */
  lemma StartedMidFlash()
    ensures var end := Run(AsCoded, Initial(2, true), MID_FLASH);
      end.Some? && end.value.procs == [Writing(1, true), RecClear] && end.value.world.up
  {
    hide Act, Solo, Run, Steps, TO_RECORD, TO_CHECK;
    var w1 := World(true, true, false, Some(0), []);
    var w2 := World(false, true, true, Some(0), [Stop]);
    var w3 := w2.(batch := [Stop, Write(false)]);
    var w4 := World(true, true, false, Some(0), [Stop, Write(false)]);
    var first := Initial(2, true);
    Recording();
    Stopping();
    MidFlash(w2);
    Checking(w3);
    SoloOne(AsCoded, w1, 0, OpStop(2), IssueStop(true, false));
    SoloOne(AsCoded, w2, 0, OpVerify(2), Verify(true, false));
    SoloOne(AsCoded, w2, 0, Body(2, true), NextBoard);
    SoloOne(AsCoded, w3, 1, RecStart, StartReconcile(true, false));
    var t1 := Steps(0, TO_RECORD);
    var t2 := t1 + Steps(0, [IssueStop(true, false)]);
    var t3 := t2 + Steps(0, [Verify(true, false)]);
    var t4 := t3 + Steps(0, [NextBoard]);
    var t5 := t4 + Steps(1, TO_CHECK);
    FirstTurn(first, 0, TO_RECORD, Move(w1, OpStop(2)));
    Turn(AsCoded, first, t1, 0, [IssueStop(true, false)], Move(w2, OpVerify(2)));
    Turn(AsCoded, first, t2, 0, [Verify(true, false)], Move(w2, Body(2, true)));
    Turn(AsCoded, first, t3, 0, [NextBoard], Move(w3, Writing(1, true)));
    Turn(AsCoded, first, t4, 1, TO_CHECK, Move(w3, RecStart));
    Turn(AsCoded, first, t5, 1, [StartReconcile(true, false)], Move(w4, RecClear));
  }

  /** Guard or not: an activity check that fails reads as "already stopped", and the boards are
      written with Klipper running. */
  lemma {:induction false} BlindCheckWritesUp(mode: Mode)
    ensures var end := Solo(mode, World(true, false, false, None, []), 0, Idle,
        [Acquire(1), CheckEntry(false), NextBoard]);
      end == Some(Move(World(true, false, false, Some(0), [Write(true)]), Writing(0, false)))
  {
    assert [] + [Write(true)] == [Write(true)];
  }
}
