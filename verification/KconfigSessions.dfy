/** Open configurations: where the user stands, which session makes room, and what a save leaves
    on disk at every moment. */
module KconfigSessions {
  import opened Kconfig
  import opened Text

  // ---- where the user stands ----

  /** The longest part of the way, at least the top menu, whose last node is visible. */
  function Anchored(root: Node, way: seq<Path>): (kept: seq<Path>)
    requires way != [] && forall k :: 0 <= k < |way| ==> Exists(root, way[k])
    ensures kept != [] && kept <= way
    ensures |kept| == 1 || Visible(At(root, kept[|kept| - 1]))
    ensures forall k :: |kept| <= k < |way| ==> !Visible(At(root, way[k]))
  {
    if |way| > 1 && !Visible(At(root, way[|way| - 1])) then Anchored(root, way[..|way| - 1]) else way
  }

  class KconfigSession {
    /** The tree as it is now: every assignment changes it. */
    var root: Node
    var way: seq<Path>
    var dirty: bool
    var revision: nat

    ghost predicate Valid()
      reads this
    {
      way != [] && way[0] == [] && forall k :: 0 <= k < |way| ==> Exists(root, way[k])
    }

    constructor (root: Node)
      ensures Valid() && this.root == root && way == [[]] && !dirty && revision == 0
    {
      this.root, way, dirty, revision := root, [[]], false, 0;
    }

    method Enter(path: Path) returns (entered: bool)
      requires Valid() && Exists(root, path)
      modifies this`way
      ensures Valid() && entered == Enterable(At(root, path))
      ensures way == if entered then old(way) + [path] else old(way)
    {
      entered := Enterable(At(root, path));
      if entered {
        way := way + [path];
      }
    }

    method Up()
      requires Valid()
      modifies this`way
      ensures Valid() && way == if |old(way)| > 1 then old(way)[..|old(way)| - 1] else old(way)
    {
      if |way| > 1 {
        way := way[..|way| - 1];
      }
    }

    method Reanchor()
      requires Valid()
      modifies this`way
      ensures Valid() && way == Anchored(root, old(way))
    {
      ghost var before := way;
      while |way| > 1 && !Visible(At(root, way[|way| - 1]))
        invariant Valid() && Anchored(root, way) == Anchored(root, before)
      {
        way := way[..|way| - 1];
      }
    }

    /** What every assignment that took ends with: `changed` is the tree it leads to, in which
        the places are the same and only what is visible differs. */
    method Assigned(changed: Node)
      requires Valid() && forall path :: Exists(changed, path) <==> Exists(root, path)
      modifies this
      ensures Valid() && root == changed && dirty && revision == old(revision) + 1
      ensures way == Anchored(changed, old(way))
    {
      root, dirty, revision := changed, true, revision + 1;
      Reanchor();
    }

    method Reset(parsed: Node)
      modifies this
      ensures Valid() && root == parsed && way == [[]] && !dirty && revision == old(revision) + 1
    {
      root, way, dirty, revision := parsed, [[]], false, revision + 1;
    }
  }

  // ---- which session makes room ----

  datatype Session = Session(id: nat, dirty: bool, touched: nat)

  const MAX := 4
  const TTL := 1800

  function Expired(s: Session, now: nat): bool {
    now > s.touched + TTL
  }

  function Reaped(sessions: seq<Session>, now: nat): seq<Session> {
    if sessions == [] then []
    else
      var last := sessions[|sessions| - 1];
      Reaped(sessions[..|sessions| - 1], now) + if Expired(last, now) then [] else [last]
  }

  /** Cleaner first, and among equally clean ones the one not touched for longest. */
  predicate Before(a: Session, b: Session) {
    (!a.dirty && b.dirty) || (a.dirty == b.dirty && a.touched < b.touched)
  }

  /** The session that goes: nobody comes before it, and the earlier of two equals goes. */
  function Victim(sessions: seq<Session>): (k: nat)
    requires sessions != []
    ensures k < |sessions|
    ensures forall i :: 0 <= i < |sessions| ==> !Before(sessions[i], sessions[k])
    ensures forall i :: 0 <= i < k ==> Before(sessions[k], sessions[i])
  {
    if |sessions| == 1 then 0
    else
      var n := |sessions| - 1;
      var k := Victim(sessions[..n]);
      if Before(sessions[n], sessions[k]) then n else k
  }

  /** Gone is exactly what nobody touched for more than half an hour. */
  lemma {:induction false} ReapedAre(sessions: seq<Session>, now: nat)
    ensures |Reaped(sessions, now)| <= |sessions|
    ensures forall s :: s in Reaped(sessions, now) <==> s in sessions && now - s.touched <= 30 * 60
    ensures DistinctIds(sessions) ==> DistinctIds(Reaped(sessions, now))
  {
    if sessions != [] {
      var init := sessions[..|sessions| - 1];
      ReapedAre(init, now);
      assert sessions == init + [sessions[|sessions| - 1]];
      var r := Reaped(init, now);
      forall i | 0 <= i < |r|
        ensures DistinctIds(sessions) ==> r[i].id != sessions[|sessions| - 1].id
      {
        assert r[i] in init;
      }
    }
  }

  /** Those that stay keep their order. */
  lemma {:induction false} ReapedInOrder(sessions: seq<Session>, now: nat) returns (at: seq<nat>)
    ensures |at| == |Reaped(sessions, now)|
    ensures forall i :: 0 <= i < |at| ==> at[i] < |sessions| && Reaped(sessions, now)[i] == sessions[at[i]]
    ensures forall i, k :: 0 <= i < k < |at| ==> at[i] < at[k]
  {
    if sessions == [] {
      at := [];
    } else {
      var n := |sessions| - 1;
      at := ReapedInOrder(sessions[..n], now);
      if !Expired(sessions[n], now) {
        at := at + [n];
      }
    }
  }

  ghost predicate DistinctIds(sessions: seq<Session>) {
    forall i, k :: 0 <= i < k < |sessions| ==> sessions[i].id != sessions[k].id
  }

  ghost predicate Fine(sessions: seq<Session>, next: nat) {
    && |sessions| <= MAX
    && DistinctIds(sessions)
    && forall i :: 0 <= i < |sessions| ==> sessions[i].id < next
  }

  lemma FineSize(sessions: seq<Session>, next: nat)
    requires Fine(sessions, next)
    ensures |sessions| <= 4
  {
  }

  lemma EvictedFine(sessions: seq<Session>, k: nat, next: nat)
    requires Fine(sessions, next) && k < |sessions|
    ensures Fine(sessions[..k] + sessions[k + 1..], next)
  {
  }

  lemma AddedFine(sessions: seq<Session>, s: Session, next: nat)
    requires Fine(sessions, next) && |sessions| < MAX && s.id == next
    ensures Fine(sessions + [s], next + 1)
  {
  }

  lemma WiderFine(sessions: seq<Session>, next: nat)
    requires Fine(sessions, next)
    ensures Fine(sessions, next + 1)
  {
  }

  lemma {:induction false} ReapedFine(sessions: seq<Session>, now: nat, next: nat)
    requires Fine(sessions, next)
    ensures Fine(Reaped(sessions, now), next)
  {
    ReapedAre(sessions, now);
    forall i | 0 <= i < |Reaped(sessions, now)|
      ensures Reaped(sessions, now)[i].id < next
    {
      assert Reaped(sessions, now)[i] in sessions;
    }
  }

  class SessionStore {
    var sessions: seq<Session>
    var next: nat

    ghost predicate Valid()
      reads this
    {
      Fine(sessions, next)
    }

    constructor ()
      ensures Valid() && sessions == []
    {
      sessions, next := [], 1;
    }

    method Reap(now: nat)
      requires Valid()
      modifies this`sessions
      ensures Valid() && sessions == Reaped(old(sessions), now)
      ensures forall s :: s in sessions <==> s in old(sessions) && now - s.touched <= 30 * 60
    {
      ReapedFine(sessions, now, next);
      ReapedAre(sessions, now);
      hide Fine;
      var kept: seq<Session> := [];
      for i := 0 to |sessions|
        invariant kept == Reaped(sessions[..i], now)
      {
        assert sessions[..i + 1][..i] == sessions[..i];
        if !Expired(sessions[i], now) {
          kept := kept + [sessions[i]];
        }
      }
      assert sessions[..|sessions|] == sessions;
      sessions := kept;
    }

    /** Expired sessions go; if there is still no room, one more goes, with unsaved edits only
        when all have some. `parses = false` is a tree that cannot be read: the room has been
        made, and no session is opened. */
    method Open(now: nat, parses: bool) returns (id: Maybe<nat>)
      requires Valid()
      modifies this
      ensures Valid() && next == old(next) + 1 && |sessions| <= 4
      ensures id == if parses then Some(old(next)) else None
      ensures var live := Reaped(old(sessions), now);
        var kept := if |live| < 4 then live else live[..Victim(live)] + live[Victim(live) + 1..];
        sessions == kept + if parses then [Session(old(next), false, now)] else []
    {
      hide Fine, Reaped;
      Reap(now);
      FineSize(sessions, next);
      if |sessions| >= MAX {
        var k := Victim(sessions);
        EvictedFine(sessions, k, next);
        sessions := sessions[..k] + sessions[k + 1..];
      }
      var sid := next;
      AddedFine(sessions, Session(sid, false, now), sid);
      WiderFine(sessions, sid);
      next := next + 1;
      if !parses {
        FineSize(sessions, next);
        return None;
      }
      sessions := sessions + [Session(sid, false, now)];
      FineSize(sessions, next);
      id := Some(sid);
    }
  }

  /** Unsaved edits are given up for a new session only if every live session has some; and then
      those touched longest ago. */
  lemma {:induction false} UnsavedGoLast(live: seq<Session>)
    requires live != []
    ensures live[Victim(live)].dirty ==> forall i :: 0 <= i < |live| ==>
      live[i].dirty && live[Victim(live)].touched <= live[i].touched
  {
    forall i | 0 <= i < |live|
      ensures !Before(live[i], live[Victim(live)])
    {
    }
  }

  // ---- what a save leaves on disk ----

  datatype Contents<D> = Missing | Partial | Whole(doc: D)

  datatype Disk<D> = Disk(config: Contents<D>, backup: Contents<D>, temp: Contents<D>)

  /** The disk after each step of a save: the temporary file half and fully written, the old
      answers renamed away if there are any, and the new ones renamed into place. */
  function Stages<D>(disk: Disk<D>, doc: D, moved: bool): seq<Disk<D>> {
    var half := disk.(temp := Partial);
    var full := disk.(temp := Whole(doc));
    if !disk.config.Whole? || !moved then
      [disk, half, full, full.(config := Whole(doc), temp := Missing)]
    else
      var away := full.(config := Missing, backup := disk.config);
      [disk, half, full, away, away.(config := Whole(doc), temp := Missing)]
  }

  /** What a new session reads: a missing file is taken for a type that was never configured. */
  function Answers<D>(disk: Disk<D>): Maybe<Contents<D>> {
    if disk.config.Missing? then None else Some(disk.config)
  }

  /** A crash at any moment of a save leaves the old answers complete in one of the two files,
      or the new ones in place. */
  lemma SaveKeepsAnswers<D>(disk: Disk<D>, doc: D, moved: bool, k: nat)
    requires disk.config.Whole? && k < |Stages(disk, doc, moved)|
    ensures var stage := Stages(disk, doc, moved)[k];
      && (stage.config == disk.config || stage.backup == disk.config || stage.config == Whole(doc))
      && !stage.config.Partial?
  {
  }

  /** But not always where they are looked for: after exactly one of the steps, if the old answers
      could be moved away, the type reads as never configured. */
  lemma SaveForgetsForAMoment<D>(disk: Disk<D>, doc: D, moved: bool, k: nat)
    requires disk.config.Whole? && k < |Stages(disk, doc, moved)|
    ensures Answers(Stages(disk, doc, moved)[k]).None? <==> moved && k == 3
  {
  }
}
