/** Boards that turn up after their bootloader was installed, and are then tracked as the type
    they were meant for. */
module Adoption {
  import opened Dfu
  import opened Runs
  import opened Text

  datatype Device = Device(katapult: bool, serial: string)

  /** The types and the serials tracked under each. */
  type Registry = map<string, seq<string>>

  /** `mark` numbers the pairings as they are recorded. */
  datatype Pairing = Pairing(mcuType: string, at: nat, mark: nat)

  type Book = map<string, Pairing>

  /** `used` lists the marks of the pairings acted upon. */
  datatype World = World(reg: Registry, book: Book, used: seq<nat>)

  const PAIRING_TTL := 86400

  predicate Tracks(reg: Registry, name: string, serial: string) {
    name in reg && serial in reg[name]
  }

  predicate Tracked(reg: Registry, serial: string) {
    exists name :: name in reg && Tracks(reg, name, serial)
  }

  /** The devices in their bootloader that nobody tracks. */
  function Untracked(reg: Registry, devices: seq<Device>): (untracked: seq<Device>)
    ensures forall d :: d in untracked <==> d in devices && d.katapult && !Tracked(reg, d.serial)
  {
    if devices == [] then []
    else
      var d := devices[|devices| - 1];
      var before := Untracked(reg, devices[..|devices| - 1]);
      assert devices == devices[..|devices| - 1] + [d];
      if d.katapult && !Tracked(reg, d.serial) then before + [d] else before
  }

  /** How many of them would have this DFU serial. */
  function Seen(devices: seq<Device>, key: string): nat {
    if devices == [] then 0
    else
      Seen(devices[..|devices| - 1], key) + if DfuSerial(devices[|devices| - 1].serial) == Some(key) then 1 else 0
  }

  predicate Live(p: Pairing, now: nat) {
    now <= p.at + PAIRING_TTL
  }

  function TypeFor(book: Book, now: nat, key: string): Maybe<string> {
    if key in book && Live(book[key], now) && book[key].mcuType != "" then Some(book[key].mcuType) else None
  }

  function Pruned(book: Book, now: nat): Book {
    map key | key in book && Live(book[key], now) :: book[key]
  }

  /** The type a device is to be adopted as, if the rules allow it: the DFU serial is not shared on
      the bus, there is a live pairing, and the type existed when the registry was read. */
  function Chosen(names: set<string>, untracked: seq<Device>, book: Book, now: nat, d: Device): Maybe<string> {
    match DfuSerial(d.serial)
    case None => None
    case Some(key) =>
      if Seen(untracked, key) != 1 then None
      else
        var mcuType := TypeFor(book, now, key);
        if mcuType.Some? && mcuType.value in names then mcuType else None
  }

  /** The locked registry edit, on the registry as it is by then; nothing if the type is gone or
      has the serial already. */
  function Tracking(w: World, mcuType: string, d: Device): Maybe<World> {
    if mcuType !in w.reg || d.serial in w.reg[mcuType] then None
    else Some(w.(reg := w.reg[mcuType := w.reg[mcuType] + [d.serial]]))
  }

  function Consumed(w: World, key: string): World {
    if key in w.book then w.(book := w.book - {key}, used := w.used + [w.book[key].mark]) else w
  }

  function AdoptOne(names: set<string>, untracked: seq<Device>, now: nat, w: World, d: Device): World {
    match Chosen(names, untracked, w.book, now, d)
    case None => w
    case Some(mcuType) =>
      match Tracking(w, mcuType, d)
      case None => w
      case Some(w') => Consumed(w', DfuSerial(d.serial).value)
  }

  /** The first `n` untracked devices, one after the other. */
  function AdoptFirst(names: set<string>, untracked: seq<Device>, now: nat, w: World, n: nat): World
    requires n <= |untracked|
  {
    if n == 0 then w
    else AdoptOne(names, untracked, now, AdoptFirst(names, untracked, now, w, n - 1), untracked[n - 1])
  }

  /** The whole pass, with nobody else at the registry or the pairings. */
  function Adopt(w: World, devices: seq<Device>, now: nat): World {
    if w.book == map[] then w
    else
      var untracked := Untracked(w.reg, devices);
      var w' := AdoptFirst(w.reg.Keys, untracked, now, w, |untracked|);
      w'.(book := Pruned(w'.book, now))
  }

  /** The agent's registry and its file of pairings. */
  class Agent {
    var reg: Registry
    var book: Book
    var used: seq<nat>
    var next: nat

    constructor (reg: Registry)
      ensures this.reg == reg && book == map[] && used == []
    {
      this.reg, book, used, next := reg, map[], [], 0;
    }

    method Record(key: string, mcuType: string, now: nat)
      modifies this`book, this`next
      ensures book == if key == "" then old(book) else old(book)[key := Pairing(mcuType, now, old(next))]
    {
      if key != "" {
        book := book[key := Pairing(mcuType, now, next)];
        next := next + 1;
      }
    }

    /** One device of the pass. */
    method AdoptDevice(names: set<string>, untracked: seq<Device>, now: nat, d: Device) returns (mcuType: Maybe<string>)
      modifies this`reg, this`book, this`used
      ensures World(reg, book, used) == AdoptOne(names, untracked, now, World(old(reg), old(book), old(used)), d)
      ensures forall t, s :: Tracks(old(reg), t, s) ==> Tracks(reg, t, s)
      ensures mcuType.Some? ==> Tracks(reg, mcuType.value, d.serial)
    {
      hide DfuSerial, Seen;
      mcuType := Chosen(names, untracked, book, now, d);
      if mcuType.None? || mcuType.value !in reg || d.serial in reg[mcuType.value] {
        return None;
      }
      var key := DfuSerial(d.serial).value;
      reg := reg[mcuType.value := reg[mcuType.value] + [d.serial]];
      used := used + [book[key].mark];
      book := book - {key};
    }

    /** The pass over the bus, as coded: count, choose, edit, forget, prune. */
    method AdoptPaired(devices: seq<Device>, now: nat) returns (adopted: seq<(string, string)>)
      modifies this`reg, this`book, this`used
      ensures World(reg, book, used) == Adopt(World(old(reg), old(book), old(used)), devices, now)
      ensures forall i :: 0 <= i < |adopted| ==> Tracks(reg, adopted[i].0, adopted[i].1)
    {
      hide AdoptOne, Untracked, Pruned, Tracks;
      adopted := [];
      if book == map[] {
        return;
      }
      ghost var before := World(reg, book, used);
      var names := reg.Keys;
      var untracked := Untracked(reg, devices);
      for i := 0 to |untracked|
        invariant World(reg, book, used) == AdoptFirst(names, untracked, now, before, i)
        invariant forall k :: 0 <= k < |adopted| ==> Tracks(reg, adopted[k].0, adopted[k].1)
      {
        var mcuType := AdoptDevice(names, untracked, now, untracked[i]);
        if mcuType.Some? {
          adopted := adopted + [(mcuType.value, untracked[i].serial)];
        }
      }
      book := Pruned(book, now);
    }
  }

  // ---- exactly who is adopted ----

  lemma {:induction false} SeenTwice(devices: seq<Device>, i: nat, k: nat, key: string)
    requires i < k < |devices| && DfuSerial(devices[i].serial) == DfuSerial(devices[k].serial) == Some(key)
    ensures Seen(devices, key) >= 2
  {
    hide DfuSerial;
    var init := devices[..|devices| - 1];
    if k < |init| {
      SeenTwice(init, i, k, key);
    } else {
      SeenOnce(init, i, key);
    }
  }

  lemma {:induction false} SeenOnce(devices: seq<Device>, i: nat, key: string)
    requires i < |devices| && DfuSerial(devices[i].serial) == Some(key)
    ensures Seen(devices, key) >= 1
  {
    if i < |devices| - 1 {
      SeenOnce(devices[..|devices| - 1], i, key);
    }
  }

  /** One of the first `n` devices has this serial and is to be adopted as this type. */
  ghost predicate ChosenFor(w: World, untracked: seq<Device>, now: nat, n: nat, mcuType: string, serial: string)
    requires n <= |untracked|
  {
    exists i :: 0 <= i < n && untracked[i].serial == serial
      && Chosen(w.reg.Keys, untracked, w.book, now, untracked[i]) == Some(mcuType)
  }

  /** One of the first `n` devices uses up the pairing for `key`. */
  ghost predicate KeyUsed(w: World, untracked: seq<Device>, now: nat, n: nat, key: string)
    requires n <= |untracked|
  {
    exists i :: 0 <= i < n && DfuSerial(untracked[i].serial) == Some(key)
      && Chosen(w.reg.Keys, untracked, w.book, now, untracked[i]).Some?
  }

  /** After the first `n` devices: added is who was chosen, and gone is what was used. */
  ghost predicate Halfway(w: World, untracked: seq<Device>, now: nat, n: nat, w': World)
    requires n <= |untracked|
  {
    && w'.reg.Keys == w.reg.Keys
    && (forall t, s :: t in w.reg ==>
          (Tracks(w'.reg, t, s) <==> Tracks(w.reg, t, s) || ChosenFor(w, untracked, now, n, t, s)))
    && (forall key :: key in w'.book <==> key in w.book && !KeyUsed(w, untracked, now, n, key))
    && (forall key :: key in w'.book ==> w'.book[key] == w.book[key])
  }

  /** What is chosen depends on the pairing only, and that is still there when its turn comes. */
  lemma ChosenStays(w: World, untracked: seq<Device>, now: nat, n: nat, w': World)
    requires n < |untracked| && Halfway(w, untracked, now, n, w')
    ensures Chosen(w.reg.Keys, untracked, w'.book, now, untracked[n])
      == Chosen(w.reg.Keys, untracked, w.book, now, untracked[n])
  {
    hide DfuSerial, Seen;
    var d := untracked[n];
    if DfuSerial(d.serial).Some? && Seen(untracked, DfuSerial(d.serial).value) == 1 {
      var key := DfuSerial(d.serial).value;
      if KeyUsed(w, untracked, now, n, key) {
        var i :| 0 <= i < n && DfuSerial(untracked[i].serial) == Some(key)
          && Chosen(w.reg.Keys, untracked, w.book, now, untracked[i]).Some?;
        SeenTwice(untracked, i, n, key);
      }
      hide KeyUsed;
    }
  }

  /** No device before it has the same serial, if a device is chosen. */
  lemma ChosenIsFirst(w: World, untracked: seq<Device>, now: nat, n: nat, t: string)
    requires n < |untracked| && Chosen(w.reg.Keys, untracked, w.book, now, untracked[n]).Some?
    ensures !ChosenFor(w, untracked, now, n, t, untracked[n].serial)
  {
    if ChosenFor(w, untracked, now, n, t, untracked[n].serial) {
      var i :| 0 <= i < n && untracked[i].serial == untracked[n].serial
        && Chosen(w.reg.Keys, untracked, w.book, now, untracked[i]) == Some(t);
      SeenTwice(untracked, i, n, DfuSerial(untracked[n].serial).value);
    }
  }

  lemma OneMoreChosen(w: World, untracked: seq<Device>, now: nat, n: nat, t: string, s: string)
    requires n < |untracked|
    ensures ChosenFor(w, untracked, now, n + 1, t, s) <==>
      || ChosenFor(w, untracked, now, n, t, s)
      || (s == untracked[n].serial && Chosen(w.reg.Keys, untracked, w.book, now, untracked[n]) == Some(t))
  {
    hide Chosen;
    if s == untracked[n].serial && Chosen(w.reg.Keys, untracked, w.book, now, untracked[n]) == Some(t) {
      assert 0 <= n < n + 1 && untracked[n].serial == s;
    }
  }

  lemma OneMoreUsed(w: World, untracked: seq<Device>, now: nat, n: nat, key: string)
    requires n < |untracked|
    ensures KeyUsed(w, untracked, now, n + 1, key) <==>
      || KeyUsed(w, untracked, now, n, key)
      || (Chosen(w.reg.Keys, untracked, w.book, now, untracked[n]).Some? && DfuSerial(untracked[n].serial) == Some(key))
  {
    hide Chosen, DfuSerial;
    if Chosen(w.reg.Keys, untracked, w.book, now, untracked[n]).Some? && DfuSerial(untracked[n].serial) == Some(key) {
      assert 0 <= n < n + 1 && untracked[n].serial == untracked[n].serial;
    }
  }

  /** A device that is chosen, and whose type exists and does not have it yet. */
  lemma AdoptOneIs(names: set<string>, untracked: seq<Device>, now: nat, w: World, d: Device, t: string)
    requires Chosen(names, untracked, w.book, now, d) == Some(t) && t in w.reg && d.serial !in w.reg[t]
    ensures DfuSerial(d.serial).Some? && DfuSerial(d.serial).value in w.book
    ensures var key := DfuSerial(d.serial).value;
      var w' := AdoptOne(names, untracked, now, w, d);
      && w'.book == w.book - {key}
      && w'.used == w.used + [w.book[key].mark]
      && w'.reg.Keys == w.reg.Keys
      && forall a, s :: a in w.reg ==> (Tracks(w'.reg, a, s) <==> Tracks(w.reg, a, s) || (a == t && s == d.serial))
  {
    hide DfuSerial, Seen;
    var reg := w.reg[t := w.reg[t] + [d.serial]];
    assert AdoptOne(names, untracked, now, w, d).reg == reg;
    assert reg.Keys == w.reg.Keys;
  }

  lemma AdoptOneHalfway(w: World, untracked: seq<Device>, now: nat, n: nat, w': World)
    requires n < |untracked| && Halfway(w, untracked, now, n, w')
    requires !Tracked(w.reg, untracked[n].serial)
    ensures Halfway(w, untracked, now, n + 1, AdoptOne(w.reg.Keys, untracked, now, w', untracked[n]))
  {
    hide DfuSerial, Seen, ChosenFor, KeyUsed;
    var d := untracked[n];
    ChosenStays(w, untracked, now, n, w');
    var chosen := Chosen(w.reg.Keys, untracked, w.book, now, d);
    var w2 := AdoptOne(w.reg.Keys, untracked, now, w', d);
    if chosen.Some? {
      ChosenIsFirst(w, untracked, now, n, chosen.value);
      assert chosen.value in w.reg;
      assert !Tracks(w.reg, chosen.value, d.serial);
      assert !Tracks(w'.reg, chosen.value, d.serial);
      AdoptOneIs(w.reg.Keys, untracked, now, w', d, chosen.value);
    }
    hide Chosen, DfuSerial, ChosenFor, KeyUsed, Seen, AdoptOne, Tracks, Tracked;
    forall t, s | t in w.reg
      ensures Tracks(w2.reg, t, s) <==> Tracks(w.reg, t, s) || ChosenFor(w, untracked, now, n + 1, t, s)
    {
      OneMoreChosen(w, untracked, now, n, t, s);
    }
    forall key
      ensures key in w2.book <==> key in w.book && !KeyUsed(w, untracked, now, n + 1, key)
    {
      OneMoreUsed(w, untracked, now, n, key);
    }
  }

  lemma {:induction false} AdoptFirstHalfway(w: World, untracked: seq<Device>, now: nat, n: nat)
    requires n <= |untracked| && forall d :: d in untracked ==> !Tracked(w.reg, d.serial)
    ensures Halfway(w, untracked, now, n, AdoptFirst(w.reg.Keys, untracked, now, w, n))
  {
    if n > 0 {
      hide Halfway, AdoptOne;
      AdoptFirstHalfway(w, untracked, now, n - 1);
      assert untracked[n - 1] in untracked;
      AdoptOneHalfway(w, untracked, now, n - 1, AdoptFirst(w.reg.Keys, untracked, now, w, n - 1));
    }
  }

  /** What the rules say of a board: in its bootloader, tracked by nobody, the only such board with its DFU
      serial, and paired with an existing type no more than a day ago. */
  ghost predicate Entitled(w: World, devices: seq<Device>, now: nat, mcuType: string, serial: string) {
    DfuSerial(serial).Some? && exists i :: 0 <= i < |devices| && EntitledAt(w, devices, now, mcuType, serial, i)
  }

  ghost predicate EntitledAt(w: World, devices: seq<Device>, now: nat, mcuType: string, serial: string, i: int)
    requires DfuSerial(serial).Some? && 0 <= i < |devices|
  {
    var key := DfuSerial(serial).value;
    && devices[i] == Device(true, serial) && !Tracked(w.reg, serial)
    && (forall k :: 0 <= k < |devices| && k != i && devices[k].katapult && !Tracked(w.reg, devices[k].serial) ==>
          DfuSerial(devices[k].serial) != Some(key))
    && key in w.book && w.book[key].mcuType == mcuType && mcuType != "" && mcuType in w.reg
    && now - w.book[key].at <= 24 * 60 * 60
  }

  /** In the bootloader, tracked by nobody, with this DFU serial. */
  ghost predicate Rival(reg: Registry, d: Device, key: string) {
    d.katapult && !Tracked(reg, d.serial) && DfuSerial(d.serial) == Some(key)
  }

  lemma {:induction false} NoRival(reg: Registry, devices: seq<Device>, key: string)
    ensures Seen(Untracked(reg, devices), key) == 0 <==> forall k :: 0 <= k < |devices| ==> !Rival(reg, devices[k], key)
    decreases |devices|
  {
    hide DfuSerial, Tracked;
    if devices != [] {
      var n := |devices| - 1;
      NoRival(reg, devices[..n], key);
      UntrackedSeen(reg, devices, key);
    }
  }

  lemma UntrackedSeen(reg: Registry, devices: seq<Device>, key: string)
    requires devices != []
    ensures var n := |devices| - 1;
            Seen(Untracked(reg, devices), key)
            == Seen(Untracked(reg, devices[..n]), key) + if Rival(reg, devices[n], key) then 1 else 0
  {
    hide DfuSerial, Tracked;
    var n := |devices| - 1;
    var before, d := Untracked(reg, devices[..n]), devices[n];
    assert (before + [d])[..|before|] == before;
  }

  lemma {:induction false} OnlyRival(reg: Registry, devices: seq<Device>, key: string, i: nat)
    requires i < |devices| && Rival(reg, devices[i], key)
    ensures Seen(Untracked(reg, devices), key) == 1
            <==> forall k :: 0 <= k < |devices| && k != i ==> !Rival(reg, devices[k], key)
    decreases |devices|
  {
    var n := |devices| - 1;
    var init := devices[..n];
    UntrackedSeen(reg, devices, key);
    NoRival(reg, init, key);
    hide Rival, Seen, Untracked;
    LastRival(reg, devices, key, i);
    if i < n {
      assert init[i] == devices[i];
      OnlyRival(reg, init, key, i);
    }
  }

  lemma LastRival(reg: Registry, devices: seq<Device>, key: string, i: nat)
    requires i < |devices|
    ensures var n := |devices| - 1;
            (forall k :: 0 <= k < |devices| && k != i ==> !Rival(reg, devices[k], key))
            <==> (forall k :: 0 <= k < n && k != i ==> !Rival(reg, devices[..n][k], key))
                 && (i < n ==> !Rival(reg, devices[n], key))
  {
    hide Rival;
    var n := |devices| - 1;
    assert forall k :: 0 <= k < n ==> devices[..n][k] == devices[k];
    if forall k :: 0 <= k < n && k != i ==> !Rival(reg, devices[..n][k], key) {
      assert forall k :: 0 <= k < n && k != i ==> !Rival(reg, devices[k], key);
    }
  }

  /** Entitled is exactly who is chosen. */
  lemma {:induction false} EntitledIff(w: World, devices: seq<Device>, now: nat, mcuType: string, serial: string)
    ensures Entitled(w, devices, now, mcuType, serial) <==>
      && Device(true, serial) in devices && !Tracked(w.reg, serial)
      && Chosen(w.reg.Keys, Untracked(w.reg, devices), w.book, now, Device(true, serial)) == Some(mcuType)
  {
    hide DfuSerial, Tracked, Seen, Untracked;
    if DfuSerial(serial).Some? && Device(true, serial) in devices && !Tracked(w.reg, serial) {
      var key := DfuSerial(serial).value;
      forall i | 0 <= i < |devices| && devices[i] == Device(true, serial)
        ensures Seen(Untracked(w.reg, devices), key) == 1
                <==> forall k :: 0 <= k < |devices| && k != i ==> !Rival(w.reg, devices[k], key)
      {
        OnlyRival(w.reg, devices, key, i);
      }
      var i :| 0 <= i < |devices| && devices[i] == Device(true, serial);
      assert EntitledAt(w, devices, now, mcuType, serial, i)
        <==> Chosen(w.reg.Keys, Untracked(w.reg, devices), w.book, now, Device(true, serial)) == Some(mcuType);
    }
  }

  /** After a pass a serial is tracked under a type exactly if it was before, or its board was
      entitled to be. */
  lemma AdoptionIsExact(w: World, devices: seq<Device>, now: nat, mcuType: string, serial: string)
    requires mcuType in w.reg
    ensures var w' := Adopt(w, devices, now);
      && w'.reg.Keys == w.reg.Keys
      && (Tracks(w'.reg, mcuType, serial)
          <==> Tracks(w.reg, mcuType, serial) || Entitled(w, devices, now, mcuType, serial))
  {
    var untracked := Untracked(w.reg, devices);
    AdoptFirstHalfway(w, untracked, now, |untracked|);
    EntitledIsChosen(w, devices, now, mcuType, serial);
    hide ChosenFor, Entitled, Untracked, AdoptFirst;
    if w.book == map[] {
      NoPairingNoChoice(w, untracked, now, mcuType, serial);
    }
  }

  lemma {:induction false} EntitledIsChosen(w: World, devices: seq<Device>, now: nat, mcuType: string, serial: string)
    ensures var untracked := Untracked(w.reg, devices);
      Entitled(w, devices, now, mcuType, serial) <==> ChosenFor(w, untracked, now, |untracked|, mcuType, serial)
  {
    EntitledIff(w, devices, now, mcuType, serial);
    hide Chosen, Entitled;
    var untracked := Untracked(w.reg, devices);
    if Entitled(w, devices, now, mcuType, serial) {
      assert Device(true, serial) in untracked;
      var i :| 0 <= i < |untracked| && untracked[i] == Device(true, serial);
      assert untracked[i].serial == serial;
    }
    if ChosenFor(w, untracked, now, |untracked|, mcuType, serial) {
      var i :| 0 <= i < |untracked| && untracked[i].serial == serial
        && Chosen(w.reg.Keys, untracked, w.book, now, untracked[i]) == Some(mcuType);
      assert untracked[i] in untracked;
      assert untracked[i] == Device(true, serial);
    }
  }

  /** Serials are added behind those a type had. */
  lemma {:induction false} AddedAtTheEnd(names: set<string>, untracked: seq<Device>, now: nat, w: World, n: nat)
    requires n <= |untracked|
    ensures var w' := AdoptFirst(names, untracked, now, w, n);
            forall t :: t in w.reg ==> t in w'.reg && w.reg[t] <= w'.reg[t]
  {
    if n > 0 {
      AddedAtTheEnd(names, untracked, now, w, n - 1);
      var before := AdoptFirst(names, untracked, now, w, n - 1);
      assert AdoptFirst(names, untracked, now, w, n) == AdoptOne(names, untracked, now, before, untracked[n - 1]);
      hide Chosen, AdoptFirst;
    }
  }

  /** After a pass a pairing is there exactly if it was before, is no more than a day old, and let no board in. */
  lemma {:induction false} PairingsLeft(w: World, devices: seq<Device>, now: nat, key: string)
    ensures var w' := Adopt(w, devices, now);
      && (key in w'.book <==>
            && key in w.book && now - w.book[key].at <= 24 * 60 * 60
            && !exists t, serial :: Entitled(w, devices, now, t, serial) && DfuSerial(serial) == Some(key))
      && (key in w'.book ==> w'.book[key] == w.book[key])
  {
    var untracked := Untracked(w.reg, devices);
    AdoptFirstHalfway(w, untracked, now, |untracked|);
    UsedIsEntitled(w, devices, now, key);
    hide KeyUsed, Entitled, Untracked, AdoptFirst, ChosenFor, DfuSerial, Tracks;
  }

  lemma {:induction false} UsedIsEntitled(w: World, devices: seq<Device>, now: nat, key: string)
    ensures var untracked := Untracked(w.reg, devices);
      KeyUsed(w, untracked, now, |untracked|, key)
      <==> exists t, serial :: Entitled(w, devices, now, t, serial) && DfuSerial(serial) == Some(key)
  {
    hide DfuSerial, Chosen, Entitled, Untracked;
    var untracked := Untracked(w.reg, devices);
    if KeyUsed(w, untracked, now, |untracked|, key) {
      var i :| 0 <= i < |untracked| && DfuSerial(untracked[i].serial) == Some(key)
        && Chosen(w.reg.Keys, untracked, w.book, now, untracked[i]).Some?;
      var t := Chosen(w.reg.Keys, untracked, w.book, now, untracked[i]).value;
      assert ChosenFor(w, untracked, now, |untracked|, t, untracked[i].serial);
      EntitledIsChosen(w, devices, now, t, untracked[i].serial);
    }
    if t, serial :| Entitled(w, devices, now, t, serial) && DfuSerial(serial) == Some(key) {
      EntitledIsChosen(w, devices, now, t, serial);
    }
  }

  lemma NoPairingNoChoice(w: World, untracked: seq<Device>, now: nat, mcuType: string, serial: string)
    requires w.book == map[]
    ensures !ChosenFor(w, untracked, now, |untracked|, mcuType, serial)
  {
    hide DfuSerial;
  }

  /** Two boards that share a DFU serial are never adopted while both are there: not knowing which
      is which, the pass takes neither. */
  lemma NeverAGuess(w: World, devices: seq<Device>, now: nat, a: string, b: string, mcuType: string)
    requires Device(true, a) in devices && Device(true, b) in devices && a != b
    requires !Tracked(w.reg, a) && !Tracked(w.reg, b)
    requires Decodes(Uid(a)) && Decodes(Uid(b)) && Sum(Uid(a)) == Sum(Uid(b)) && Top(Uid(a)) == Top(Uid(b))
    ensures !Entitled(w, devices, now, mcuType, a)
  {
    SameDfuSerial(a, b);
    assert DfuSerial(a).Some?;
    hide Uid, Decodes, Sum, Top, DfuSerial, Seen;
    var untracked := Untracked(w.reg, devices);
    assert Device(true, a) in untracked && Device(true, b) in untracked;
    hide Untracked, Tracked;
    SharedKey(untracked, Device(true, a), Device(true, b), DfuSerial(a).value);
  }

  lemma {:induction false} SharedKey(untracked: seq<Device>, a: Device, b: Device, key: string)
    requires a in untracked && b in untracked && a != b
    requires DfuSerial(a.serial) == Some(key) && DfuSerial(b.serial) == Some(key)
    ensures Seen(untracked, key) >= 2
  {
    hide DfuSerial, Seen;
    var i :| 0 <= i < |untracked| && untracked[i] == a;
    var k :| 0 <= k < |untracked| && untracked[k] == b;
    if i < k {
      SeenTwice(untracked, i, k, key);
    } else {
      SeenTwice(untracked, k, i, key);
    }
  }

  // ---- runs of edits, recordings and passes ----

  datatype State = State(world: World, now: nat, next: nat)

  /** `AddSerial` looks at the other types if it is `checked`, as the agent's is and the command
      line's is not. `AdoptCrash` dies right after the edit for device `n`, before its pairing is
      forgotten. */
  datatype Event =
    | Install(key: string, mcuType: string)
    | Wait(seconds: nat)
    | AddType(name: string)
    | RemoveType(name: string)
    | AddSerial(name: string, serial: string, checked: bool)
    | RemoveSerial(name: string, serial: string)
    | AdoptPass(devices: seq<Device>)
    | AdoptCrash(devices: seq<Device>, n: nat)

  function Without(serials: seq<string>, serial: string): (rest: seq<string>)
    ensures forall s :: s in rest ==> s in serials
  {
    if serials == [] then []
    else if serials[0] == serial then serials[1..]
    else [serials[0]] + Without(serials[1..], serial)
  }

  /** The type exists, and another one has the serial. */
  ghost predicate Taken(reg: Registry, mcuType: string, serial: string) {
    mcuType in reg && exists other :: other in reg && other != mcuType && Tracks(reg, other, serial)
  }

  /** Refused for an unknown type, and where it is checked for a serial under another one. */
  function AddedSerial(reg: Registry, name: string, serial: string, checked: bool): Registry {
    if name !in reg || (checked && exists other :: other in reg && other != name && Tracks(reg, other, serial)) then reg
    else if serial in reg[name] then reg
    else reg[name := reg[name] + [serial]]
  }

  /** The pass up to and including the edit for device `n`: the pairing it acts on stays. */
  function CrashedPass(w: World, devices: seq<Device>, now: nat, n: nat): World {
    var untracked := Untracked(w.reg, devices);
    if n >= |untracked| then Adopt(w, devices, now)
    else
      var before := AdoptFirst(w.reg.Keys, untracked, now, w, n);
      var after := AdoptOne(w.reg.Keys, untracked, now, before, untracked[n]);
      after.(book := before.book)
  }

  function Next(st: State, e: Event): Maybe<State> {
    var w := st.world;
    match e
    case Install(key, mcuType) =>
      Some(if key == "" then st
           else st.(world := w.(book := w.book[key := Pairing(mcuType, st.now, st.next)]), next := st.next + 1))
    case Wait(seconds) => Some(st.(now := st.now + seconds))
    case AddType(name) => Some(if name in w.reg then st else st.(world := w.(reg := w.reg[name := []])))
    case RemoveType(name) => Some(st.(world := w.(reg := w.reg - {name})))
    case AddSerial(name, serial, checked) => Some(st.(world := w.(reg := AddedSerial(w.reg, name, serial, checked))))
    case RemoveSerial(name, serial) =>
      Some(if name !in w.reg then st else st.(world := w.(reg := w.reg[name := Without(w.reg[name], serial)])))
    case AdoptPass(devices) => Some(st.(world := Adopt(w, devices, st.now)))
    case AdoptCrash(devices, n) => Some(st.(world := CrashedPass(w, devices, st.now, n)))
  }

  /** No board under two types. */
  ghost predicate Exclusive(reg: Registry) {
    forall a, b, s :: Tracks(reg, a, s) && Tracks(reg, b, s) ==> a == b
  }

  /** A pass keeps that, because it only adds serials that nobody tracked, each once. */
  lemma HalfwayExclusive(w: World, untracked: seq<Device>, now: nat, n: nat, w': World)
    requires n <= |untracked| && Halfway(w, untracked, now, n, w') && Exclusive(w.reg)
    requires forall d :: d in untracked ==> !Tracked(w.reg, d.serial)
    ensures Exclusive(w'.reg)
  {
    forall a, b, s | Tracks(w'.reg, a, s) && Tracks(w'.reg, b, s)
      ensures a == b
    {
      hide Chosen, KeyUsed;
      assert a in w.reg && b in w.reg;
      TypeIsUnique(w, untracked, now, n, a, b, s);
    }
  }

  lemma TypeIsUnique(w: World, untracked: seq<Device>, now: nat, n: nat, a: string, b: string, s: string)
    requires n <= |untracked| && a in w.reg && b in w.reg && Exclusive(w.reg)
    requires forall d :: d in untracked ==> !Tracked(w.reg, d.serial)
    requires Tracks(w.reg, a, s) || ChosenFor(w, untracked, now, n, a, s)
    requires Tracks(w.reg, b, s) || ChosenFor(w, untracked, now, n, b, s)
    ensures a == b
  {
    hide DfuSerial, Seen;
    if ChosenFor(w, untracked, now, n, a, s) {
      var i :| 0 <= i < n && untracked[i].serial == s
        && Chosen(w.reg.Keys, untracked, w.book, now, untracked[i]) == Some(a);
      assert untracked[i] in untracked;
      assert !Tracks(w.reg, b, s);
      assert ChosenFor(w, untracked, now, n, b, s);
    }
    if ChosenFor(w, untracked, now, n, b, s) {
      var i :| 0 <= i < n && untracked[i].serial == s
        && Chosen(w.reg.Keys, untracked, w.book, now, untracked[i]) == Some(b);
      assert untracked[i] in untracked;
      assert !Tracks(w.reg, a, s);
    }
  }

  lemma AdoptExclusive(w: World, devices: seq<Device>, now: nat, n: nat)
    requires Exclusive(w.reg)
    ensures Exclusive(Adopt(w, devices, now).reg) && Exclusive(CrashedPass(w, devices, now, n).reg)
  {
    var untracked := Untracked(w.reg, devices);
    AdoptFirstHalfway(w, untracked, now, |untracked|);
    HalfwayExclusive(w, untracked, now, |untracked|, AdoptFirst(w.reg.Keys, untracked, now, w, |untracked|));
    if n < |untracked| {
      AdoptFirstHalfway(w, untracked, now, n + 1);
      HalfwayExclusive(w, untracked, now, n + 1, AdoptFirst(w.reg.Keys, untracked, now, w, n + 1));
    }
    hide Halfway, Exclusive, Untracked, AdoptOne;
  }

  lemma FewerExclusive(reg: Registry, reg': Registry)
    requires Exclusive(reg) && forall a, s :: Tracks(reg', a, s) ==> Tracks(reg, a, s)
    ensures Exclusive(reg')
  {
  }

  lemma NewTypeExclusive(reg: Registry, name: string)
    requires Exclusive(reg) && name !in reg
    ensures Exclusive(reg[name := []])
  {
    FewerExclusive(reg, reg[name := []]);
  }

  lemma {:induction false} RemovedExclusive(reg: Registry, name: string, serial: string)
    requires Exclusive(reg) && name in reg
    ensures Exclusive(reg[name := Without(reg[name], serial)])
  {
    hide Without;
    FewerExclusive(reg, reg[name := Without(reg[name], serial)]);
  }

  /** Adding a serial keeps the types apart exactly if it is checked, or no other type has it. */
  lemma AddedExclusiveIff(reg: Registry, name: string, serial: string, checked: bool)
    requires Exclusive(reg)
    ensures Exclusive(AddedSerial(reg, name, serial, checked)) <==> checked || !Taken(reg, name, serial)
  {
    var reg' := AddedSerial(reg, name, serial, checked);
    if !checked && Taken(reg, name, serial) {
      var other :| other in reg && other != name && Tracks(reg, other, serial);
      assert Tracks(reg', other, serial) && Tracks(reg', name, serial);
    } else {
      forall a, b, s | Tracks(reg', a, s) && Tracks(reg', b, s)
        ensures a == b
      {
        assert Tracks(reg, a, s) || (a == name && s == serial);
        assert Tracks(reg, b, s) || (b == name && s == serial);
      }
    }
  }

  /** The command line adds a serial that another type has. */
  ghost predicate Clashes(st: State, e: Event) {
    e.AddSerial? && !e.checked && Taken(st.world.reg, e.name, e.serial)
  }

  /** Of all edits and passes that one, and no other, puts a board under two types. */
  lemma ClashesIff(st: State, e: Event)
    requires Exclusive(st.world.reg)
    ensures Exclusive(Next(st, e).value.world.reg) <==> !Clashes(st, e)
  {
    match e
    case AdoptPass(devices) => AdoptExclusive(st.world, devices, st.now, 0); hide Exclusive;
    case AdoptCrash(devices, n) => AdoptExclusive(st.world, devices, st.now, n); hide Exclusive;
    case AddSerial(name, serial, checked) =>
      AddedExclusiveIff(st.world.reg, name, serial, checked);
      hide Exclusive, AddedSerial, Taken;
    case RemoveSerial(name, serial) =>
      if name in st.world.reg {
        RemovedExclusive(st.world.reg, name, serial);
      }
      hide Exclusive;
    case AddType(name) =>
      if name !in st.world.reg {
        NewTypeExclusive(st.world.reg, name);
      }
      hide Exclusive;
    case RemoveType(name) => FewerExclusive(st.world.reg, st.world.reg - {name}); hide Exclusive;
    case Install(_, _) =>
    case Wait(_) =>
  }

  /** Whatever the order of edits, recordings and passes, crashes included: as long as each is done
      before the next begins, and the command line adds no serial that another type has, no serial
      is ever tracked under two types. */
  lemma {:induction false} NoBoardTwice(reg: Registry, events: seq<Event>)
    requires Exclusive(reg) && Run(Next, State(World(reg, map[], []), 0, 0), events).Some?
    requires Along(Next, (st, e) => !Clashes(st, e), State(World(reg, map[], []), 0, 0), events)
    ensures Exclusive(Run(Next, State(World(reg, map[], []), 0, 0), events).value.world.reg)
  {
    hide Next, Exclusive, Clashes;
    forall st: State, e: Event | Exclusive(st.world.reg) && !Clashes(st, e) && Next(st, e).Some?
      ensures Exclusive(Next(st, e).value.world.reg)
    {
      ClashesIff(st, e);
    }
    AlongKeeps(Next, (st: State) => Exclusive(st.world.reg), (st, e) => !Clashes(st, e),
               State(World(reg, map[], []), 0, 0), events);
  }

  // ---- a pairing acts once ----

  /** Pairings still in the book have marks of their own, that were not used yet. */
  ghost predicate Unused(w: World, next: nat) {
    && (forall key :: key in w.book ==> w.book[key].mark < next && w.book[key].mark !in w.used)
    && (forall a, b :: a in w.book && b in w.book && w.book[a].mark == w.book[b].mark ==> a == b)
    && (forall i, k :: 0 <= i < k < |w.used| ==> w.used[i] != w.used[k])
    && (forall i :: 0 <= i < |w.used| ==> w.used[i] < next)
  }

  lemma ConsumedUnused(w: World, key: string, next: nat)
    requires Unused(w, next)
    ensures Unused(Consumed(w, key), next)
  {
  }

  lemma AdoptOneUnused(names: set<string>, untracked: seq<Device>, now: nat, w: World, d: Device, next: nat)
    requires Unused(w, next)
    ensures Unused(AdoptOne(names, untracked, now, w, d), next)
  {
    hide DfuSerial, Seen;
    var chosen := Chosen(names, untracked, w.book, now, d);
    if chosen.Some? && Tracking(w, chosen.value, d).Some? {
      ConsumedUnused(Tracking(w, chosen.value, d).value, DfuSerial(d.serial).value, next);
    }
  }

  lemma {:induction false} AdoptFirstUnused(
      names: set<string>, untracked: seq<Device>, now: nat, w: World, n: nat, next: nat)
    requires n <= |untracked| && Unused(w, next)
    ensures Unused(AdoptFirst(names, untracked, now, w, n), next)
  {
    if n > 0 {
      hide AdoptOne, Unused;
      AdoptFirstUnused(names, untracked, now, w, n - 1, next);
      AdoptOneUnused(names, untracked, now, AdoptFirst(names, untracked, now, w, n - 1), untracked[n - 1], next);
    }
  }

  /** Device `n` of the pass is one that it adopts. */
  ghost predicate Adopts(w: World, devices: seq<Device>, now: nat, n: nat) {
    var untracked := Untracked(w.reg, devices);
    n < |untracked| && Chosen(w.reg.Keys, untracked, w.book, now, untracked[n]).Some?
  }

  /** A crash after device `n` leaves a used pairing behind exactly if that device was adopted. */
  lemma CrashUnusedIff(w: World, devices: seq<Device>, now: nat, n: nat, next: nat)
    requires Unused(w, next)
    ensures Unused(CrashedPass(w, devices, now, n), next) <==> !Adopts(w, devices, now, n)
  {
    hide DfuSerial, Seen, Unused, Adopt, AdoptFirst, UsedSince;
    var untracked := Untracked(w.reg, devices);
    if n >= |untracked| {
      AdoptUnused(w, devices, now, next);
    } else if Adopts(w, devices, now, n) {
      var t := Chosen(w.reg.Keys, untracked, w.book, now, untracked[n]).value;
      var key := DfuSerial(untracked[n].serial).value;
      CrashLeavesPairing(w, devices, now, n, t, key);
      UsedIsNotUnused(w, CrashedPass(w, devices, now, n), key, next);
    } else {
      NotAdopted(w, devices, now, n);
      AdoptFirstUnused(w.reg.Keys, untracked, now, w, n, next);
    }
  }

  lemma AdoptUnused(w: World, devices: seq<Device>, now: nat, next: nat)
    requires Unused(w, next)
    ensures Unused(Adopt(w, devices, now), next)
  {
    var untracked := Untracked(w.reg, devices);
    AdoptFirstUnused(w.reg.Keys, untracked, now, w, |untracked|, next);
    hide AdoptFirst, Untracked;
  }

  lemma UsedIsNotUnused(w: World, w': World, key: string, next: nat)
    requires key in w.book && key in w'.book && w'.book[key] == w.book[key]
      && UsedSince(w.used, w'.used, w.book[key].mark)
    ensures !Unused(w', next)
  {
    assert w.book[key].mark in w'.used;
  }

  lemma {:induction false} NotAdopted(w: World, devices: seq<Device>, now: nat, n: nat)
    requires n < |Untracked(w.reg, devices)| && !Adopts(w, devices, now, n)
    ensures var untracked := Untracked(w.reg, devices);
      CrashedPass(w, devices, now, n) == AdoptFirst(w.reg.Keys, untracked, now, w, n)
  {
    hide DfuSerial, Seen, KeyUsed;
    var untracked := Untracked(w.reg, devices);
    var before := AdoptFirst(w.reg.Keys, untracked, now, w, n);
    AdoptFirstHalfway(w, untracked, now, n);
    ChosenStays(w, untracked, now, n, before);
    hide Chosen, AdoptFirst, Halfway, Untracked;
  }

  /** The crash comes between the edit for a device and forgetting its pairing. */
  ghost predicate LeavesUsed(st: State, e: Event) {
    e.AdoptCrash? && Adopts(st.world, e.devices, st.now, e.n)
  }

  /** Of all edits and passes that one, and no other, leaves a pairing that was used. */
  lemma LeavesUsedIff(st: State, e: Event)
    requires Unused(st.world, st.next)
    ensures Unused(Next(st, e).value.world, Next(st, e).value.next) <==> !LeavesUsed(st, e)
  {
    match e
    case AdoptPass(devices) => AdoptUnused(st.world, devices, st.now, st.next); hide Adopt;
    case AdoptCrash(devices, n) =>
      CrashUnusedIff(st.world, devices, st.now, n, st.next); hide CrashedPass, Adopts, Unused;
    case _ => OtherUnused(st, e); hide *;
  }

  lemma OtherUnused(st: State, e: Event)
    requires Unused(st.world, st.next) && !e.AdoptPass? && !e.AdoptCrash?
    ensures Unused(Next(st, e).value.world, Next(st, e).value.next) && !LeavesUsed(st, e)
  {
    hide AddedSerial, Adopt, CrashedPass, Adopts;
  }

  /** In runs without such a crash no pairing is acted upon twice. */
  lemma {:induction false} PairingActsOnce(reg: Registry, events: seq<Event>)
    requires Run(Next, State(World(reg, map[], []), 0, 0), events).Some?
    requires Along(Next, (st, e) => !LeavesUsed(st, e), State(World(reg, map[], []), 0, 0), events)
    ensures var used := Run(Next, State(World(reg, map[], []), 0, 0), events).value.world.used;
      forall i, k :: 0 <= i < k < |used| ==> used[i] != used[k]
  {
    var first := State(World(reg, map[], []), 0, 0);
    assert Unused(first.world, first.next);
    forall st: State, e: Event | Unused(st.world, st.next) && !LeavesUsed(st, e) && Next(st, e).Some?
      ensures Unused(Next(st, e).value.world, Next(st, e).value.next)
    {
      hide Next, Unused, LeavesUsed;
      LeavesUsedIff(st, e);
    }
    hide Next, LeavesUsed;
    AlongKeeps(Next, (st: State) => Unused(st.world, st.next), (st, e) => !LeavesUsed(st, e), first, events);
  }

  // ---- a pass with edits in between ----

  /** The pass at work: what it saw when it looked, and which device is next. */
  datatype Pass = Pass(names: set<string>, untracked: seq<Device>, n: nat)

  datatype Split = Split(base: State, pass: Maybe<Pass>)

  /** The steps of a pass, and whole edits by others between them. */
  datatype SplitStep = Look(devices: seq<Device>) | AdoptNext | EndPass | Other(event: Event)

  function SplitNext(s: Split, step: SplitStep): Maybe<Split> {
    var st := s.base;
    match step
    case Look(devices) =>
      if s.pass.Some? then None
      else if st.world.book == map[] then Some(s)
      else Some(s.(pass := Some(Pass(st.world.reg.Keys, Untracked(st.world.reg, devices), 0))))
    case AdoptNext =>
      if s.pass.None? || s.pass.value.n >= |s.pass.value.untracked| then None
      else
        var pass := s.pass.value;
        var w := AdoptOne(pass.names, pass.untracked, st.now, st.world, pass.untracked[pass.n]);
        Some(Split(st.(world := w), Some(pass.(n := pass.n + 1))))
    case EndPass =>
      if s.pass.None? then None
      else Some(Split(st.(world := st.world.(book := Pruned(st.world.book, st.now))), None))
    case Other(event) =>
      if event.AdoptPass? || event.AdoptCrash? then None else Some(s.(base := Next(st, event).value))
  }

  function Edits(n: nat): (steps: seq<SplitStep>)
    ensures |steps| == n && forall i :: 0 <= i < n ==> steps[i] == AdoptNext
  {
    seq(n, i => AdoptNext)
  }

  lemma {:induction false} EditsRun(st: State, names: set<string>, untracked: seq<Device>, n: nat)
    requires n <= |untracked|
    ensures Run(SplitNext, Split(st, Some(Pass(names, untracked, 0))), Edits(n))
      == Some(Split(st.(world := AdoptFirst(names, untracked, st.now, st.world, n)), Some(Pass(names, untracked, n))))
  {
    var first := Split(st, Some(Pass(names, untracked, 0)));
    if n > 0 {
      EditsRun(st, names, untracked, n - 1);
      assert Edits(n) == Edits(n - 1) + [AdoptNext];
      RunSnoc(SplitNext, first, Edits(n - 1), AdoptNext);
      hide AdoptOne, Run;
    }
  }

  /** A pass with nothing in between is the whole pass. */
  lemma {:induction false} PassInPieces(st: State, devices: seq<Device>)
    requires st.world.book != map[]
    ensures var n := |Untracked(st.world.reg, devices)|;
      Run(SplitNext, Split(st, None), [Look(devices)] + Edits(n) + [EndPass])
      == Some(Split(Next(st, AdoptPass(devices)).value, None))
  {
    hide AdoptFirst, AdoptOne, Untracked, Pruned;
    var names, untracked := st.world.reg.Keys, Untracked(st.world.reg, devices);
    var n := |untracked|;
    var looked := Split(st, Some(Pass(names, untracked, 0)));
    assert SplitNext(Split(st, None), Look(devices)) == Some(looked);
    EditsRun(st, names, untracked, n);
    RunSnoc(SplitNext, looked, Edits(n), EndPass);
    var steps := [Look(devices)] + Edits(n) + [EndPass];
    assert steps[0] == Look(devices) && steps[1..] == Edits(n) + [EndPass];
  }

  /** Removing a serial that stands once leaves all others, in their order. */
  lemma {:induction false} WithoutIs(serials: seq<string>, serial: string, k: nat)
    requires forall i :: 0 <= i < |serials| && i != k ==> serials[i] != serial
    ensures k < |serials| && serials[k] == serial ==> Without(serials, serial) == serials[..k] + serials[k + 1..]
    ensures k >= |serials| ==> Without(serials, serial) == serials
    decreases |serials|
  {
    if serials != [] && k > 0 {
      WithoutIs(serials[1..], serial, k - 1);
    }
  }

  /** An install is recorded under the serial the board showed, with its time and a number of its own, unless it showed
      none. */
  lemma InstallIsRecorded(st: State, key: string, mcuType: string)
    ensures var st' := Next(st, Install(key, mcuType)).value;
      if key == "" then st' == st
      else
        && st'.next == st.next + 1 && st'.now == st.now && st'.world.reg == st.world.reg
        && st'.world.book == st.world.book[key := Pairing(mcuType, st.now, st.next)]
  {
  }

  /** The next edit of the pass is for a board that by now is tracked elsewhere. */
  ghost predicate PassCollides(s: Split, step: SplitStep) {
    && step.AdoptNext? && s.pass.Some? && s.pass.value.n < |s.pass.value.untracked|
    && var pass := s.pass.value;
    && var d := pass.untracked[pass.n];
    && var chosen := Chosen(pass.names, pass.untracked, s.base.world.book, s.base.now, d);
    && chosen.Some? && Taken(s.base.world.reg, chosen.value, d.serial)
  }

  /** One edit of a pass keeps the types apart exactly if no other type has the serial by then. */
  lemma AdoptOneExclusiveIff(names: set<string>, untracked: seq<Device>, now: nat, w: World, d: Device)
    requires Exclusive(w.reg)
    ensures var chosen := Chosen(names, untracked, w.book, now, d);
      Exclusive(AdoptOne(names, untracked, now, w, d).reg) <==> !(chosen.Some? && Taken(w.reg, chosen.value, d.serial))
  {
    hide DfuSerial, Seen;
    var chosen := Chosen(names, untracked, w.book, now, d);
    var reg := AdoptOne(names, untracked, now, w, d).reg;
    if chosen.Some? && chosen.value in w.reg && d.serial !in w.reg[chosen.value] {
      var t := chosen.value;
      AdoptOneIs(names, untracked, now, w, d, t);
      hide Chosen, AdoptOne;
      if Taken(w.reg, t, d.serial) {
        var other :| other in w.reg && other != t && Tracks(w.reg, other, d.serial);
        assert Tracks(reg, other, d.serial) && Tracks(reg, t, d.serial);
      } else {
        forall a, b, s | Tracks(reg, a, s) && Tracks(reg, b, s)
          ensures a == b
        {
          assert Tracks(w.reg, a, s) || (a == t && s == d.serial);
          assert Tracks(w.reg, b, s) || (b == t && s == d.serial);
        }
      }
    } else {
      assert reg == w.reg;
      assert chosen.Some? && chosen.value in w.reg ==> Tracks(w.reg, chosen.value, d.serial);
    }
  }

  /** That edit, or one by the command line for such a board. */
  ghost predicate Collides(s: Split, step: SplitStep) {
    PassCollides(s, step) || (step.Other? && Clashes(s.base, step.event))
  }

  /** So of all the steps of passes and edits those two, and no others, put a board under two types. */
  lemma BoardTwiceIff(s: Split, step: SplitStep)
    requires Exclusive(s.base.world.reg) && SplitNext(s, step).Some?
    ensures Exclusive(SplitNext(s, step).value.base.world.reg) <==> !Collides(s, step)
  {
    match step
    case Look(_) => hide Exclusive;
    case AdoptNext =>
      var pass := s.pass.value;
      AdoptOneExclusiveIff(pass.names, pass.untracked, s.base.now, s.base.world, pass.untracked[pass.n]);
      hide Exclusive, AdoptOne, Chosen, Taken;
    case EndPass => hide Exclusive;
    case Other(event) => ClashesIff(s.base, event); hide Exclusive, Next, Clashes;
  }

  /** While a pass is on, nobody adds one of the serials it has still to come to; and the command
      line never adds one that another type has. */
  ghost predicate Considerate(s: Split, step: SplitStep) {
    step.Other? && step.event.AddSerial? ==>
      && !Clashes(s.base, step.event)
      && (s.pass.Some? ==>
            forall i :: s.pass.value.n <= i < |s.pass.value.untracked| ==>
              s.pass.value.untracked[i].serial != step.event.serial)
  }

  /** Whoever is still to come, and could be chosen, is tracked by nobody. */
  ghost predicate Ahead(s: Split) {
    s.pass.Some? ==>
      forall i :: s.pass.value.n <= i < |s.pass.value.untracked| && Lone(s.pass.value.untracked, i) ==>
        !Tracked(s.base.world.reg, s.pass.value.untracked[i].serial)
  }

  predicate Lone(untracked: seq<Device>, i: nat)
    requires i < |untracked|
  {
    var key := DfuSerial(untracked[i].serial);
    key.Some? && Seen(untracked, key.value) == 1
  }

  /** Nothing is tracked after an edit that was not tracked before, but for what the edit adds. */
  lemma AheadEdits(st: State, event: Event, name: string, serial: string)
    requires !event.AdoptPass? && !event.AdoptCrash?
    requires Tracks(Next(st, event).value.world.reg, name, serial) && !Tracks(st.world.reg, name, serial)
    ensures event.AddSerial? && event.serial == serial
  {
  }

  lemma AheadAdopts(names: set<string>, untracked: seq<Device>, now: nat, w: World, n: nat, i: nat)
    requires n < i < |untracked| && Lone(untracked, i) && !Tracked(w.reg, untracked[i].serial)
    ensures !Tracked(AdoptOne(names, untracked, now, w, untracked[n]).reg, untracked[i].serial)
  {
    var d := untracked[n];
    if d.serial == untracked[i].serial {
      SeenTwice(untracked, n, i, DfuSerial(d.serial).value);
    }
    hide DfuSerial, Seen;
    var reg := AdoptOne(names, untracked, now, w, d).reg;
    var serial := untracked[i].serial;
    forall name | name in reg
      ensures !Tracks(reg, name, serial)
    {
      assert name in w.reg && (Tracks(reg, name, serial) ==> Tracks(w.reg, name, serial));
    }
  }

  lemma NextAhead(s: Split, step: SplitStep)
    requires Ahead(s) && Considerate(s, step) && SplitNext(s, step).Some?
    ensures Ahead(SplitNext(s, step).value) && !Collides(s, step)
  {
    var s' := SplitNext(s, step).value;
    hide DfuSerial, Seen;
    if s'.pass.Some? {
      var pass := s'.pass.value;
      forall i | pass.n <= i < |pass.untracked| && Lone(pass.untracked, i)
        ensures !Tracked(s'.base.world.reg, pass.untracked[i].serial)
      {
        match step
        case Look(_) =>
          assert pass.untracked[i] in pass.untracked;
        case AdoptNext =>
          AheadAdopts(pass.names, pass.untracked, s.base.now, s.base.world, s.pass.value.n, i);
        case EndPass =>
        case Other(event) =>
          var serial := pass.untracked[i].serial;
          if Tracked(s'.base.world.reg, serial) {
            var name :| name in s'.base.world.reg && Tracks(s'.base.world.reg, name, serial);
            hide Next;
            assert !Tracks(s.base.world.reg, name, serial);
            AheadEdits(s.base, event, name, serial);
          }
      }
    }
    NoCollision(s, step);
  }

  lemma NoCollision(s: Split, step: SplitStep)
    requires Ahead(s) && Considerate(s, step)
    ensures !Collides(s, step)
  {
    hide DfuSerial, Seen;
    if s.pass.Some? && s.pass.value.n < |s.pass.value.untracked| {
      var pass := s.pass.value;
      assert Lone(pass.untracked, pass.n) ==> !Tracked(s.base.world.reg, pass.untracked[pass.n].serial);
    }
  }

  /** Edits may come between a look and its edits, and still no board is ever under two types, as
      long as nobody adds a serial that a pass has seen and not yet come to, and the command line
      none that another type has. */
  lemma {:induction false} NoBoardTwiceInBetween(reg: Registry, steps: seq<SplitStep>)
    requires Exclusive(reg)
    requires var first := Split(State(World(reg, map[], []), 0, 0), None);
      && Run(SplitNext, first, steps).Some?
      && Along(SplitNext, (s, step) => Considerate(s, step), first, steps)
    ensures var first := Split(State(World(reg, map[], []), 0, 0), None);
      Exclusive(Run(SplitNext, first, steps).value.base.world.reg)
  {
    var first := Split(State(World(reg, map[], []), 0, 0), None);
    hide SplitNext, Exclusive, Considerate, Collides;
    forall s: Split, step: SplitStep | Exclusive(s.base.world.reg) && Ahead(s) && Considerate(s, step)
        && SplitNext(s, step).Some?
      ensures Exclusive(SplitNext(s, step).value.base.world.reg) && Ahead(SplitNext(s, step).value)
    {
      NextAhead(s, step);
      BoardTwiceIff(s, step);
    }
    AlongKeeps(SplitNext, (s: Split) => Exclusive(s.base.world.reg) && Ahead(s),
               (s, step) => Considerate(s, step), first, steps);
  }

  // ---- what goes wrong without that ----

  /** A serial added by hand between the pass's look at the registry and its edit ends up under
      two types: the edit only looks at its own type. */
  lemma EditedInBetween(w: World, d: Device, now: nat, a: string, b: string)
    requires a in w.reg && b in w.reg && a != b && d.katapult && !Tracked(w.reg, d.serial)
    requires Chosen(w.reg.Keys, Untracked(w.reg, [d]), w.book, now, d) == Some(a)
    ensures var meanwhile := w.(reg := AddedSerial(w.reg, b, d.serial, true));
      var end := AdoptOne(w.reg.Keys, Untracked(w.reg, [d]), now, meanwhile, d);
      Tracks(end.reg, a, d.serial) && Tracks(end.reg, b, d.serial)
  {
    hide DfuSerial, Seen, Untracked;
    var meanwhile := w.(reg := AddedSerial(w.reg, b, d.serial, true));
    assert forall other :: other in w.reg ==> !Tracks(w.reg, other, d.serial);
    assert meanwhile.reg == w.reg[b := w.reg[b] + [d.serial]];
    assert !Tracks(w.reg, a, d.serial);
  }

  /** The mark was used after `before`, and by `after`. */
  predicate UsedSince(before: seq<nat>, after: seq<nat>, mark: nat) {
    before <= after && mark in after[|before|..]
  }

  /** The marks of the pairings that the first `n` devices used up come behind those used before. */
  ghost predicate Spent(w: World, untracked: seq<Device>, now: nat, n: nat, w': World)
    requires n <= |untracked|
  {
    && w.used <= w'.used
    && forall key :: key in w.book && KeyUsed(w, untracked, now, n, key) ==>
         UsedSince(w.used, w'.used, w.book[key].mark)
  }

  lemma NoneSpent(w: World, untracked: seq<Device>, now: nat)
    ensures Spent(w, untracked, now, 0, w)
  {
    hide Chosen, UsedSince;
  }

  lemma {:induction false} AdoptFirstSpent(w: World, untracked: seq<Device>, now: nat, n: nat)
    requires n <= |untracked| && forall d :: d in untracked ==> !Tracked(w.reg, d.serial)
    ensures Spent(w, untracked, now, n, AdoptFirst(w.reg.Keys, untracked, now, w, n))
  {
    hide Halfway, Spent, AdoptOne, Tracked;
    if n == 0 {
      NoneSpent(w, untracked, now);
    } else {
      var before := AdoptFirst(w.reg.Keys, untracked, now, w, n - 1);
      AdoptFirstSpent(w, untracked, now, n - 1);
      AdoptFirstHalfway(w, untracked, now, n - 1);
      assert untracked[n - 1] in untracked;
      AdoptOneSpent(w, untracked, now, n - 1, before);
    }
  }

  lemma AdoptOneSpent(w: World, untracked: seq<Device>, now: nat, n: nat, w': World)
    requires n < |untracked| && Halfway(w, untracked, now, n, w') && Spent(w, untracked, now, n, w')
    requires !Tracked(w.reg, untracked[n].serial)
    ensures Spent(w, untracked, now, n + 1, AdoptOne(w.reg.Keys, untracked, now, w', untracked[n]))
  {
    hide DfuSerial, Seen, KeyUsed;
    var d := untracked[n];
    ChosenStays(w, untracked, now, n, w');
    var chosen := Chosen(w.reg.Keys, untracked, w.book, now, d);
    var w2 := AdoptOne(w.reg.Keys, untracked, now, w', d);
    if chosen.Some? {
      ChosenIsFirst(w, untracked, now, n, chosen.value);
      assert chosen.value in w.reg;
      assert !Tracks(w.reg, chosen.value, d.serial);
      assert !Tracks(w'.reg, chosen.value, d.serial);
      AdoptOneIs(w.reg.Keys, untracked, now, w', d, chosen.value);
    }
    hide Chosen, ChosenFor, AdoptOne, Tracks, Tracked;
    forall key | key in w.book && KeyUsed(w, untracked, now, n + 1, key)
      ensures UsedSince(w.used, w2.used, w.book[key].mark)
    {
      OneMoreUsed(w, untracked, now, n, key);
      if KeyUsed(w, untracked, now, n, key) {
        var k :| 0 <= k < |w'.used| - |w.used| && w'.used[|w.used|..][k] == w.book[key].mark;
        assert w2.used[|w.used|..][k] == w.book[key].mark;
      } else {
        assert w2.used[|w.used|..][|w'.used| - |w.used|] == w.book[key].mark;
      }
    }
  }

  /** What a crash right after the edit for device `n` leaves: the board is tracked, the pairing
      used, and still there. */
  lemma {:induction false} CrashLeavesPairing(w: World, devices: seq<Device>, now: nat, n: nat, t: string, key: string)
    requires n < |Untracked(w.reg, devices)|
    requires var untracked := Untracked(w.reg, devices);
      && Chosen(w.reg.Keys, untracked, w.book, now, untracked[n]) == Some(t)
      && DfuSerial(untracked[n].serial) == Some(key)
    ensures var w1 := CrashedPass(w, devices, now, n);
      && w1.reg.Keys == w.reg.Keys && Tracks(w1.reg, t, Untracked(w.reg, devices)[n].serial)
      && key in w.book && key in w1.book && w1.book[key] == w.book[key] && w.book[key].mcuType == t
      && UsedSince(w.used, w1.used, w.book[key].mark)
  {
    hide DfuSerial, Seen, KeyUsed;
    var untracked := Untracked(w.reg, devices);
    var before := AdoptFirst(w.reg.Keys, untracked, now, w, n);
    AdoptFirstHalfway(w, untracked, now, n);
    AdoptFirstSpent(w, untracked, now, n);
    ChosenStays(w, untracked, now, n, before);
    ChosenIsFirst(w, untracked, now, n, t);
    assert untracked[n] in untracked;
    assert !Tracks(w.reg, t, untracked[n].serial);
    assert !Tracks(before.reg, t, untracked[n].serial);
    AdoptOneIs(w.reg.Keys, untracked, now, before, untracked[n], t);
    assert key in w.book && w.book[key].mcuType == t;
    hide Chosen, ChosenFor, AdoptOne, Tracked, Untracked, AdoptFirst, Halfway;
    var used := before.used + [w.book[key].mark];
    assert used[|w.used|..][|before.used| - |w.used|] == w.book[key].mark;
  }

  /** A pass in which a live pairing finds its board alone. */
  lemma {:induction false} PairingActs(w: World, devices: seq<Device>, now: nat, t: string, key: string, serial: string)
    requires key in w.book && Live(w.book[key], now) && w.book[key].mcuType == t != "" && t in w.reg
    requires Device(true, serial) in devices && !Tracked(w.reg, serial)
    requires DfuSerial(serial) == Some(key) && Seen(Untracked(w.reg, devices), key) == 1
    ensures var end := Adopt(w, devices, now);
      && Tracks(end.reg, t, serial) && UsedSince(w.used, end.used, w.book[key].mark)
      && forall s :: Tracks(w.reg, t, s) ==> Tracks(end.reg, t, s)
  {
    hide DfuSerial, Seen, UsedSince;
    var untracked := Untracked(w.reg, devices);
    assert Chosen(w.reg.Keys, untracked, w.book, now, Device(true, serial)) == Some(t);
    assert Device(true, serial) in untracked;
    var i :| 0 <= i < |untracked| && untracked[i] == Device(true, serial);
    assert untracked[i].serial == serial;
    assert KeyUsed(w, untracked, now, |untracked|, key);
    AdoptFirstSpent(w, untracked, now, |untracked|);
    EntitledIff(w, devices, now, t, serial);
    AdoptionIsExact(w, devices, now, t, serial);
    hide Chosen, KeyUsed, Entitled, Untracked, AdoptFirst, Tracks, Tracked;
    forall s | Tracks(w.reg, t, s)
      ensures Tracks(Adopt(w, devices, now).reg, t, s)
    {
      AdoptionIsExact(w, devices, now, t, s);
    }
  }

  /** After such a crash, on any bus and at any time at which the pairing is still live, the next
      board with the same DFU serial is adopted on the strength of it. */
  lemma {:induction false} PairingActsTwice(
      w: World, devices: seq<Device>, now: nat, n: nat, t: string, key: string,
      later: seq<Device>, soon: nat, two: string)
    requires n < |Untracked(w.reg, devices)|
    requires var untracked := Untracked(w.reg, devices);
      && Chosen(w.reg.Keys, untracked, w.book, now, untracked[n]) == Some(t)
      && DfuSerial(untracked[n].serial) == DfuSerial(two) == Some(key)
    requires key in w.book && Live(w.book[key], soon)
    requires var w1 := CrashedPass(w, devices, now, n);
      && Device(true, two) in later && !Tracked(w1.reg, two)
      && Seen(Untracked(w1.reg, later), key) == 1
    ensures var w1 := CrashedPass(w, devices, now, n);
      var end := Adopt(w1, later, soon);
      && Tracks(end.reg, t, Untracked(w.reg, devices)[n].serial) && Tracks(end.reg, t, two)
      && UsedSince(w.used, w1.used, w.book[key].mark) && UsedSince(w1.used, end.used, w.book[key].mark)
  {
    CrashLeavesPairing(w, devices, now, n, t, key);
    var w1 := CrashedPass(w, devices, now, n);
    assert t in w.reg && t != "";
    hide CrashedPass, DfuSerial, Seen, Chosen, UsedSince, Tracks, Tracked, Adopt, Untracked;
    PairingActs(w1, later, soon, t, key, two);
  }

  /** One untracked device on the bus. */
  lemma {:induction false} LoneDevice(reg: Registry, d: Device, key: string)
    requires d.katapult && !Tracked(reg, d.serial) && DfuSerial(d.serial) == Some(key)
    ensures Untracked(reg, [d]) == [d] && Seen([d], key) == 1
  {
    hide DfuSerial;
    assert [d][..0] == [];
  }

  /** For any id whose outer words differ there is such a next board, at any time within the life of
      the pairing. */
  lemma AnyPairingCanActTwice(uid: string, mcuType: string, key: string, at: nat, now: nat, soon: nat)
    requires IsUid(uid) && uid[..8] != uid[16..] && mcuType != "" && DfuSerial(uid) == Some(key)
    requires now <= at + PAIRING_TTL && soon <= at + PAIRING_TTL
    ensures var w := World(map[mcuType := []], map[key := Pairing(mcuType, at, 0)], []);
      var end := Adopt(CrashedPass(w, [Device(true, uid)], now, 0), [Device(true, Swapped(uid))], soon);
      && uid != Swapped(uid) && Tracks(end.reg, mcuType, uid) && Tracks(end.reg, mcuType, Swapped(uid))
  {
    assert |uid| == 24;
    hide DfuSerial, IsUid, Swapped, Uid, Adopt;
    SwapCollides(uid);
    var two := Swapped(uid);
    var w := World(map[mcuType := []], map[key := Pairing(mcuType, at, 0)], []);
    NotTracked(mcuType, [], uid);
    LoneDevice(w.reg, Device(true, uid), key);
    OnlyDevice(w, Device(true, uid), now, key);
    NotTracked(mcuType, [uid], two);
    LoneDevice(map[mcuType := [uid]], Device(true, two), key);
    hide Tracked, Untracked, Seen, CrashedPass;
    PairingActsTwice(w, [Device(true, uid)], now, 0, mcuType, key, [Device(true, two)], soon, two);
  }

  lemma {:induction false} OnlyDevice(w: World, d: Device, now: nat, key: string)
    requires d.katapult && DfuSerial(d.serial) == Some(key) && Untracked(w.reg, [d]) == [d] && Seen([d], key) == 1
    requires key in w.book && Live(w.book[key], now)
    requires w.book[key].mcuType != "" && w.reg == map[w.book[key].mcuType := []]
    ensures Chosen(w.reg.Keys, [d], w.book, now, d) == Some(w.book[key].mcuType)
    ensures CrashedPass(w, [d], now, 0).reg == map[w.book[key].mcuType := [d.serial]]
  {
    hide DfuSerial, Seen, Untracked;
    var t := w.book[key].mcuType;
    assert [] + [d.serial] == [d.serial];
    assert AdoptFirst(w.reg.Keys, [d], now, w, 0) == w;
    assert w.reg[t := [d.serial]] == map[t := [d.serial]];
  }

  lemma NotTracked(name: string, serials: seq<string>, serial: string)
    requires serial !in serials
    ensures !Tracked(map[name := serials], serial)
  {
  }
}
