/**
 The token filter of the proxy (common/filter/SimpleFilterMng.go), and how it meets the
 device ids that BuildDevice (common/util.go) makes and the device index.

 The filter's two-level map is `repo`: per (user, mac), the device ids that may pass.
 */
module TokenFilter {
  import opened Text
  import opened History
  import DeviceIndex
  import Snowflake

  datatype Event = Inserted(user: string, did: string) | Deleted(user: string, did: string)

  type Repo = map<(string, string), set<(string, string)>>

  const VIRTUAL := "virtual"

  function Insert(repo: Repo, u: string, d: string): Repo {
    var mac := (u, DeviceMac(d));
    if mac !in repo || DeviceMac(d) != VIRTUAL then repo[mac := {(u, d)}]
    else repo[mac := repo[mac] + {(u, d)}]
  }

  function Delete(repo: Repo, u: string, d: string): Repo {
    var mac := (u, DeviceMac(d));
    if mac in repo then repo[mac := repo[mac] - {(u, d)}] else repo
  }

  function Handle(repo: Repo, ev: Event): Repo {
    match ev
    case Inserted(u, d) => Insert(repo, u, d)
    case Deleted(u, d) => Delete(repo, u, d)
  }

  function Run(events: seq<Event>): Repo
    decreases |events|
  {
    if events == [] then map[] else Handle(Run(events[..|events| - 1]), events[|events| - 1])
  }

  predicate Passes(repo: Repo, u: string, d: string) {
    (u, DeviceMac(d)) in repo && (u, d) in repo[(u, DeviceMac(d))]
  }

  class SimpleFilter {
    var repo: Repo
    var ready: bool

    constructor ()
      ensures repo == map[] && !ready
    {
      repo, ready := map[], false;
    }

    method InsertDevice(u: string, d: string)
      modifies this`repo
      ensures repo == Insert(old(repo), u, d)
    {
      var mac, key := (u, DeviceMac(d)), (u, d);
      if mac in repo {
        var dev := repo[mac] + {key};
        if DeviceMac(d) != VIRTUAL {
          var left := dev;
          while left != {}
            invariant left <= repo[mac] + {key}
            invariant key in dev && forall k :: k in dev && k !in left ==> k == key
            decreases left
          {
            var k :| k in left;
            if k != key {
              dev := dev - {k};
            }
            left := left - {k};
          }
          assert dev == {key};
        }
        repo := repo[mac := dev];
      } else {
        repo := repo[mac := {key}];
      }
    }

    method DeleteDevice(u: string, d: string)
      modifies this`repo
      ensures repo == Delete(old(repo), u, d)
    {
      var mac, key := (u, DeviceMac(d)), (u, d);
      if mac in repo {
        if key in repo[mac] {
          repo := repo[mac := repo[mac] - {key}];
        } else {
          assert repo[mac] - {key} == repo[mac];
          assert repo == repo[mac := repo[mac]];
        }
      }
    }

    /** Before the data is loaded every token passes. */
    method Lookup(u: string, d: string) returns (pass: bool)
      ensures pass <==> !ready || Passes(repo, u, d)
    {
      if !ready {
        return true;
      }
      var mac, key := (u, DeviceMac(d)), (u, d);
      if mac in repo {
        return key in repo[mac];
      }
      return false;
    }
  }

  // ------------------------------------------------------------------
  // The filter against its history
  // ------------------------------------------------------------------

  function EffectOn(ev: Event, u: string, d: string): Effect {
    match ev
    case Inserted(v, e) =>
      if v != u then Neutral
      else if e == d then Adds
      else if DeviceMac(e) == DeviceMac(d) != VIRTUAL then Removes
      else Neutral
    case Deleted(v, e) => if v == u && e == d then Removes else Neutral
  }

  function Log(events: seq<Event>, u: string, d: string): (log: seq<Effect>)
    ensures |log| == |events|
  {
    seq(|events|, i requires 0 <= i < |events| => EffectOn(events[i], u, d))
  }

  /** One event does to a device what its effect says. */
  lemma HandleHasEffect(repo: Repo, ev: Event, u: string, d: string)
    ensures Passes(Handle(repo, ev), u, d) ==
              match EffectOn(ev, u, d)
              case Adds => true
              case Removes => false
              case Neutral => Passes(repo, u, d)
  {
  }

  lemma {:induction false} RunIsReplay(events: seq<Event>, u: string, d: string)
    ensures Passes(Run(events), u, d) <==> Present(Log(events, u, d))
    decreases |events|
  {
    if events != [] {
      var n := |events| - 1;
      RunIsReplay(events[..n], u, d);
      HandleHasEffect(Run(events[..n]), events[n], u, d);
      assert Log(events, u, d)[..n] == Log(events[..n], u, d);
    }
  }

  /**
   Over every run, a loaded filter passes (u, d) exactly when some insert of it is followed
   by no delete of it and, unless its mac is "virtual", by no insert of another device with
   the same mac.
   */
  lemma FilterMatchesHistory(events: seq<Event>, u: string, d: string)
    ensures Passes(Run(events), u, d) <==> AddedAndKept(Log(events, u, d))
  {
    RunIsReplay(events, u, d);
    PresentIff(Log(events, u, d));
  }

  // ------------------------------------------------------------------
  // The filter against the device index
  // ------------------------------------------------------------------

  /** The device event that goes with a token event, the other columns of the record left to the caller. */
  function DeviceEvent(ev: Event, rest: DeviceIndex.DeviceRecord): DeviceIndex.Event {
    match ev
    case Inserted(u, d) => DeviceIndex.DeviceInsert(u, rest.(did := d))
    case Deleted(u, d) => DeviceIndex.DeviceDelete(u, d)
  }

  function DeviceEvents(events: seq<Event>, rest: DeviceIndex.DeviceRecord): (evs: seq<DeviceIndex.Event>)
    ensures |evs| == |events|
  {
    seq(|events|, i requires 0 <= i < |events| => DeviceEvent(events[i], rest))
  }

  lemma {:induction false} ReplayWithFewerRemovals(a: seq<Effect>, b: seq<Effect>)
    requires |a| == |b| && forall i :: 0 <= i < |a| ==> a[i] == b[i] || (a[i] == Removes && b[i] == Neutral)
    ensures Present(a) ==> Present(b)
    decreases |a|
  {
    if a != [] {
      ReplayWithFewerRemovals(a[..|a| - 1], b[..|b| - 1]);
    }
  }

  /** Index and filter read the same event alike, but for the siblings of a virtual device. */
  lemma EffectsCompare(ev: Event, rest: DeviceIndex.DeviceRecord, u: string, d: string)
    ensures var a, b := DeviceIndex.EffectOn(DeviceEvent(ev, rest), u, d), EffectOn(ev, u, d);
            a == b || (a == Removes && b == Neutral && DeviceMac(d) == VIRTUAL)
  {
  }

  lemma ReplaysCompare(events: seq<Event>, rest: DeviceIndex.DeviceRecord, u: string, d: string)
    ensures var a, b := DeviceIndex.Log(DeviceEvents(events, rest), u, d), Log(events, u, d);
            && (Present(a) ==> Present(b))
            && (DeviceMac(d) != VIRTUAL ==> a == b)
  {
    var a, b := DeviceIndex.Log(DeviceEvents(events, rest), u, d), Log(events, u, d);
    forall i | 0 <= i < |events|
      ensures a[i] == b[i] || (a[i] == Removes && b[i] == Neutral && DeviceMac(d) == VIRTUAL)
    {
      EffectsCompare(events[i], rest, u, d);
    }
    ReplayWithFewerRemovals(a, b);
  }

  /**
   Fed the same logins and logouts, the filter passes every device the index holds, and for
   every mac but "virtual" it passes no others. Only virtual siblings, which the filter
   keeps and the index evicts, can differ.
   */
  lemma FilterAgreesWithIndex(events: seq<Event>, rest: DeviceIndex.DeviceRecord, u: string, d: string)
    ensures var held := (u, d) in DeviceIndex.Run(DeviceIndex.EMPTY, DeviceEvents(events, rest)).device;
            && (held ==> Passes(Run(events), u, d))
            && (DeviceMac(d) != VIRTUAL ==> (held <==> Passes(Run(events), u, d)))
  {
    RunIsReplay(events, u, d);
    DeviceIndex.RunIsReplay(DeviceEvents(events, rest), u, d);
    ReplaysCompare(events, rest, u, d);
  }

  // ------------------------------------------------------------------
  // The filter against the ids of BuildDevice
  // ------------------------------------------------------------------

  /** BuildDevice, given the id drawn from the generator: the device id and the device type. */
  function BuildDevice(id: int, did: Option<string>, isHuman: bool, genNewDevice: bool): (string, string) {
    var deviceID :=
      match did
      case None => VIRTUAL + ":" + Format(id)
      case Some(name) => if genNewDevice then name + ":" + Format(id) else name;
    (deviceID, if !isHuman then "bot" else if did.None? then VIRTUAL else "actual")
  }

  lemma BuiltMac(id: int, name: string, isHuman: bool)
    ensures DeviceMac(BuildDevice(id, Some(name), isHuman, true).0) == name
    ensures DeviceMac(BuildDevice(id, None, isHuman, true).0) == VIRTUAL
  {
    FormatHasNoColon(id);
    MacOfTagged(name, Format(id));
    MacOfTagged(VIRTUAL, Format(id));
  }

  /** A name is kept as it is when no new device is asked for. The type tells bots, unnamed devices and the others apart. */
  lemma BuiltDevice(id: int, did: Option<string>, isHuman: bool, genNewDevice: bool)
    ensures var (deviceID, deviceType) := BuildDevice(id, did, isHuman, genNewDevice);
            && (did.Some? && !genNewDevice ==> deviceID == did.value)
            && (did.Some? && genNewDevice ==> DeviceMac(deviceID) == did.value)
            && (did.None? ==> DeviceMac(deviceID) == "virtual")
            && (deviceType == "bot" <==> !isHuman)
            && (deviceType == "virtual" <==> isHuman && did.None?)
            && (deviceType == "actual" <==> isHuman && did.Some?)
  {
    TypesDiffer();
    BuiltMac(id, if did.Some? then did.value else VIRTUAL, isHuman);
  }

  lemma TypesDiffer()
    ensures "bot" != "virtual" && "bot" != "actual" && "virtual" != "actual"
  {
    assert "bot"[0] != "virtual"[0] && "bot"[0] != "actual"[0] && "virtual"[0] != "actual"[0];
  }

  lemma BuiltDistinct(id1: int, id2: int, name: string)
    requires IsInt64(id1) && IsInt64(id2) && id1 != id2
    ensures name + ":" + Format(id1) != name + ":" + Format(id2)
  {
    if name + ":" + Format(id1) == name + ":" + Format(id2) {
      assert Format(id1) == (name + ":" + Format(id1))[|name| + 1..];
      assert Format(id2) == (name + ":" + Format(id2))[|name| + 1..];
      FormatInjective(id1, id2);
    }
  }

  /** What one entry of the log says. */
  lemma NotKept(log: seq<Effect>, k: nat)
    requires k < |log| && log[k] == Removes && forall j :: k < j < |log| ==> log[j] != Adds
    ensures !Present(log)
  {
    PresentIff(log);
    forall i | 0 <= i < |log| && log[i] == Adds
      ensures !KeptFrom(log, i)
    {
      assert i < k;
    }
  }

  /** Every state of every run: an entry holds devices of its own user and mac only, and a non-virtual one at most one. */
  ghost predicate OnePerMac(repo: Repo) {
    forall e :: e in repo ==>
      && (forall x :: x in repo[e] ==> x.0 == e.0 && DeviceMac(x.1) == e.1)
      && (e.1 != VIRTUAL ==> forall x, y :: x in repo[e] && y in repo[e] ==> x == y)
  }

  lemma {:induction false} RunOnePerMac(events: seq<Event>)
    ensures OnePerMac(Run(events))
    decreases |events|
  {
    if events != [] {
      var n := |events| - 1;
      RunOnePerMac(events[..n]);
      HandleOnePerMac(Run(events[..n]), events[n]);
    }
  }

  lemma HandleOnePerMac(repo: Repo, ev: Event)
    requires OnePerMac(repo)
    ensures OnePerMac(Handle(repo, ev))
  {
    var repo' := Handle(repo, ev);
    var mac := (ev.user, DeviceMac(ev.did));
    assert forall e :: e != mac ==> (e in repo' <==> e in repo) && (e in repo ==> repo'[e] == repo[e]);
  }

  /** Of all devices of one non-virtual mac, at most one passes at any time. */
  lemma AtMostOnePasses(events: seq<Event>, u: string, d1: string, d2: string)
    requires DeviceMac(d1) == DeviceMac(d2) != VIRTUAL
    requires Passes(Run(events), u, d1) && Passes(Run(events), u, d2)
    ensures d1 == d2
  {
    RunOnePerMac(events);
    assert (u, d1) == (u, d2);
  }

  /** One instance's id generator, and the milliseconds its calls settle on. */
  datatype Source = Source(gen: Snowflake.Gen, ts: seq<nat>)

  /** A login builds its device with the id of one call of one instance's generator; a logout names the device it ends. */
  datatype Act =
    | Login(user: string, name: Option<string>, source: nat, draw: nat)
    | Logout(user: string, did: string)

  predicate WithinLimits(x: Source) {
    && Snowflake.Fresh(x.gen) && Snowflake.AllInRange(x.ts)
    && Snowflake.NoReturn(x.ts) && Snowflake.WithinCapacity(x.gen, x.ts)
  }

  /** Every generator is within its limits, and no two share a worker id. */
  predicate ValidFleet(fleet: seq<Source>) {
    && (forall x :: 0 <= x < |fleet| ==> WithinLimits(fleet[x]))
    && (forall x, y :: 0 <= x < |fleet| && 0 <= y < |fleet| && x != y ==>
          fleet[x].gen.idEnd < fleet[y].gen.idStart || fleet[y].gen.idEnd < fleet[x].gen.idStart)
  }

  predicate Draws(fleet: seq<Source>, act: Act) {
    act.Login? ==> act.source < |fleet| && act.draw < |fleet[act.source].ts|
  }

  /** No call serves two logins. Between drawing an id and handing in the token anything may happen. */
  predicate DrawsOnce(fleet: seq<Source>, acts: seq<Act>) {
    && (forall i :: 0 <= i < |acts| ==> Draws(fleet, acts[i]))
    && (forall i, j :: 0 <= i < j < |acts| && acts[i].Login? && acts[j].Login? ==>
          acts[i].source != acts[j].source || acts[i].draw != acts[j].draw)
  }

  function DrawnID(fleet: seq<Source>, act: Act): int
    requires ValidFleet(fleet) && act.Login? && Draws(fleet, act)
  {
    Snowflake.IdAt(fleet[act.source].gen, fleet[act.source].ts, act.draw)
  }

  function DeviceOf(fleet: seq<Source>, act: Act): string
    requires ValidFleet(fleet) && act.Login? && Draws(fleet, act)
  {
    BuildDevice(DrawnID(fleet, act), act.name, true, true).0
  }

  function TokenEvents(fleet: seq<Source>, acts: seq<Act>): (events: seq<Event>)
    requires ValidFleet(fleet) && DrawsOnce(fleet, acts)
    ensures |events| == |acts|
  {
    seq(|acts|, i requires 0 <= i < |acts| => TokenEvent(fleet, acts[i]))
  }

  function TokenEvent(fleet: seq<Source>, act: Act): Event
    requires ValidFleet(fleet) && Draws(fleet, act)
  {
    match act
    case Login(u, _, _, _) => Inserted(u, DeviceOf(fleet, act))
    case Logout(u, did) => Deleted(u, did)
  }

  /** A login of the user under the name. */
  predicate Supersedes(act: Act, u: string, name: string) {
    act.Login? && act.user == u && act.name == Some(name)
  }

  lemma DrawnIsInt64(fleet: seq<Source>, act: Act)
    requires ValidFleet(fleet) && act.Login? && Draws(fleet, act)
    ensures IsInt64(DrawnID(fleet, act))
  {
    var x := fleet[act.source];
    var g := Snowflake.After(x.gen, x.ts[..act.draw + 1]);
    Snowflake.Decode(g.lastTs, g.seqNo, g.idCur);
  }

  /** Two calls, of one generator or of two, give different ids. */
  lemma DrawnDiffer(fleet: seq<Source>, a: Act, b: Act)
    requires ValidFleet(fleet) && a.Login? && b.Login? && Draws(fleet, a) && Draws(fleet, b)
    requires a.source != b.source || a.draw != b.draw
    ensures DrawnID(fleet, a) != DrawnID(fleet, b)
  {
    var x, y := fleet[a.source], fleet[b.source];
    if a.source == b.source {
      Snowflake.UniqueIff(x.gen, x.ts);
      assert if a.draw < b.draw then DrawnID(fleet, a) != DrawnID(fleet, b) else DrawnID(fleet, b) != DrawnID(fleet, a);
    } else {
      Snowflake.DisjointWorkersNeverCollide(x.gen, x.ts, a.draw, y.gen, y.ts, b.draw);
    }
  }

  lemma DevicesDiffer(fleet: seq<Source>, a: Act, b: Act)
    requires ValidFleet(fleet) && a.Login? && b.Login? && Draws(fleet, a) && Draws(fleet, b)
    requires a.source != b.source || a.draw != b.draw
    ensures DeviceOf(fleet, a) != DeviceOf(fleet, b)
  {
    var x, y := DrawnID(fleet, a), DrawnID(fleet, b);
    DrawnDiffer(fleet, a, b);
    DrawnIsInt64(fleet, a);
    DrawnIsInt64(fleet, b);
    var name := if a.name.None? then VIRTUAL else a.name.value;
    BuiltMac(x, name, true);
    BuiltMac(y, if b.name.None? then VIRTUAL else b.name.value, true);
    BuiltDistinct(x, y, name);
  }

  /** What another login means for the device of this one. */
  lemma LoginEffect(fleet: seq<Source>, act: Act, other: Act, name: string)
    requires ValidFleet(fleet) && act.Login? && other.Login? && Draws(fleet, act) && Draws(fleet, other)
    requires act.source != other.source || act.draw != other.draw
    requires act.name == Some(name) && name != VIRTUAL
    ensures EffectOn(Inserted(other.user, DeviceOf(fleet, other)), act.user, DeviceOf(fleet, act)) ==
              if Supersedes(other, act.user, name) then Removes else Neutral
  {
    BuiltMac(DrawnID(fleet, act), name, true);
    BuiltMac(DrawnID(fleet, other), if other.name.None? then VIRTUAL else other.name.value, true);
    DevicesDiffer(fleet, other, act);
  }

  /** Read on the log of login i's device, an act adds it, removes it or neither. */
  lemma ActEffect(fleet: seq<Source>, acts: seq<Act>, i: nat, k: nat, name: string)
    requires ValidFleet(fleet) && DrawsOnce(fleet, acts)
    requires i < |acts| && acts[i].Login? && acts[i].name == Some(name) && name != VIRTUAL && k < |acts|
    ensures var u, d := acts[i].user, DeviceOf(fleet, acts[i]);
            EffectOn(TokenEvent(fleet, acts[k]), u, d) ==
              if k == i then Adds
              else if Supersedes(acts[k], u, name) || acts[k] == Logout(u, d) then Removes
              else Neutral
  {
    var u, d := acts[i].user, DeviceOf(fleet, acts[i]);
    if k == i {
      assert EffectOn(Inserted(u, d), u, d) == Adds;
    } else if acts[k].Login? {
      assert acts[i].source != acts[k].source || acts[i].draw != acts[k].draw;
      LoginEffect(fleet, acts[i], acts[k], name);
    } else {
      LogoutEffect(acts[k].user, acts[k].did, u, d);
    }
  }

  lemma LogoutEffect(v: string, did: string, u: string, d: string)
    ensures EffectOn(Deleted(v, did), u, d) == if Logout(v, did) == Logout(u, d) then Removes else Neutral
  {
  }

  /**
   Over every run of logins and logouts, through any number of instances whose generators are within
   their limits: the device of a login under a non-virtual name passes at the end if and only if the
   user has not logged in under that name since, nor logged that device out. So only the newest
   login passes.
   */
  lemma NewestLoginOnly(fleet: seq<Source>, acts: seq<Act>, i: nat, name: string)
    requires ValidFleet(fleet) && DrawsOnce(fleet, acts)
    requires i < |acts| && acts[i].Login? && acts[i].name == Some(name) && name != VIRTUAL
    ensures var u, d := acts[i].user, DeviceOf(fleet, acts[i]);
            Passes(Run(TokenEvents(fleet, acts)), u, d) <==>
              forall k :: i < k < |acts| ==> !Supersedes(acts[k], u, name) && acts[k] != Logout(u, d)
  {
    var u, d := acts[i].user, DeviceOf(fleet, acts[i]);
    var log := Log(TokenEvents(fleet, acts), u, d);
    forall k | 0 <= k < |acts|
      ensures log[k] == if k == i then Adds
                        else if Supersedes(acts[k], u, name) || acts[k] == Logout(u, d) then Removes
                        else Neutral
    {
      ActEffect(fleet, acts, i, k, name);
    }
    FilterMatchesHistory(TokenEvents(fleet, acts), u, d);
    AddedOnce(log, i);
  }

  lemma AddedOnce(log: seq<Effect>, i: nat)
    requires i < |log| && log[i] == Adds && forall k :: 0 <= k < |log| && k != i ==> log[k] != Adds
    ensures AddedAndKept(log) <==> forall k :: i < k < |log| ==> log[k] != Removes
  {
    if AddedAndKept(log) {
      assert KeptFrom(log, i);
    } else {
      assert !KeptFrom(log, i);
    }
  }

  /**
   Without a generator: in every run, a device whose mac is not "virtual" is shut out from the
   moment another device of that mac is inserted until it is inserted again itself.
   */
  lemma {:induction false} ShutOutUntilReinserted(events: seq<Event>, u: string, first: string, k: nat, second: string)
    requires k < |events| && events[k] == Inserted(u, second)
    requires first != second && DeviceMac(first) == DeviceMac(second) != VIRTUAL
    requires forall j :: k < j < |events| ==> events[j] != Inserted(u, first)
    ensures !Passes(Run(events), u, first)
  {
    RunIsReplay(events, u, first);
    NotKept(Log(events, u, first), k);
  }

  /** Virtual devices live side by side: one passes if and only if it was inserted and not deleted since. */
  lemma {:induction false} VirtualDevicesIndependent(events: seq<Event>, u: string, d: string)
    requires DeviceMac(d) == VIRTUAL
    ensures Passes(Run(events), u, d) <==>
              exists i :: 0 <= i < |events| && events[i] == Inserted(u, d) && NotDeletedSince(events, i, u, d)
  {
    var log := Log(events, u, d);
    FilterMatchesHistory(events, u, d);
    forall j | 0 <= j < |events|
      ensures (log[j] == Adds <==> events[j] == Inserted(u, d)) && (log[j] == Removes <==> events[j] == Deleted(u, d))
    {
    }
    SameWitness(events, log, u, d);
  }

  lemma {:induction false} SameWitness(events: seq<Event>, log: seq<Effect>, u: string, d: string)
    requires |log| == |events|
    requires forall j :: 0 <= j < |events| ==>
               (log[j] == Adds <==> events[j] == Inserted(u, d)) && (log[j] == Removes <==> events[j] == Deleted(u, d))
    ensures AddedAndKept(log) <==>
              exists i :: 0 <= i < |events| && events[i] == Inserted(u, d) && NotDeletedSince(events, i, u, d)
  {
    forall i | 0 <= i < |events|
      ensures KeptFrom(log, i) <==> NotDeletedSince(events, i, u, d)
    {
    }
  }

  predicate NotDeletedSince(events: seq<Event>, i: nat, u: string, d: string) {
    forall j :: i < j < |events| ==> events[j] != Deleted(u, d)
  }
}
