/**
 The key hashes of DeviceIndex under writers that interleave command by command. The key server sets
 keys (encryptoapi/routing/keys.go, cache/redis_cache.go) while the cache writer deletes them, each
 through its own connection, and neither in a transaction.

 To set a key is to write its record and then to list it. To delete the keys of a device is to read
 its list and then, for each key found, to delete the record and to unlist it.
 */
module KeyCommands {
  import opened DeviceIndex

  /** Where a call is between two commands. */
  datatype Proc =
    | Listing(key: KeyName)
    | Erasing(todo: set<KeyName>)
    | Unlisting(key: KeyName, todo: set<KeyName>)

  datatype System = System(store: Store, procs: map<nat, Proc>)

  datatype Step =
    | Write(pid: nat, key: KeyName, record: KeyRecord)
    | List(pid: nat)
    | Collect(pid: nat, user: string, device: string, oneTime: bool)
    | Delete(pid: nat, key: KeyName)
    | DeleteOne(pid: nat, key: KeyName)
    | Unlist(pid: nat)
    | Done(pid: nat)

  function Entry(k: KeyName): (string, string, KeyName) {
    (k.user, k.device, k)
  }

  predicate IsListed(s: Store, k: KeyName) {
    Entry(k) in if k.DeviceKey? then s.deviceKeyList else s.oneTimeKeyList
  }

  function Listed(s: Store, k: KeyName): Store {
    if k.DeviceKey? then s.(deviceKeyList := s.deviceKeyList + {Entry(k)})
    else s.(oneTimeKeyList := s.oneTimeKeyList + {Entry(k)})
  }

  function WithoutEntry(s: Store, k: KeyName): Store {
    if k.DeviceKey? then s.(deviceKeyList := s.deviceKeyList - {Entry(k)})
    else s.(oneTimeKeyList := s.oneTimeKeyList - {Entry(k)})
  }

  function Found(s: Store, u: string, d: string, oneTime: bool): set<KeyName> {
    ListedIn(if oneTime then s.oneTimeKeyList else s.deviceKeyList, u, {d})
  }

  predicate Enabled(y: System, step: Step) {
    match step
    case Write(pid, _, _) => pid !in y.procs
    case List(pid) => pid in y.procs && y.procs[pid].Listing?
    case Collect(pid, _, _, _) => pid !in y.procs
    case Delete(pid, k) => pid in y.procs && y.procs[pid].Erasing? && k in y.procs[pid].todo
    case DeleteOne(pid, k) => pid !in y.procs && k.OneTimeKey?
    case Unlist(pid) => pid in y.procs && y.procs[pid].Unlisting?
    case Done(pid) => pid in y.procs && y.procs[pid] == Erasing({})
  }

  function Apply(y: System, step: Step): System
    requires Enabled(y, step)
  {
    match step
    case Write(pid, k, record) => System(y.store.(keys := y.store.keys[k := record]), y.procs[pid := Listing(k)])
    case List(pid) => System(Listed(y.store, y.procs[pid].key), y.procs - {pid})
    case Collect(pid, u, d, oneTime) => y.(procs := y.procs[pid := Erasing(Found(y.store, u, d, oneTime))])
    case Delete(pid, k) =>
      System(y.store.(keys := y.store.keys - {k}), y.procs[pid := Unlisting(k, y.procs[pid].todo - {k})])
    case DeleteOne(pid, k) => System(y.store.(keys := y.store.keys - {k}), y.procs[pid := Unlisting(k, {})])
    case Unlist(pid) => System(WithoutEntry(y.store, y.procs[pid].key), y.procs[pid := Erasing(y.procs[pid].todo)])
    case Done(pid) => y.(procs := y.procs - {pid})
  }

  ghost predicate IsRun(states: seq<System>, steps: seq<Step>) {
    && |states| == |steps| + 1
    && forall i :: 0 <= i < |steps| ==> Enabled(states[i], steps[i]) && states[i + 1] == Apply(states[i], steps[i])
  }

  // ------------------------------------------------------------------
  // What keeps record and list together
  // ------------------------------------------------------------------

  /** Some call has written the record and has yet to list it. */
  ghost predicate Adding(y: System, k: KeyName) {
    exists pid :: pid in y.procs && y.procs[pid] == Listing(k)
  }

  /** Some call has deleted the record and has yet to unlist it. */
  ghost predicate Removing(y: System, k: KeyName) {
    exists pid :: pid in y.procs && y.procs[pid].Unlisting? && y.procs[pid].key == k
  }

  predicate Marks(p: Proc, k: KeyName) {
    !p.Listing? && k in p.todo
  }

  /** Some call has the key on its way to deletion. */
  ghost predicate Marked(y: System, k: KeyName) {
    exists pid :: pid in y.procs && Marks(y.procs[pid], k)
  }

  /** No set and delete of the key cross, and what the calls under way have yet to do will leave record and list together. */
  ghost predicate OrderedKey(y: System, k: KeyName) {
    if Marked(y, k) then !Adding(y, k)
    else if Adding(y, k) then !Removing(y, k) && k in y.store.keys
    else if Removing(y, k) then k !in y.store.keys
    else k in y.store.keys <==> IsListed(y.store, k)
  }

  /** The lists hold keys under their own device only. */
  predicate WellListed(s: Store) {
    && (forall e :: e in s.deviceKeyList ==> e.2.DeviceKey? && e == Entry(e.2))
    && (forall e :: e in s.oneTimeKeyList ==> e.2.OneTimeKey? && e == Entry(e.2))
  }

  ghost predicate Ordered(y: System) {
    WellListed(y.store) && forall k :: OrderedKey(y, k)
  }

  /** A set begins while no delete of the key is under way, and a delete while no set of it is. */
  ghost predicate Clean(y: System, step: Step) {
    match step
    case Write(_, k, _) => !Marked(y, k) && !Removing(y, k)
    case Collect(_, u, d, oneTime) => forall k :: k in Found(y.store, u, d, oneTime) ==> !Adding(y, k)
    case DeleteOne(_, k) => !Adding(y, k)
    case _ => true
  }

  ghost predicate CleanFor(y: System, step: Step, k: KeyName) {
    match step
    case Write(_, key, _) => k == key ==> Clean(y, step)
    case DeleteOne(_, key) => k == key ==> Clean(y, step)
    case Collect(_, u, d, oneTime) => k in Found(y.store, u, d, oneTime) ==> !Adding(y, k)
    case _ => true
  }

  /** What a step that puts p in the place of pid, or starts it there, means for the three. */
  lemma ProcReplaced(y: System, y': System, pid: nat, p: Proc, k: KeyName)
    requires y'.procs == y.procs[pid := p]
    requires pid in y.procs ==> y.procs[pid] != Listing(k)
    ensures Adding(y', k) <==> Adding(y, k) || p == Listing(k)
    ensures pid !in y.procs ==> (Removing(y', k) <==> Removing(y, k) || (p.Unlisting? && p.key == k))
    ensures pid !in y.procs ==> (Marked(y', k) <==> Marked(y, k) || Marks(p, k))
  {
    assert y'.procs[pid] == p;
    if q :| q in y.procs && y.procs[q] == Listing(k) {
      assert y'.procs[q] == Listing(k);
    }
    if pid !in y.procs {
      if q :| q in y.procs && y.procs[q].Unlisting? && y.procs[q].key == k {
        assert y'.procs[q] == y.procs[q];
      }
      if q :| q in y.procs && Marks(y.procs[q], k) {
        assert y'.procs[q] == y.procs[q];
      }
    }
  }

  lemma WriteOrderedIff(y: System, step: Step, k: KeyName)
    requires step.Write? && Enabled(y, step) && OrderedKey(y, k)
    ensures OrderedKey(Apply(y, step), k) <==> CleanFor(y, step, k)
  {
    ProcReplaced(y, Apply(y, step), step.pid, Listing(step.key), k);
  }

  lemma DeleteOneOrderedIff(y: System, step: Step, k: KeyName)
    requires step.DeleteOne? && Enabled(y, step) && OrderedKey(y, k)
    ensures OrderedKey(Apply(y, step), k) <==> CleanFor(y, step, k)
  {
    ProcReplaced(y, Apply(y, step), step.pid, Unlisting(step.key, {}), k);
  }

  lemma CollectOrderedIff(y: System, step: Step, k: KeyName)
    requires step.Collect? && Enabled(y, step) && OrderedKey(y, k)
    ensures OrderedKey(Apply(y, step), k) <==> CleanFor(y, step, k)
  {
    ProcReplaced(y, Apply(y, step), step.pid, Erasing(Found(y.store, step.user, step.device, step.oneTime)), k);
  }

  /** The other processes stay as they are. */
  ghost predicate OnlyMoves(y: System, y': System, pid: nat) {
    forall q :: q != pid ==> (q in y.procs <==> q in y'.procs) && (q in y.procs ==> y'.procs[q] == y.procs[q])
  }

  lemma ListOrdered(y: System, pid: nat, k: KeyName)
    requires Enabled(y, List(pid)) && OrderedKey(y, k)
    ensures OrderedKey(Apply(y, List(pid)), k)
  {
    assert OnlyMoves(y, Apply(y, List(pid)), pid);
    assert y.procs[pid].key == k ==> Adding(y, k);
  }

  lemma DeleteOrdered(y: System, pid: nat, key: KeyName, k: KeyName)
    requires Enabled(y, Delete(pid, key)) && OrderedKey(y, k)
    ensures OrderedKey(Apply(y, Delete(pid, key)), k)
  {
    var y' := Apply(y, Delete(pid, key));
    assert OnlyMoves(y, y', pid);
    assert Marks(y.procs[pid], key);
    assert y'.procs[pid] == Unlisting(key, y.procs[pid].todo - {key});
  }

  lemma UnlistOrdered(y: System, pid: nat, k: KeyName)
    requires Enabled(y, Unlist(pid)) && OrderedKey(y, k)
    ensures OrderedKey(Apply(y, Unlist(pid)), k)
  {
    var y' := Apply(y, Unlist(pid));
    assert OnlyMoves(y, y', pid);
    assert y.procs[pid].key == k ==> Removing(y, k);
    assert y'.procs[pid] == Erasing(y.procs[pid].todo);
  }

  lemma DoneOrdered(y: System, pid: nat, k: KeyName)
    requires Enabled(y, Done(pid)) && OrderedKey(y, k)
    ensures OrderedKey(Apply(y, Done(pid)), k)
  {
    assert OnlyMoves(y, Apply(y, Done(pid)), pid);
  }

  /** A call that goes on keeps the order of every key. */
  lemma GoesOnOrdered(y: System, step: Step, k: KeyName)
    requires Enabled(y, step) && OrderedKey(y, k) && (step.List? || step.Delete? || step.Unlist? || step.Done?)
    ensures OrderedKey(Apply(y, step), k)
  {
    if step.List? {
      ListOrdered(y, step.pid, k);
    } else if step.Delete? {
      DeleteOrdered(y, step.pid, step.key, k);
    } else if step.Unlist? {
      UnlistOrdered(y, step.pid, k);
    } else {
      DoneOrdered(y, step.pid, k);
    }
  }

  /** Order is lost at exactly the steps that are not clean. */
  lemma StepOrderedIff(y: System, step: Step)
    requires Ordered(y) && Enabled(y, step)
    ensures Ordered(Apply(y, step)) <==> Clean(y, step)
  {
    var y' := Apply(y, step);
    forall k
      ensures OrderedKey(y', k) <==> CleanFor(y, step, k)
    {
      assert OrderedKey(y, k);
      if step.Write? {
        WriteOrderedIff(y, step, k);
      } else if step.DeleteOne? {
        DeleteOneOrderedIff(y, step, k);
      } else if step.Collect? {
        CollectOrderedIff(y, step, k);
      } else {
        GoesOnOrdered(y, step, k);
      }
    }
    if Clean(y, step) {
      assert forall k :: CleanFor(y, step, k);
    } else if step.Collect? {
      var k :| k in Found(y.store, step.user, step.device, step.oneTime) && Adding(y, k);
      assert !CleanFor(y, step, k);
    } else {
      assert !CleanFor(y, step, step.key);
    }
  }

  lemma {:induction false} RunOrdered(states: seq<System>, steps: seq<Step>, n: nat)
    requires IsRun(states, steps) && Ordered(states[0]) && n < |states|
    requires forall i :: 0 <= i < n ==> Clean(states[i], steps[i])
    ensures Ordered(states[n])
  {
    if n > 0 {
      RunOrdered(states, steps, n - 1);
      StepOrderedIff(states[n - 1], steps[n - 1]);
    }
  }

  /** In every interleaving, sets and deletes stay in order in all states if and only if all steps are clean. */
  lemma RunOrderedIff(states: seq<System>, steps: seq<Step>)
    requires IsRun(states, steps) && Ordered(states[0])
    ensures (forall m :: 0 <= m < |states| ==> Ordered(states[m])) <==> (forall i :: 0 <= i < |steps| ==> Clean(states[i], steps[i]))
  {
    if forall i :: 0 <= i < |steps| ==> Clean(states[i], steps[i]) {
      forall m | 0 <= m < |states|
        ensures Ordered(states[m])
      {
        RunOrdered(states, steps, m);
      }
    } else {
      var i :| 0 <= i < |steps| && !Clean(states[i], steps[i]);
      if Ordered(states[i]) {
        StepOrderedIff(states[i], steps[i]);
        assert !Ordered(states[i + 1]);
      }
    }
  }

  lemma AgreeIff(s: Store)
    requires WellListed(s)
    ensures KeysAgree(s) <==> forall k :: k in s.keys <==> IsListed(s, k)
  {
    if KeysAgree(s) {
      forall k
        ensures k in s.keys <==> IsListed(s, k)
      {
        assert k in s.keys ==> Entry(k) in s.deviceKeyList + s.oneTimeKeyList;
      }
    }
    if forall k :: k in s.keys <==> IsListed(s, k) {
      forall e | e in s.deviceKeyList + s.oneTimeKeyList
        ensures e.2 in s.keys
      {
        assert IsListed(s, e.2);
      }
      assert s.deviceKeyList == (set k | k in s.keys.Keys && k.DeviceKey? :: (k.user, k.device, k));
      assert s.oneTimeKeyList == (set k | k in s.keys.Keys && k.OneTimeKey? :: (k.user, k.device, k));
    }
  }

  /** At rest, order is agreement: both are what the whole events of DeviceIndex keep. */
  lemma OrderedAtRest(y: System)
    requires WellListed(y.store) && y.procs == map[]
    ensures Ordered(y) <==> KeysAgree(y.store)
  {
    AgreeIff(y.store);
    assert forall k :: OrderedKey(y, k) <==> (k in y.store.keys <==> IsListed(y.store, k));
  }

  // ------------------------------------------------------------------
  // Coming to rest
  // ------------------------------------------------------------------

  predicate GoesOn(step: Step) {
    step.List? || step.Delete? || step.Unlist? || step.Done?
  }

  ghost predicate Leads(y: System, states: seq<System>, steps: seq<Step>, y': System) {
    && IsRun(states, steps) && states[0] == y && states[|steps|] == y'
    && forall i :: 0 <= i < |steps| ==> GoesOn(steps[i])
  }

  /** The calls under way can be brought from y to y', with nothing new begun. */
  ghost predicate Reaches(y: System, y': System) {
    exists states, steps :: Leads(y, states, steps, y')
  }

  lemma ReachesSelf(y: System)
    ensures Reaches(y, y)
  {
    assert Leads(y, [y], [], y);
  }

  lemma ReachesThrough(y: System, step: Step, y': System)
    requires Enabled(y, step) && GoesOn(step) && Reaches(Apply(y, step), y')
    ensures Reaches(y, y')
  {
    var states, steps :| Leads(Apply(y, step), states, steps, y');
    var all, allSteps := Prepended(y, step, states, steps);
    assert Leads(y, all, allSteps, y');
  }

  lemma {:induction false} ReachesOn(y: System, y': System, y'': System, states: seq<System>, steps: seq<Step>)
    requires Leads(y, states, steps, y') && Reaches(y', y'')
    ensures Reaches(y, y'')
    decreases |steps|
  {
    if steps != [] {
      assert Leads(states[1], states[1..], steps[1..], y') by {
        assert forall i :: 0 <= i < |steps| - 1 ==> states[1..][i] == states[i + 1] && steps[1..][i] == steps[i + 1];
      }
      ReachesOn(states[1], y', y'', states[1..], steps[1..]);
      ReachesThrough(y, steps[0], y'');
    }
  }

  lemma ReachesTransitive(y: System, y': System, y'': System)
    requires Reaches(y, y') && Reaches(y', y'')
    ensures Reaches(y, y'')
  {
    var states, steps :| Leads(y, states, steps, y');
    ReachesOn(y, y', y'', states, steps);
  }

  predicate Concerns(p: Proc, k: KeyName) {
    p == Listing(k) || (p.Unlisting? && p.key == k) || Marks(p, k)
  }

  /** One call brought to its end: the record goes if it was marked, and a key it does not concern stays as it is. */
  lemma {:induction false} FinishOne(y: System, pid: nat, k: KeyName) returns (y': System)
    requires pid in y.procs
    ensures Reaches(y, y') && y'.procs == y.procs - {pid}
    ensures k in y'.store.keys <==> k in y.store.keys && !Marks(y.procs[pid], k)
    ensures !Concerns(y.procs[pid], k) ==> (IsListed(y'.store, k) <==> IsListed(y.store, k))
    ensures WellListed(y.store) ==> WellListed(y'.store)
    decreases if y.procs[pid].Listing? then {} else y.procs[pid].todo, y.procs[pid].Unlisting?
  {
    var p := y.procs[pid];
    var step;
    if p.Listing? {
      step := List(pid);
      y' := Apply(y, step);
      ReachesSelf(y');
    } else if p.Unlisting? {
      step := Unlist(pid);
      y' := FinishOne(Apply(y, step), pid, k);
    } else if p.todo == {} {
      step := Done(pid);
      y' := Apply(y, step);
      ReachesSelf(y');
    } else {
      var next :| next in p.todo;
      step := Delete(pid, next);
      y' := FinishOne(Apply(y, step), pid, k);
    }
    ReachesThrough(y, step, y');
    assert y'.procs == y.procs - {pid};
  }

  ghost predicate OtherMarks(y: System, keep: nat, k: KeyName) {
    exists pid :: pid in y.procs && pid != keep && Marks(y.procs[pid], k)
  }

  ghost predicate OtherConcerns(y: System, keep: nat, k: KeyName) {
    exists pid :: pid in y.procs && pid != keep && Concerns(y.procs[pid], k)
  }

  /** All calls but one brought to their end. */
  lemma {:induction false} FinishOthers(y: System, keep: nat, k: KeyName) returns (y': System)
    ensures Reaches(y, y') && y'.procs == map pid | pid in y.procs && pid == keep :: y.procs[pid]
    ensures k in y'.store.keys <==> k in y.store.keys && !OtherMarks(y, keep, k)
    ensures !OtherConcerns(y, keep, k) ==> (IsListed(y'.store, k) <==> IsListed(y.store, k))
    ensures WellListed(y.store) ==> WellListed(y'.store)
    decreases y.procs.Keys - {keep}
  {
    if y.procs.Keys - {keep} == {} {
      y' := y;
      ReachesSelf(y);
      assert forall pid :: pid in y.procs && pid != keep ==> pid in y.procs.Keys - {keep};
    } else {
      var pid :| pid in y.procs.Keys - {keep};
      var one := FinishOne(y, pid, k);
      assert one.procs.Keys == y.procs.Keys - {pid};
      assert one.procs.Keys - {keep} == (y.procs.Keys - {keep}) - {pid};
      y' := FinishOthers(one, keep, k);
      ReachesTransitive(y, one, y');
      OneFewer(y, one, pid, keep, k);
    }
  }

  lemma OneFewer(y: System, one: System, pid: nat, keep: nat, k: KeyName)
    requires pid in y.procs && pid != keep && one.procs == y.procs - {pid}
    ensures OtherMarks(y, keep, k) <==> Marks(y.procs[pid], k) || OtherMarks(one, keep, k)
    ensures OtherConcerns(y, keep, k) <==> Concerns(y.procs[pid], k) || OtherConcerns(one, keep, k)
  {
    if q :| q in y.procs && q != keep && q != pid && Marks(y.procs[q], k) {
      assert q in one.procs && one.procs[q] == y.procs[q];
    }
    if q :| q in y.procs && q != keep && q != pid && Concerns(y.procs[q], k) {
      assert q in one.procs && one.procs[q] == y.procs[q];
    }
  }

  /** However the calls under way go on, once they are through every record is listed and every listed key has a record. */
  ghost predicate Settles(y: System) {
    forall y' :: Reaches(y, y') && y'.procs == map[] ==> KeysAgree(y'.store)
  }

  /** A list command that comes last decides, whatever the record. */
  lemma LastListDecides(y: System, pid: nat, k: KeyName)
    requires WellListed(y.store) && pid in y.procs && y.procs[pid] == Listing(k)
    requires k !in y.store.keys || OtherMarks(y, pid, k)
    ensures !Settles(y)
  {
    var before := FinishOthers(y, pid, k);
    var end := Apply(before, List(pid));
    ReachesSelf(end);
    ReachesThrough(before, List(pid), end);
    ReachesTransitive(y, before, end);
    assert end.procs == map[];
    assert IsListed(end.store, k) && k !in end.store.keys;
    AgreeIff(end.store);
  }

  lemma LastUnlistDecides(y: System, pid: nat, k: KeyName)
    requires WellListed(y.store) && pid in y.procs && y.procs[pid].Unlisting? && y.procs[pid].key == k
    requires k in y.store.keys && !Marked(y, k)
    ensures !Settles(y)
  {
    var before := FinishOthers(y, pid, k);
    assert before.procs == map[pid := y.procs[pid]];
    var after := Apply(before, Unlist(pid));
    assert !Marks(after.procs[pid], k) by { assert !Marks(y.procs[pid], k); }
    var end := FinishOne(after, pid, k);
    ReachesThrough(before, Unlist(pid), end);
    ReachesTransitive(y, before, end);
    assert end.procs == map[];
    assert k in end.store.keys && !IsListed(end.store, k);
    AgreeIff(end.store);
  }

  /** A number above all of these. */
  lemma {:induction false} Above(pids: set<nat>) returns (n: nat)
    ensures forall pid :: pid in pids ==> pid < n
    decreases pids
  {
    if pids == {} {
      n := 0;
    } else {
      var pid :| pid in pids;
      n := Above(pids - {pid});
      assert forall q :: q in pids ==> q == pid || q in pids - {pid};
      n := if n <= pid then pid + 1 else n;
    }
  }

  lemma UntouchedDecides(y: System, k: KeyName)
    requires WellListed(y.store) && !(k in y.store.keys <==> IsListed(y.store, k))
    requires !Marked(y, k) && !Adding(y, k) && !Removing(y, k)
    ensures !Settles(y)
  {
    var keep := Above(y.procs.Keys);
    var end := FinishOthers(y, keep, k);
    assert end.procs == map[];
    AgreeIff(end.store);
  }

  lemma DisorderUnsettles(y: System, k: KeyName)
    requires WellListed(y.store) && !OrderedKey(y, k)
    ensures !Settles(y)
  {
    if Adding(y, k) && (Marked(y, k) || k !in y.store.keys) {
      var pid :| pid in y.procs && y.procs[pid] == Listing(k);
      LastListDecides(y, pid, k);
    } else if Removing(y, k) {
      var pid :| pid in y.procs && y.procs[pid].Unlisting? && y.procs[pid].key == k;
      LastUnlistDecides(y, pid, k);
    } else {
      UntouchedDecides(y, k);
    }
  }

  /** The calls under way, however they go on, leave records and lists in agreement if and only if they are in order. */
  lemma SettlesIff(y: System)
    requires WellListed(y.store)
    ensures Settles(y) <==> Ordered(y)
  {
    if Ordered(y) {
      forall y' | Reaches(y, y') && y'.procs == map[]
        ensures KeysAgree(y'.store)
      {
        var states, steps :| Leads(y, states, steps, y');
        RunOrdered(states, steps, |steps|);
        OrderedAtRest(y');
      }
    } else {
      var k :| !OrderedKey(y, k);
      DisorderUnsettles(y, k);
    }
  }

  // ------------------------------------------------------------------
  // Undisturbed calls, and a crossing
  // ------------------------------------------------------------------

  /** The two commands of a set, with nothing between, are the whole set. */
  lemma SetAlone(y: System, pid: nat, k: KeyName, record: KeyRecord)
    requires pid !in y.procs
    ensures Apply(Apply(y, Write(pid, k, record)), List(pid)) == y.(store := Handle(y.store, KeyInsert(k, record)))
  {
    assert y.procs[pid := Listing(k)] - {pid} == y.procs;
  }

  /** The store without the records and the list entries of these keys. */
  function Erased(s: Store, todo: set<KeyName>): Store {
    s.(keys := s.keys - todo,
       deviceKeyList := s.deviceKeyList - (set k | k in todo && k.DeviceKey? :: Entry(k)),
       oneTimeKeyList := s.oneTimeKeyList - (set k | k in todo && k.OneTimeKey? :: Entry(k)))
  }

  lemma ErasedOneMore(s: Store, k: KeyName, rest: set<KeyName>)
    requires k !in rest
    ensures Erased(WithoutEntry(s.(keys := s.keys - {k}), k), rest) == Erased(s, rest + {k})
  {
    var one, all := Erased(WithoutEntry(s.(keys := s.keys - {k}), k), rest), Erased(s, rest + {k});
    assert one.keys == all.keys;
    assert one.deviceKeyList == all.deviceKeyList && one.oneTimeKeyList == all.oneTimeKeyList;
  }

  lemma {:induction false} EraseAlone(y: System, pid: nat)
    requires pid in y.procs && y.procs[pid].Erasing?
    ensures Reaches(y, System(Erased(y.store, y.procs[pid].todo), y.procs - {pid}))
    decreases y.procs[pid].todo
  {
    var todo := y.procs[pid].todo;
    var end := System(Erased(y.store, todo), y.procs - {pid});
    if todo == {} {
      assert Apply(y, Done(pid)) == end;
      ReachesSelf(end);
      ReachesThrough(y, Done(pid), end);
    } else {
      var k :| k in todo;
      var y1 := Apply(y, Delete(pid, k));
      var y2 := Apply(y1, Unlist(pid));
      EraseAlone(y2, pid);
      ErasedOneMore(y.store, k, todo - {k});
      assert (todo - {k}) + {k} == todo;
      assert y2.procs - {pid} == y.procs - {pid};
      ReachesThrough(y1, Unlist(pid), end);
      ReachesThrough(y, Delete(pid, k), end);
    }
  }

  /** A drop of a device's keys that nothing comes between does what the whole drop does. */
  lemma DropAlone(y: System, pid: nat, u: string, d: string, oneTime: bool)
    requires WellListed(y.store) && pid !in y.procs
    ensures Reaches(Apply(y, Collect(pid, u, d, oneTime)),
                    y.(store := if oneTime then WithoutOneTimeKeys(y.store, u, {d}) else WithoutDeviceKeys(y.store, u, {d})))
  {
    var y1 := Apply(y, Collect(pid, u, d, oneTime));
    EraseAlone(y1, pid);
    assert y1.procs - {pid} == y.procs;
    var end := if oneTime then WithoutOneTimeKeys(y.store, u, {d}) else WithoutDeviceKeys(y.store, u, {d});
    var erased := Erased(y.store, Found(y.store, u, d, oneTime));
    assert erased.keys == end.keys;
    assert erased.deviceKeyList == end.deviceKeyList && erased.oneTimeKeyList == end.oneTimeKeyList;
  }

  /** And so does the delete of a single one-time key. */
  lemma DeleteOneAlone(y: System, pid: nat, u: string, d: string, keyID: string, al: string)
    requires pid !in y.procs
    ensures Apply(Apply(Apply(y, DeleteOne(pid, OneTimeKey(u, d, keyID, al))), Unlist(pid)), Done(pid))
         == y.(store := Handle(y.store, OneTimeKeyDelete(u, d, keyID, al)))
  {
    var k := OneTimeKey(u, d, keyID, al);
    assert y.procs[pid := Unlisting(k, {})][pid := Erasing({})] - {pid} == y.procs;
  }

  /** The stations of the run below. */
  lemma CrossingStations(k: KeyName, record: KeyRecord)
    ensures var bare := EMPTY.(keys := map[k := record]);
            var collected := System(Listed(bare, k), map[0 := Erasing({k})]);
            var erased := System(Listed(EMPTY, k), map[0 := Unlisting(k, {})]);
            var rewritten := System(Listed(bare, k), map[0 := Unlisting(k, {})]);
            && Apply(System(Listed(bare, k), map[]), Collect(0, k.user, k.device, k.OneTimeKey?)) == collected
            && Apply(collected, Delete(0, k)) == erased
            && Apply(Apply(erased, Write(1, k, record)), List(1)) == rewritten
            && Apply(rewritten, Unlist(0)) == System(bare, map[0 := Erasing({})])
  {
    var bare := EMPTY.(keys := map[k := record]);
    assert Found(Listed(bare, k), k.user, k.device, k.OneTimeKey?) == {k};
    assert {k} - {k} == {} && bare.keys - {k} == map[];
    assert WithoutEntry(Listed(bare, k), k) == bare;
    assert map[0 := Unlisting(k, {}), 1 := Listing(k)] - {1} == map[0 := Unlisting(k, {})];
  }

  /** From the empty store: a key is set, its device's keys are collected for deletion, and the key is set again meanwhile. */
  lemma CrossingOrphansKey(k: KeyName, record: KeyRecord) returns (states: seq<System>, steps: seq<Step>)
    ensures IsRun(states, steps) && states[0] == System(EMPTY, map[])
    ensures var end := states[|steps|];
            end.procs == map[] && k in end.store.keys && !IsListed(end.store, k) && !KeysAgree(end.store)
  {
    var bare, collect := EMPTY.(keys := map[k := record]), Collect(0, k.user, k.device, k.OneTimeKey?);
    CrossingStations(k, record);
    var y0, y8 := System(EMPTY, map[]), System(bare, map[]);
    var y1 := Apply(y0, Write(0, k, record));
    var y2 := Apply(y1, List(0));
    assert y2 == System(Listed(bare, k), map[]);
    var y3 := Apply(y2, collect);
    var y4 := Apply(y3, Delete(0, k));
    var y5 := Apply(y4, Write(1, k, record));
    var y6 := Apply(y5, List(1));
    var y7 := Apply(y6, Unlist(0));
    states, steps := Prepended(y7, Done(0), [y8], []);
    states, steps := Prepended(y6, Unlist(0), states, steps);
    states, steps := Prepended(y5, List(1), states, steps);
    states, steps := Prepended(y4, Write(1, k, record), states, steps);
    states, steps := Prepended(y3, Delete(0, k), states, steps);
    states, steps := Prepended(y2, collect, states, steps);
    states, steps := Prepended(y1, List(0), states, steps);
    states, steps := Prepended(y0, Write(0, k, record), states, steps);
    AgreeIff(bare);
  }

  lemma Prepended(y: System, step: Step, states: seq<System>, steps: seq<Step>) returns (all: seq<System>, allSteps: seq<Step>)
    requires Enabled(y, step) && IsRun(states, steps) && states[0] == Apply(y, step)
    ensures IsRun(all, allSteps) && all[0] == y && all[|allSteps|] == states[|steps|]
    ensures all == [y] + states && allSteps == [step] + steps
  {
    all, allSteps := [y] + states, [step] + steps;
    forall i | 0 <= i < |allSteps|
      ensures Enabled(all[i], allSteps[i]) && all[i + 1] == Apply(all[i], allSteps[i])
    {
      if i > 0 {
        assert all[i] == states[i - 1] && allSteps[i] == steps[i - 1];
      }
    }
  }
}
