/**
 The cache-aside profile store (common/complexCache.go) over the account_profiles table and the
 Redis profile hashes (cache/redis_cache.go).

 A NULL column reads as the empty string. A hash is its three optional fields, and one without
 fields is no hash.
 */
module ProfileCache {
  import opened Text

  datatype Row = Row(name: string, avatar: string)

  datatype Entry = Entry(userID: Option<string>, name: Option<string>, avatar: Option<string>)

  const MISSING := Entry(None, None, None)

  datatype Store = Store(db: map<string, Row>, cache: map<string, Entry>, defaultAvatar: string)

  function Cached(s: Store, u: string): Entry {
    if u in s.cache then s.cache[u] else MISSING
  }

  /** What the database says of a user, with the stand-in for users it has no row of. */
  function Truth(s: Store, u: string): Row {
    if u in s.db then s.db[u] else Row("", s.defaultAvatar)
  }

  function Column(s: Store, u: string): Row {
    if u in s.db then s.db[u] else Row("", "")
  }

  predicate HasUser(e: Entry) {
    e.userID.Some? && e.userID.value != ""
  }

  datatype Field = Both | NameOnly | AvatarOnly

  /** The cache's own three getters answer only when every field they want is there, and a user id with it. */
  predicate Hit(e: Entry, want: Field) {
    && HasUser(e)
    && (want == AvatarOnly || e.name.Some?)
    && (want == NameOnly || e.avatar.Some?)
  }

  function Or(o: Option<string>, default: string): string {
    match o
    case None => default
    case Some(v) => v
  }

  // ------------------------------------------------------------------
  // Operations on values
  // ------------------------------------------------------------------

  function Upserted(s: Store, u: string, row: Row): Store {
    s.(db := s.db[u := row])
  }

  /** DEL of the hash, or HDEL of one field; the hash goes with its last field. */
  function Left(e: Entry, drop: Field): Entry {
    match drop
    case Both => MISSING
    case NameOnly => e.(name := None)
    case AvatarOnly => e.(avatar := None)
  }

  function Dropped(s: Store, u: string, drop: Field): Store {
    var left := Left(Cached(s, u), drop);
    s.(cache := if left == MISSING then s.cache - {u} else s.cache[u := left])
  }

  function SetProfile(s: Store, u: string, name: string, avatar: string): Store {
    Dropped(Upserted(s, u, Row(name, avatar)), u, Both)
  }

  function SetAvatarURL(s: Store, u: string, avatar: string): Store {
    Dropped(Upserted(s, u, Column(s, u).(avatar := avatar)), u, AvatarOnly)
  }

  function SetDisplayName(s: Store, u: string, name: string): Store {
    Dropped(Upserted(s, u, Column(s, u).(name := name)), u, NameOnly)
  }

  function Filled(s: Store, u: string, row: Row): Store {
    s.(cache := s.cache[u := Entry(Some(u), Some(row.name), Some(row.avatar))])
  }

  function Expired(s: Store, u: string): Store {
    s.(cache := s.cache - {u})
  }

  class ComplexCache {
    var db: map<string, Row>
    var cache: map<string, Entry>
    var defaultAvatar: string

    function Abs(): Store
      reads this
    {
      Store(db, cache, defaultAvatar)
    }

    constructor (db: map<string, Row>)
      ensures Abs() == Store(db, map[], "")
    {
      this.db, cache, defaultAvatar := db, map[], "";
    }

    method HDel(u: string, drop: Field)
      modifies this`cache
      ensures Abs() == Dropped(old(Abs()), u, drop)
    {
      if u in cache {
        var e := cache[u];
        if drop != AvatarOnly {
          e := e.(name := None);
        }
        if drop != NameOnly {
          e := e.(avatar := None);
        }
        cache := if drop == Both || e == MISSING then cache - {u} else cache[u := e];
      }
    }

    method StoreProfile(u: string, name: string, avatar: string)
      modifies this`db, this`cache
      ensures Abs() == SetProfile(old(Abs()), u, name, avatar)
    {
      db := db[u := Row(name, avatar)];
      cache := cache - {u};
    }

    method StoreAvatarURL(u: string, avatar: string)
      modifies this`db, this`cache
      ensures Abs() == SetAvatarURL(old(Abs()), u, avatar)
    {
      db := db[u := if u in db then db[u].(avatar := avatar) else Row("", avatar)];
      HDel(u, AvatarOnly);
    }

    method StoreDisplayName(u: string, name: string)
      modifies this`db, this`cache
      ensures Abs() == SetDisplayName(old(Abs()), u, name)
    {
      db := db[u := if u in db then db[u].(name := name) else Row(name, "")];
      HDel(u, NameOnly);
    }

    /** The miss path the three getters share: read the row, or make one up, and cache it whole. */
    method Load(u: string) returns (row: Row, err: bool)
      modifies this`cache
      ensures row == Truth(old(Abs()), u) && (err <==> u !in db)
      ensures Abs() == Filled(old(Abs()), u, row)
    {
      err := u !in db;
      row := if err then Row("", defaultAvatar) else db[u];
      cache := cache[u := Entry(Some(u), Some(row.name), Some(row.avatar))];
    }

    method GetProfileByUserID(u: string) returns (name: string, avatar: string, err: bool)
      modifies this`cache
      ensures Coherent(old(Abs())) ==> Row(name, avatar) == Truth(old(Abs()), u) && Coherent(Abs())
      ensures db == old(db) && (err <==> u !in db && !Hit(Cached(old(Abs()), u), Both))
      ensures Abs() == if Hit(Cached(old(Abs()), u), Both) then old(Abs()) else Filled(old(Abs()), u, Truth(old(Abs()), u))
    {
      if u in cache && Hit(cache[u], Both) {
        return Or(cache[u].name, ""), Or(cache[u].avatar, ""), false;
      }
      FillCoherentIff(Abs(), u, Truth(Abs(), u));
      var row;
      row, err := Load(u);
      return row.name, row.avatar, err;
    }

    method GetAvatarURL(u: string) returns (avatar: string, err: bool)
      modifies this`cache
      ensures Coherent(old(Abs())) ==> avatar == Truth(old(Abs()), u).avatar && Coherent(Abs())
      ensures db == old(db) && (err <==> u !in db && !Hit(Cached(old(Abs()), u), AvatarOnly))
      ensures Abs() == if Hit(Cached(old(Abs()), u), AvatarOnly) then old(Abs()) else Filled(old(Abs()), u, Truth(old(Abs()), u))
    {
      if u in cache && Hit(cache[u], AvatarOnly) {
        return Or(cache[u].avatar, ""), false;
      }
      FillCoherentIff(Abs(), u, Truth(Abs(), u));
      var row;
      row, err := Load(u);
      return row.avatar, err;
    }

    method GetDisplayName(u: string) returns (name: string, err: bool)
      modifies this`cache
      ensures Coherent(old(Abs())) ==> name == Truth(old(Abs()), u).name && Coherent(Abs())
      ensures db == old(db) && (err <==> u !in db && !Hit(Cached(old(Abs()), u), NameOnly))
      ensures Abs() == if Hit(Cached(old(Abs()), u), NameOnly) then old(Abs()) else Filled(old(Abs()), u, Truth(old(Abs()), u))
    {
      if u in cache && Hit(cache[u], NameOnly) {
        return Or(cache[u].name, ""), false;
      }
      FillCoherentIff(Abs(), u, Truth(Abs(), u));
      var row;
      row, err := Load(u);
      return row.name, err;
    }
  }

  // ------------------------------------------------------------------
  // Coherence
  // ------------------------------------------------------------------

  predicate FieldsAgree(e: Entry, row: Row) {
    (e.name.Some? ==> e.name.value == row.name) && (e.avatar.Some? ==> e.avatar.value == row.avatar)
  }

  /** Whatever is cached of anyone is what the database says. */
  ghost predicate Coherent(s: Store) {
    forall u :: FieldsAgree(Cached(s, u), Truth(s, u))
  }

  /** Only the touched user can fall out of line. */
  lemma OthersUnaffected(s: Store, s': Store, u: string)
    requires Coherent(s) && s'.defaultAvatar == s.defaultAvatar
    requires forall v :: v != u ==> Cached(s', v) == Cached(s, v) && Truth(s', v) == Truth(s, v)
    ensures Coherent(s') <==> FieldsAgree(Cached(s', u), Truth(s', u))
  {
    forall v | v != u
      ensures FieldsAgree(Cached(s', v), Truth(s', v))
    {
      assert FieldsAgree(Cached(s, v), Truth(s, v));
    }
  }

  /** A fill keeps coherence exactly when the row it writes is still the current one. */
  lemma FillCoherentIff(s: Store, u: string, row: Row)
    ensures Coherent(s) ==> (Coherent(Filled(s, u, row)) <==> row == Truth(s, u))
  {
    if Coherent(s) {
      OthersUnaffected(s, Filled(s, u, row), u);
    }
  }

  lemma SetProfileCoherent(s: Store, u: string, name: string, avatar: string)
    requires Coherent(s)
    ensures Coherent(SetProfile(s, u, name, avatar))
  {
    OthersUnaffected(s, SetProfile(s, u, name, avatar), u);
  }

  lemma SetAvatarCoherent(s: Store, u: string, avatar: string)
    requires Coherent(s)
    ensures Coherent(SetAvatarURL(s, u, avatar))
  {
    assert FieldsAgree(Cached(s, u), Truth(s, u));
    OthersUnaffected(s, SetAvatarURL(s, u, avatar), u);
  }

  /**
   Setting a display name is the exception: it drops the cached name only, so for a user without a
   row a default avatar cached earlier outlives the row that this creates without an avatar.
   */
  lemma SetNameCoherentIff(s: Store, u: string, name: string)
    requires Coherent(s)
    ensures Coherent(SetDisplayName(s, u, name)) <==>
              u in s.db || s.defaultAvatar == "" || Cached(s, u).avatar.None?
  {
    assert FieldsAgree(Cached(s, u), Truth(s, u));
    OthersUnaffected(s, SetDisplayName(s, u, name), u);
  }

  /** Read your writes: each set leaves the user with exactly what was given, and every other user alone. */
  lemma SetsWrite(s: Store, u: string, name: string, avatar: string)
    ensures var known := u in s.db;
            && Truth(SetProfile(s, u, name, avatar), u) == Row(name, avatar)
            && Truth(SetAvatarURL(s, u, avatar), u) == Row(if known then s.db[u].name else "", avatar)
            && Truth(SetDisplayName(s, u, name), u) == Row(name, if known then s.db[u].avatar else "")
    ensures forall v :: v != u ==>
              && Truth(SetProfile(s, u, name, avatar), v) == Truth(s, v)
              && Truth(SetAvatarURL(s, u, avatar), v) == Truth(s, v)
              && Truth(SetDisplayName(s, u, name), v) == Truth(s, v)
  {
  }

  /** A set drops from the cache what it set and nothing else, an expiry the whole hash, and neither touches other users. */
  lemma SetsDrop(s: Store, u: string, name: string, avatar: string)
    ensures Cached(SetProfile(s, u, name, avatar), u) == MISSING == Cached(Expired(s, u), u)
    ensures Cached(SetAvatarURL(s, u, avatar), u) == Entry(Cached(s, u).userID, Cached(s, u).name, None)
    ensures Cached(SetDisplayName(s, u, name), u) == Entry(Cached(s, u).userID, None, Cached(s, u).avatar)
    ensures Expired(s, u).db == s.db
    ensures forall v :: v != u ==>
              && Cached(SetProfile(s, u, name, avatar), v) == Cached(SetAvatarURL(s, u, avatar), v) == Cached(s, v)
              && Cached(SetDisplayName(s, u, name), v) == Cached(Expired(s, u), v) == Cached(s, v)
  {
  }

  // ------------------------------------------------------------------
  // Interleaved getters and setters
  // ------------------------------------------------------------------

  datatype Col = Name | Avatar

  function Held(e: Entry, col: Col): Option<string> {
    if col == Name then e.name else e.avatar
  }

  function Told(row: Row, col: Col): string {
    if col == Name then row.name else row.avatar
  }

  predicate Covers(f: Field, col: Col) {
    f == Both || f == if col == Name then NameOnly else AvatarOnly
  }

  /**
   Where a call is between two commands: a setter that has written the row and not yet dropped what is
   cached, a getter that has found its fields to exist, with what it has yet to ask for, and a getter
   that has read the row and not yet cached it.
   */
  datatype Proc =
    | Dropping(u: string, drop: Field)
    | Checked(u: string, want: Field, missing: set<Col>)
    | Loading(u: string, row: Row)

  datatype System = System(store: Store, procs: map<nat, Proc>)

  datatype Step =
    | PutProfile(pid: nat, u: string, name: string, avatar: string)
    | PutAvatar(pid: nat, u: string, avatar: string)
    | PutName(pid: nat, u: string, name: string)
    | Drop(pid: nat)
    | Expire(u: string)
    | Start(pid: nat, u: string, want: Field)
    | Exists(pid: nat, col: Col)
    | Fetch(pid: nat)
    | Read(pid: nat, u: string)
    | Fill(pid: nat)

  predicate Enabled(y: System, step: Step) {
    match step
    case PutProfile(pid, _, _, _) => pid !in y.procs
    case PutAvatar(pid, _, _) => pid !in y.procs
    case PutName(pid, _, _) => pid !in y.procs
    case Drop(pid) => pid in y.procs && y.procs[pid].Dropping?
    case Expire(_) => true
    case Start(pid, _, _) => pid !in y.procs
    case Exists(pid, col) => pid in y.procs && y.procs[pid].Checked? && col in y.procs[pid].missing
    case Fetch(pid) => pid in y.procs && y.procs[pid].Checked? && y.procs[pid].missing == {}
    case Read(pid, _) => pid !in y.procs
    case Fill(pid) => pid in y.procs && y.procs[pid].Loading?
  }

  function Written(y: System, pid: nat, u: string, row: Row, drop: Field): System {
    System(Upserted(y.store, u, row), y.procs[pid := Dropping(u, drop)])
  }

  /** An HEXISTS that fails ends the lookup: what follows is a Read. So does an hmget that finds no user id. */
  function Apply(y: System, step: Step): System
    requires Enabled(y, step)
  {
    match step
    case PutProfile(pid, u, name, avatar) => Written(y, pid, u, Row(name, avatar), Both)
    case PutAvatar(pid, u, avatar) => Written(y, pid, u, Column(y.store, u).(avatar := avatar), AvatarOnly)
    case PutName(pid, u, name) => Written(y, pid, u, Column(y.store, u).(name := name), NameOnly)
    case Drop(pid) => System(Dropped(y.store, y.procs[pid].u, y.procs[pid].drop), y.procs - {pid})
    case Expire(u) => y.(store := Expired(y.store, u))
    case Start(pid, u, want) =>
      y.(procs := y.procs[pid := Checked(u, want, set col | col in {Name, Avatar} && Covers(want, col))])
    case Exists(pid, col) =>
      var p := y.procs[pid];
      if Held(Cached(y.store, p.u), col).Some? then y.(procs := y.procs[pid := p.(missing := p.missing - {col})])
      else y.(procs := y.procs - {pid})
    case Fetch(pid) => y.(procs := y.procs - {pid})
    case Read(pid, u) => y.(procs := y.procs[pid := Loading(u, Truth(y.store, u))])
    case Fill(pid) => System(Filled(y.store, y.procs[pid].u, y.procs[pid].row), y.procs - {pid})
  }

  /** What the getter that fetches is given of a column, if it is a hit: a field that has gone reads as empty. */
  function Answer(y: System, pid: nat, col: Col): Option<string>
    requires Enabled(y, Fetch(pid))
  {
    var e := Cached(y.store, y.procs[pid].u);
    if HasUser(e) then Some(Or(Held(e, col), "")) else None
  }

  ghost predicate IsRun(states: seq<System>, steps: seq<Step>) {
    && |states| == |steps| + 1
    && forall i :: 0 <= i < |steps| ==> Enabled(states[i], steps[i]) && states[i + 1] == Apply(states[i], steps[i])
  }

  // ------------------------------------------------------------------
  // What every clean step keeps
  // ------------------------------------------------------------------

  /** Some setter has yet to drop the cached column. */
  ghost predicate Pending(y: System, u: string, col: Col) {
    exists pid :: pid in y.procs && y.procs[pid].Dropping? && y.procs[pid].u == u && Covers(y.procs[pid].drop, col)
  }

  ghost predicate BeingLoaded(y: System, u: string) {
    exists pid :: pid in y.procs && y.procs[pid].Loading? && y.procs[pid].u == u
  }

  predicate Agrees(s: Store, u: string, col: Col) {
    Held(Cached(s, u), col).Some? ==> Held(Cached(s, u), col).value == Told(Truth(s, u), col)
  }

  /** What is cached is what the database says, or is about to be dropped. */
  ghost predicate Accounted(y: System) {
    forall u, col :: Agrees(y.store, u, col) || Pending(y, u, col)
  }

  /** What every getter is about to cache is what the database says. */
  predicate ReadsCurrent(y: System) {
    forall pid :: pid in y.procs && y.procs[pid].Loading? ==> y.procs[pid].row == Truth(y.store, y.procs[pid].u)
  }

  ghost predicate Sound(y: System) {
    Accounted(y) && ReadsCurrent(y)
  }

  predicate IsPut(step: Step) {
    step.PutProfile? || step.PutAvatar? || step.PutName?
  }

  /** The set leaves the database saying of the user what it said before. */
  predicate Harmless(s: Store, step: Step) {
    match step
    case PutProfile(_, u, name, avatar) => Row(name, avatar) == Truth(s, u)
    case PutAvatar(_, u, avatar) => avatar == Truth(s, u).avatar
    case PutName(_, u, name) => name == Truth(s, u).name && (u in s.db || s.defaultAvatar == "")
    case _ => true
  }

  /** The default avatar that is cached for a user without a row outlives the row this creates, unless it is about to be dropped. */
  ghost predicate Outlives(y: System, step: Step) {
    && step.PutName? && step.u !in y.store.db && y.store.defaultAvatar != ""
    && Cached(y.store, step.u).avatar.Some? && !Pending(y, step.u, Avatar)
  }

  /** No set that changes a user while a getter is between reading and caching that user, and not the exception above. */
  ghost predicate Clean(y: System, step: Step) {
    && (IsPut(step) && BeingLoaded(y, step.u) ==> Harmless(y.store, step))
    && !Outlives(y, step)
  }

  lemma HarmlessIff(y: System, step: Step)
    requires IsPut(step) && Enabled(y, step)
    ensures Truth(Apply(y, step).store, step.u) == Truth(y.store, step.u) <==> Harmless(y.store, step)
    ensures forall v :: v != step.u ==> Truth(Apply(y, step).store, v) == Truth(y.store, v)
  {
  }

  /** A set changes no column that it does not go on to drop, but for the avatar of a user who had no row. */
  lemma PutAccountedIff(y: System, step: Step)
    requires Accounted(y) && IsPut(step) && Enabled(y, step)
    ensures Accounted(Apply(y, step)) <==> !Outlives(y, step)
  {
    var y' := Apply(y, step);
    var u := step.u;
    PutPending(y, step);
    forall v, col | !Outlives(y, step)
      ensures Agrees(y'.store, v, col) || Pending(y', v, col)
    {
      assert Agrees(y.store, v, col) || Pending(y, v, col);
    }
    if Outlives(y, step) {
      assert Agrees(y.store, u, Avatar);
      assert !Agrees(y'.store, u, Avatar) && !Pending(y', u, Avatar);
    }
  }

  function Scope(step: Step): Field
    requires IsPut(step)
  {
    if step.PutProfile? then Both else if step.PutAvatar? then AvatarOnly else NameOnly
  }

  lemma PutPending(y: System, step: Step)
    requires IsPut(step) && Enabled(y, step)
    ensures forall v, col :: Pending(Apply(y, step), v, col) <==> Pending(y, v, col) || (v == step.u && Covers(Scope(step), col))
  {
    var y' := Apply(y, step);
    assert y'.procs[step.pid] == Dropping(step.u, Scope(step));
    forall v, col | Pending(y, v, col)
      ensures Pending(y', v, col)
    {
      var pid :| pid in y.procs && y.procs[pid].Dropping? && y.procs[pid].u == v && Covers(y.procs[pid].drop, col);
      assert y'.procs[pid] == y.procs[pid];
    }
  }

  lemma PutReadsCurrentIff(y: System, step: Step)
    requires ReadsCurrent(y) && IsPut(step) && Enabled(y, step)
    ensures ReadsCurrent(Apply(y, step)) <==> (BeingLoaded(y, step.u) ==> Harmless(y.store, step))
  {
    var y' := Apply(y, step);
    HarmlessIff(y, step);
    if BeingLoaded(y, step.u) {
      var pid :| pid in y.procs && y.procs[pid].Loading? && y.procs[pid].u == step.u;
      assert y'.procs[pid] == y.procs[pid];
    }
  }

  /** The other steps take no pending drop away, but for the drop itself. */
  lemma OtherPending(y: System, step: Step, v: string, col: Col)
    requires !IsPut(step) && Enabled(y, step) && Pending(y, v, col)
    ensures Pending(Apply(y, step), v, col) || (step.Drop? && y.procs[step.pid].u == v && Covers(y.procs[step.pid].drop, col))
  {
    var pid :| pid in y.procs && y.procs[pid].Dropping? && y.procs[pid].u == v && Covers(y.procs[pid].drop, col);
    if !(step.Drop? && step.pid == pid) {
      assert pid in Apply(y, step).procs && Apply(y, step).procs[pid] == y.procs[pid];
    }
  }

  lemma OtherAccounted(y: System, step: Step)
    requires Sound(y) && !IsPut(step) && Enabled(y, step)
    ensures Accounted(Apply(y, step))
  {
    forall v, col
      ensures Agrees(Apply(y, step).store, v, col) || Pending(Apply(y, step), v, col)
    {
      if Pending(y, v, col) {
        OtherPending(y, step, v, col);
      } else {
        assert Agrees(y.store, v, col);
      }
    }
  }

  /** Soundness is lost at exactly the steps that are not clean. */
  lemma StepSoundIff(y: System, step: Step)
    requires Sound(y) && Enabled(y, step)
    ensures Sound(Apply(y, step)) <==> Clean(y, step)
  {
    if IsPut(step) {
      PutAccountedIff(y, step);
      PutReadsCurrentIff(y, step);
    } else {
      OtherAccounted(y, step);
    }
  }

  lemma {:induction false} RunSound(states: seq<System>, steps: seq<Step>, n: nat)
    requires IsRun(states, steps) && Sound(states[0]) && n < |states|
    requires forall i :: 0 <= i < n ==> Clean(states[i], steps[i])
    ensures Sound(states[n])
  {
    if n > 0 {
      RunSound(states, steps, n - 1);
      StepSoundIff(states[n - 1], steps[n - 1]);
    }
  }

  /**
   In every interleaving of the commands: whatever is cached agrees with the database or is about to
   be dropped, and every read in flight is current, in all states, if and only if all steps are clean.
   */
  lemma RunSoundIff(states: seq<System>, steps: seq<Step>)
    requires IsRun(states, steps) && Sound(states[0])
    ensures (forall m :: 0 <= m < |states| ==> Sound(states[m])) <==> (forall i :: 0 <= i < |steps| ==> Clean(states[i], steps[i]))
  {
    if forall i :: 0 <= i < |steps| ==> Clean(states[i], steps[i]) {
      forall m | 0 <= m < |states|
        ensures Sound(states[m])
      {
        RunSound(states, steps, m);
      }
    } else {
      var i :| 0 <= i < |steps| && !Clean(states[i], steps[i]);
      if Sound(states[i]) {
        StepSoundIff(states[i], steps[i]);
        assert !Sound(states[i + 1]);
      }
    }
  }

  /** No setter has a drop left, and no getter a row to cache. */
  predicate Quiet(y: System) {
    forall pid :: pid in y.procs ==> y.procs[pid].Checked?
  }

  lemma QuietIsCoherent(y: System)
    requires Accounted(y) && Quiet(y)
    ensures Coherent(y.store)
  {
    forall u
      ensures FieldsAgree(Cached(y.store, u), Truth(y.store, u))
    {
      assert Agrees(y.store, u, Name) && Agrees(y.store, u, Avatar);
    }
  }

  // ------------------------------------------------------------------
  // Coming to rest
  // ------------------------------------------------------------------

  /** However the calls under way go on, with no set after them: once they are through, the cache is coherent. */
  ghost predicate Settles(y: System) {
    forall states: seq<System>, steps: seq<Step> ::
      IsRun(states, steps) && states[0] == y && (forall i :: 0 <= i < |steps| ==> !IsPut(steps[i])) && Quiet(states[|steps|])
      ==> Coherent(states[|steps|].store)
  }

  /** The calls under way, one getter apart. */
  function Busy(y: System, keep: nat): set<nat> {
    set pid | pid in y.procs && pid != keep && !y.procs[pid].Checked?
  }

  function Finish(y: System, pid: nat): Step
    requires pid in y.procs && !y.procs[pid].Checked?
  {
    if y.procs[pid].Dropping? then Drop(pid) else Fill(pid)
  }

  lemma Prepended(y: System, step: Step, states: seq<System>, steps: seq<Step>)
    requires Enabled(y, step) && IsRun(states, steps) && states[0] == Apply(y, step)
    ensures IsRun([y] + states, [step] + steps)
  {
    forall i | 0 <= i < |steps| + 1
      ensures Enabled(([y] + states)[i], ([step] + steps)[i]) && ([y] + states)[i + 1] == Apply(([y] + states)[i], ([step] + steps)[i])
    {
      if i > 0 {
        assert ([y] + states)[i] == states[i - 1] && ([step] + steps)[i] == steps[i - 1];
      }
    }
  }

  /** All calls but one can be brought to their end first, and the database does not notice. */
  lemma {:induction false} FinishOthers(y: System, keep: nat) returns (states: seq<System>, steps: seq<Step>)
    requires keep in y.procs
    ensures IsRun(states, steps) && states[0] == y && forall i :: 0 <= i < |steps| ==> !IsPut(steps[i])
    ensures var end := states[|steps|];
            && Busy(end, keep) == {} && keep in end.procs && end.procs[keep] == y.procs[keep]
            && end.store.db == y.store.db && end.store.defaultAvatar == y.store.defaultAvatar
    decreases Busy(y, keep)
  {
    if Busy(y, keep) == {} {
      states, steps := [y], [];
    } else {
      var pid :| pid in Busy(y, keep);
      var step := Finish(y, pid);
      var y' := Apply(y, step);
      assert Busy(y', keep) == Busy(y, keep) - {pid};
      states, steps := FinishOthers(y', keep);
      Prepended(y, step, states, steps);
      states, steps := [y] + states, [step] + steps;
    }
  }

  /** A getter that fills last leaves what it read. */
  lemma StaleReadUnsettles(y: System, pid: nat)
    requires pid in y.procs && y.procs[pid].Loading? && y.procs[pid].row != Truth(y.store, y.procs[pid].u)
    ensures !Settles(y)
  {
    var u, row := y.procs[pid].u, y.procs[pid].row;
    var states, steps := FinishOthers(y, pid);
    var before := states[|steps|];
    var end := Apply(before, Fill(pid));
    assert !FieldsAgree(Cached(end.store, u), Truth(end.store, u));
    var all, allSteps := states + [end], steps + [Fill(pid)];
    forall i | 0 <= i < |allSteps|
      ensures Enabled(all[i], allSteps[i]) && all[i + 1] == Apply(all[i], allSteps[i]) && !IsPut(allSteps[i])
    {
      if i < |steps| {
        assert all[i] == states[i] && all[i + 1] == states[i + 1] && allSteps[i] == steps[i];
      }
    }
    assert Quiet(end) by {
      assert forall q :: q in end.procs && !end.procs[q].Checked? ==> q in Busy(before, pid);
    }
    assert IsRun(all, allSteps) && all[0] == y && all[|allSteps|] == end;
  }

  /**
   Why these two conditions: with every cached field accounted for, the cache comes to rest in
   agreement with the database on every interleaving, if and only if every read in flight is current.
   */
  lemma SettlesIff(y: System)
    requires Accounted(y)
    ensures Settles(y) <==> ReadsCurrent(y)
  {
    if ReadsCurrent(y) {
      forall states: seq<System>, steps: seq<Step> |
        IsRun(states, steps) && states[0] == y && (forall i :: 0 <= i < |steps| ==> !IsPut(steps[i])) && Quiet(states[|steps|])
        ensures Coherent(states[|steps|].store)
      {
        RunSound(states, steps, |steps|);
        QuietIsCoherent(states[|steps|]);
      }
    } else {
      var pid :| pid in y.procs && y.procs[pid].Loading? && y.procs[pid].row != Truth(y.store, y.procs[pid].u);
      StaleReadUnsettles(y, pid);
    }
  }

  // ------------------------------------------------------------------
  // A set and a getter's miss
  // ------------------------------------------------------------------

  function SetBy(s: Store, step: Step): Store
    requires IsPut(step)
  {
    match step
    case PutProfile(_, u, name, avatar) => SetProfile(s, u, name, avatar)
    case PutAvatar(_, u, avatar) => SetAvatarURL(s, u, avatar)
    case PutName(_, u, name) => SetDisplayName(s, u, name)
  }

  /** The two commands of a set, with nothing between, are the whole set. */
  lemma SetAlone(y: System, step: Step)
    requires IsPut(step) && Enabled(y, step)
    ensures Apply(Apply(y, step), Drop(step.pid)) == y.(store := SetBy(y.store, step))
  {
    assert (y.procs[step.pid := Dropping(step.u, Scope(step))]) - {step.pid} == y.procs;
  }

  /**
   A set of any kind, with or without a row, whose upsert comes between a getter's read and its fill.
   If the drop comes before the fill too, the cache ends up coherent exactly when the set changed
   nothing. If it comes after the fill it takes the stale field with it, and only the default avatar of a
   user who had no row is left behind.
   */
  lemma OverlapStaleIff(y: System, step: Step, pid: nat)
    requires Coherent(y.store) && IsPut(step) && Enabled(y, step)
    requires pid in y.procs && y.procs[pid] == Loading(step.u, Truth(y.store, step.u))
    ensures Coherent(Apply(Apply(Apply(y, step), Drop(step.pid)), Fill(pid)).store) <==> Harmless(y.store, step)
    ensures Coherent(Apply(Apply(Apply(y, step), Fill(pid)), Drop(step.pid)).store) <==>
              (step.PutName? ==> step.u in y.store.db || y.store.defaultAvatar == "")
  {
    HarmlessIff(y, step);
    OthersUnaffected(y.store, Apply(Apply(Apply(y, step), Drop(step.pid)), Fill(pid)).store, step.u);
    OthersUnaffected(y.store, Apply(Apply(Apply(y, step), Fill(pid)), Drop(step.pid)).store, step.u);
  }

  /** The exception as a run: a getter caches the default avatar of a user without a row, and then the user sets a name. */
  lemma DefaultAvatarOutlives(u: string, name: string, defaultAvatar: string) returns (states: seq<System>, steps: seq<Step>)
    requires defaultAvatar != ""
    ensures IsRun(states, steps) && states[0] == System(Store(map[], map[], defaultAvatar), map[])
    ensures var end := states[|steps|];
            && end.procs == map[] && !Coherent(end.store)
            && Cached(end.store, u).avatar == Some(defaultAvatar) && u in end.store.db && end.store.db[u] == Row(name, "")
  {
    var y0 := System(Store(map[], map[], defaultAvatar), map[]);
    var y1 := Apply(y0, Read(0, u));
    var y2 := Apply(y1, Fill(0));
    var y3 := Apply(y2, PutName(0, u, name));
    var y4 := Apply(y3, Drop(0));
    states, steps := [y0, y1, y2, y3, y4], [Read(0, u), Fill(0), PutName(0, u, name), Drop(0)];
    assert !FieldsAgree(Cached(y4.store, u), Truth(y4.store, u));
  }

  // ------------------------------------------------------------------
  // What a getter is told on a hit
  // ------------------------------------------------------------------

  /** No set of the column is under way, and a hash that has a user id has the column. */
  ghost predicate Steady(y: System, u: string, col: Col) {
    !Pending(y, u, col) && (Cached(y.store, u).userID.Some? ==> Held(Cached(y.store, u), col).Some?)
  }

  predicate Sets(step: Step, u: string, col: Col) {
    IsPut(step) && step.u == u && Covers(Scope(step), col)
  }

  lemma StepSteady(y: System, step: Step, u: string, col: Col)
    requires Steady(y, u, col) && Enabled(y, step) && !Sets(step, u, col)
    ensures Steady(Apply(y, step), u, col)
  {
    if IsPut(step) {
      PutPending(y, step);
    } else if step.Drop? && y.procs[step.pid].u == u {
      assert !Covers(y.procs[step.pid].drop, col);
    }
  }

  lemma {:induction false} RunSteady(states: seq<System>, steps: seq<Step>, i: nat, n: nat, u: string, col: Col)
    requires IsRun(states, steps) && i <= n <= |steps| && Steady(states[i], u, col)
    requires forall k :: i <= k < n ==> !Sets(steps[k], u, col)
    ensures Steady(states[n], u, col)
    decreases n
  {
    if i < n {
      RunSteady(states, steps, i, n - 1, u, col);
      StepSteady(states[n - 1], steps[n - 1], u, col);
    }
  }

  /**
   A hit is told what the database says, on every clean interleaving, if the column was there when
   the getter asked for it and no set of it was or came under way until the fetch.
   */
  lemma AnswerIsCurrent(states: seq<System>, steps: seq<Step>, i: nat, n: nat, pid: nat, col: Col)
    requires IsRun(states, steps) && Sound(states[0]) && i <= n <= |steps| && Enabled(states[n], Fetch(pid))
    requires forall k :: 0 <= k < n ==> Clean(states[k], steps[k])
    requires var u := states[n].procs[pid].u;
             && Held(Cached(states[i].store, u), col).Some? && !Pending(states[i], u, col)
             && forall k :: i <= k < n ==> !Sets(steps[k], u, col)
    requires Answer(states[n], pid, col).Some?
    ensures Answer(states[n], pid, col) == Some(Told(Truth(states[n].store, states[n].procs[pid].u), col))
  {
    var u := states[n].procs[pid].u;
    RunSteady(states, steps, i, n, u, col);
    RunSound(states, steps, n);
    assert Agrees(states[n].store, u, col);
  }

  /** A clean run in all of whose states the user has a row, with one of the names. */
  ghost predicate NamedRun(states: seq<System>, steps: seq<Step>, u: string, names: set<string>) {
    && IsRun(states, steps)
    && (forall i :: 0 <= i < |steps| ==> Clean(states[i], steps[i]))
    && (forall m :: 0 <= m < |states| ==> Named(states[m], u, names))
  }

  predicate Named(y: System, u: string, names: set<string>) {
    u in y.store.db && y.store.db[u].name in names
  }

  lemma NamedPrepended(y: System, step: Step, states: seq<System>, steps: seq<Step>, u: string, names: set<string>)
    returns (states': seq<System>, steps': seq<Step>)
    requires NamedRun(states, steps, u, names) && Enabled(y, step) && states[0] == Apply(y, step)
    requires Clean(y, step) && Named(y, u, names)
    ensures NamedRun(states', steps', u, names) && states'[0] == y && states'[|steps'|] == states[|steps|]
  {
    Prepended(y, step, states, steps);
    states', steps' := [y] + states, [step] + steps;
  }

  /**
   And otherwise not: HEXISTS and hmget are two commands. A name that is there at the first and
   dropped by a set before the second is told as the empty name, which the user need never have had.
   */
  lemma VanishedNameIsTold(u: string, was: Row, name: string) returns (states: seq<System>, steps: seq<Step>)
    requires u != ""
    ensures NamedRun(states, steps, u, {was.name, name}) && states[0] == System(Store(map[u := was], map[], ""), map[])
    ensures Enabled(states[|steps|], Fetch(0)) && Answer(states[|steps|], 0, Name) == Some("")
  {
    var names, y0, y4 := {was.name, name}, System(Store(map[u := was], map[], ""), map[]), HalfAsked(u, was);
    AsksForName(u, was);
    var y1 := Apply(y0, Read(0, u));
    var y2 := Apply(y1, Fill(0));
    var y3 := Apply(y2, Start(0, u, NameOnly));
    states, steps := NameSetRun(u, was, name);
    states, steps := NamedPrepended(y3, Exists(0, Name), states, steps, u, names);
    states, steps := NamedPrepended(y2, Start(0, u, NameOnly), states, steps, u, names);
    states, steps := NamedPrepended(y1, Fill(0), states, steps, u, names);
    states, steps := NamedPrepended(y0, Read(0, u), states, steps, u, names);
  }

  /** The set that comes between. */
  lemma NameSetRun(u: string, was: Row, name: string) returns (states: seq<System>, steps: seq<Step>)
    requires u != ""
    ensures NamedRun(states, steps, u, {was.name, name}) && states[0] == HalfAsked(u, was)
    ensures Enabled(states[|steps|], Fetch(0)) && Answer(states[|steps|], 0, Name) == Some("")
  {
    var y4 := HalfAsked(u, was);
    var y5 := Apply(y4, PutName(1, u, name));
    NameVanishes(u, was, name);
    states, steps := [Apply(y5, Drop(1))], [];
    states, steps := NamedPrepended(y5, Drop(1), states, steps, u, {was.name, name});
    states, steps := NamedPrepended(y4, PutName(1, u, name), states, steps, u, {was.name, name});
  }

  lemma NameVanishes(u: string, was: Row, name: string)
    requires u != ""
    ensures var y4 := HalfAsked(u, was); var y5 := Apply(y4, PutName(1, u, name));
            && Clean(y4, PutName(1, u, name)) && Enabled(y5, Drop(1))
            && u in y5.store.db && y5.store.db[u].name == name && Apply(y5, Drop(1)).store.db == y5.store.db
            && Enabled(Apply(y5, Drop(1)), Fetch(0)) && Answer(Apply(y5, Drop(1)), 0, Name) == Some("")
  {
  }

  /** A getter has found the name to exist and not yet fetched it. */
  function HalfAsked(u: string, was: Row): System {
    System(Store(map[u := was], map[u := Entry(Some(u), Some(was.name), Some(was.avatar))], ""), map[0 := Checked(u, NameOnly, {})])
  }

  lemma AsksForName(u: string, was: Row)
    ensures var y2 := HalfAsked(u, was).(procs := map[]);
            && Apply(Apply(System(Store(map[u := was], map[], ""), map[]), Read(0, u)), Fill(0)) == y2
            && Enabled(Apply(y2, Start(0, u, NameOnly)), Exists(0, Name))
            && Apply(Apply(y2, Start(0, u, NameOnly)), Exists(0, Name)) == HalfAsked(u, was)
  {
    var y3 := Apply(HalfAsked(u, was).(procs := map[]), Start(0, u, NameOnly));
    assert y3.procs[0].missing == {Name};
    assert Apply(y3, Exists(0, Name)).procs[0].missing == {};
  }

  // ------------------------------------------------------------------
  // What the database says, and what getters say, by the sets so far
  // ------------------------------------------------------------------

  /** What a set gives for a column. */
  function Given(step: Step, col: Col): string
    requires IsPut(step) && Covers(Scope(step), col)
  {
    match step
    case PutProfile(_, _, name, avatar) => if col == Name then name else avatar
    case PutAvatar(_, _, avatar) => avatar
    case PutName(_, _, name) => name
  }

  predicate LastSet(steps: seq<Step>, i: nat, n: nat, u: string, col: Col)
    requires i < n <= |steps|
  {
    Sets(steps[i], u, col) && forall k :: i < k < n ==> !Sets(steps[k], u, col)
  }

  lemma StepTold(y: System, step: Step, u: string, col: Col)
    requires Enabled(y, step)
    ensures var before, after := Told(Truth(y.store, u), col), Told(Truth(Apply(y, step).store, u), col);
            if Sets(step, u, col) then after == Given(step, col)
            else if IsPut(step) && step.u == u && u !in y.store.db then after == ""
            else after == before
    ensures u in Apply(y, step).store.db <==> u in y.store.db || (IsPut(step) && step.u == u)
  {
  }

  /** Over every run, the last set of a column decides what the database says of it. */
  lemma {:induction false} LastSetDecides(states: seq<System>, steps: seq<Step>, i: nat, n: nat, u: string, col: Col)
    requires IsRun(states, steps) && i < n <= |steps| && LastSet(steps, i, n, u, col)
    ensures u in states[n].store.db && Told(states[n].store.db[u], col) == Given(steps[i], col)
    decreases n
  {
    StepTold(states[n - 1], steps[n - 1], u, col);
    if i < n - 1 {
      LastSetDecides(states, steps, i, n - 1, u, col);
    }
  }

  /** Without one, the column is as it was, or empty if another set of the user made the row. */
  lemma {:induction false} UnsetColumn(states: seq<System>, steps: seq<Step>, n: nat, u: string, col: Col)
    requires IsRun(states, steps) && n <= |steps| && forall k :: 0 <= k < n ==> !Sets(steps[k], u, col)
    ensures Told(Truth(states[n].store, u), col) ==
              if u !in states[0].store.db && u in states[n].store.db then "" else Told(Truth(states[0].store, u), col)
    ensures u in states[n].store.db <==> u in states[0].store.db || exists k :: 0 <= k < n && IsPut(steps[k]) && steps[k].u == u
  {
    if n > 0 {
      UnsetColumn(states, steps, n - 1, u, col);
      StepTold(states[n - 1], steps[n - 1], u, col);
    }
  }

  /** Until it fills, a getter changes nothing but its own place, and a fetch ends its lookup. */
  lemma LookupsChangeNothing(y: System, step: Step)
    requires Enabled(y, step) && (step.Start? || step.Exists? || step.Fetch? || step.Read?)
    ensures Apply(y, step).store == y.store && Apply(y, step).procs - {step.pid} == y.procs - {step.pid}
    ensures step.Fetch? ==> step.pid !in Apply(y, step).procs
  {
  }

  /** A hit takes a user id that is not empty and every wanted field. */
  lemma HitIff(e: Entry, want: Field)
    ensures Hit(e, want) <==>
              e.userID.Some? && e.userID.value != "" && forall col :: Covers(want, col) ==> Held(e, col).Some?
  {
    assert Covers(Both, Name) && Covers(Both, Avatar) && Covers(NameOnly, Name) && Covers(AvatarOnly, Avatar);
  }

  /** The commands of a lookup, with nothing between, come to an answer exactly on a hit, and then to what is cached. */
  lemma LookupAlone(y: System, pid: nat, u: string, col: Col)
    requires pid !in y.procs
    ensures var e, y' := Cached(y.store, u), Apply(Apply(y, Start(pid, u, if col == Name then NameOnly else AvatarOnly)), Exists(pid, col));
            var found := Enabled(y', Fetch(pid)) && Answer(y', pid, col).Some?;
            && (found <==> Hit(e, if col == Name then NameOnly else AvatarOnly))
            && (found ==> Answer(y', pid, col) == Held(e, col))
  {
    var y1 := Apply(y, Start(pid, u, if col == Name then NameOnly else AvatarOnly));
    assert y1.procs[pid].missing == {col};
    assert {col} - {col} == {};
  }

  /** The same for the lookup of both fields, name first. */
  lemma BothLookupAlone(y: System, pid: nat, u: string)
    requires pid !in y.procs
    ensures var e, y' := Cached(y.store, u), Apply(Apply(y, Start(pid, u, Both)), Exists(pid, Name));
            && (Enabled(y', Exists(pid, Avatar)) <==> e.name.Some?)
            && (e.name.Some? ==>
                  var y'' := Apply(y', Exists(pid, Avatar));
                  var found := Enabled(y'', Fetch(pid)) && Answer(y'', pid, Name).Some?;
                  && (found <==> Hit(e, Both))
                  && (found ==> Answer(y'', pid, Name) == e.name && Answer(y'', pid, Avatar) == e.avatar))
  {
    var y1 := Apply(y, Start(pid, u, Both));
    assert y1.procs[pid].missing == {Name, Avatar};
    assert {Name, Avatar} - {Name} == {Avatar} && {Avatar} - {Avatar} == {};
  }

  /** A getter comes to its fetch only with every field it wants found there, each at some step of its own. */
  lemma {:induction false} FetchHasAsked(states: seq<System>, steps: seq<Step>, n: nat, pid: nat, col: Col) returns (i: nat)
    requires IsRun(states, steps) && states[0].procs == map[] && n <= |steps|
    requires pid in states[n].procs && states[n].procs[pid].Checked?
    requires Covers(states[n].procs[pid].want, col) && col !in states[n].procs[pid].missing
    ensures i < n && steps[i] == Exists(pid, col) && Held(Cached(states[i].store, states[n].procs[pid].u), col).Some?
  {
    var before, step := states[n - 1], steps[n - 1];
    assert Enabled(before, step);
    if step == Exists(pid, col) && col in before.procs[pid].missing {
      i := n - 1;
    } else {
      assert pid in before.procs && before.procs[pid].Checked? && before.procs[pid].u == states[n].procs[pid].u;
      assert before.procs[pid].want == states[n].procs[pid].want && col !in before.procs[pid].missing;
      i := FetchHasAsked(states, steps, n - 1, pid, col);
    }
  }

  /**
   Read your writes, for a getter that hits: on every clean run in which the last set of a column it wants
   is done, drop included, when it asks for that column, it is told what that set gave.
   */
  lemma HitReadsLastSet(states: seq<System>, steps: seq<Step>, w: nat, i: nat, n: nat, pid: nat, col: Col)
    requires IsRun(states, steps) && Sound(states[0]) && w < i <= n <= |steps| && Enabled(states[n], Fetch(pid))
    requires forall k :: 0 <= k < n ==> Clean(states[k], steps[k])
    requires var u := states[n].procs[pid].u;
             && LastSet(steps, w, n, u, col) && !Pending(states[i], u, col) && Held(Cached(states[i].store, u), col).Some?
    requires Answer(states[n], pid, col).Some?
    ensures Answer(states[n], pid, col) == Some(Given(steps[w], col))
  {
    AnswerIsCurrent(states, steps, i, n, pid, col);
    LastSetDecides(states, steps, w, n, states[n].procs[pid].u, col);
  }

  /** And for a getter that misses: what it reads, and goes on to cache and to answer, is what the last set gave. */
  lemma MissReadsLastSet(states: seq<System>, steps: seq<Step>, w: nat, n: nat, pid: nat, u: string, col: Col)
    requires IsRun(states, steps) && w < n < |steps| && LastSet(steps, w, n, u, col) && steps[n] == Read(pid, u)
    ensures pid in states[n + 1].procs && states[n + 1].procs[pid].Loading?
    ensures Told(states[n + 1].procs[pid].row, col) == Given(steps[w], col)
  {
    LastSetDecides(states, steps, w, n, u, col);
  }
}
