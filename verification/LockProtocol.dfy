/**
 The Redis lock of cache/lock.go: one lock key, any number of clients.

 Every command is one step: SET NX EX by a client that is trying, and for UnLock the GET that
 compares tokens and the DEL that follows it, with anything in between. A lease names the
 token that was set and the time at which Redis drops it.
 */
module LockProtocol {
  import opened Text

  datatype Lease = Lease(token: string, until: int)

  predicate Live(entry: Option<Lease>, now: int) {
    entry.Some? && now < entry.value.until
  }

  /** SET key token EX expire NX: refused while a live entry is there, an error for expire < 1. */
  function SetNX(entry: Option<Lease>, now: int, token: string, expire: int): Option<Lease> {
    if Live(entry, now) || expire < 1 then entry else Some(Lease(token, now + expire))
  }

  predicate Accepts(entry: Option<Lease>, now: int, expire: int) {
    !Live(entry, now) && expire >= 1
  }

  // ------------------------------------------------------------------
  // One client's calls
  // ------------------------------------------------------------------

  /** What the n-th attempt of a Lock call meets: the time before it, and whether the SET is taken. */
  datatype Moment = Moment(now: int, free: bool)

  predicate InTime(m: Moment, wait: int, end: int) {
    wait <= 0 || m.now <= end
  }

  /** Attempt i is the first that is free, and the wait lasts until then. */
  predicate SucceedsAt(env: seq<Moment>, wait: int, end: int, i: nat) {
    && i < |env| && env[i].free && (wait < 0 ==> i == 0)
    && (forall j :: 0 <= j <= i ==> InTime(env[j], wait, end))
    && (forall j :: 0 <= j < i ==> !env[j].free)
  }

  /** Said for each mode: the first attempt or none, the first free one, the first free one up to and including the deadline. */
  lemma WaitModes(env: seq<Moment>, wait: int, end: int, i: nat)
    requires i < |env|
    ensures wait < 0 ==> (SucceedsAt(env, wait, end, i) <==> i == 0 && env[0].free)
    ensures wait == 0 ==> (SucceedsAt(env, wait, end, i) <==> env[i].free && forall j :: 0 <= j < i ==> !env[j].free)
    ensures wait > 0 ==> (SucceedsAt(env, wait, end, i) <==>
                            env[i].free && env[i].now <= end && forall j :: 0 <= j < i ==> !env[j].free && env[j].now <= end)
  {
  }

  /** Lock's three waiting modes: one attempt, attempts without end, attempts until the deadline. */
  method Lock(wait: int, end: int, env: seq<Moment>) returns (locked: bool, tries: nat)
    requires env != []
    requires wait == 0 ==> exists i :: 0 <= i < |env| && env[i].free
    requires wait > 0 ==> exists i :: 0 <= i < |env| && (env[i].free || env[i].now > end)
    ensures locked ==> tries > 0 && SucceedsAt(env, wait, end, tries - 1)
    ensures !locked ==> forall i :: !SucceedsAt(env, wait, end, i)
    ensures wait < 0 ==> tries == 1
    ensures wait == 0 ==> locked
  {
    tries, locked := 0, false;
    if wait < 0 {
      tries := 1;
      if env[0].free {
        return true, 1;
      }
    } else if wait == 0 {
      while !locked
        invariant tries <= |env|
        invariant forall j :: 0 <= j < (if locked then tries - 1 else tries) ==> !env[j].free
        invariant locked ==> tries > 0 && env[tries - 1].free
        decreases |env| - tries, !locked
      {
        locked := env[tries].free;
        tries := tries + 1;
      }
    } else {
      while env[tries].now <= end
        invariant tries < |env|
        invariant forall j :: 0 <= j < tries ==> !env[j].free && env[j].now <= end
        decreases |env| - tries
      {
        if env[tries].free {
          tries := tries + 1;
          return true, tries;
        }
        tries := tries + 1;
      }
    }
  }

  datatype UnlockResult = Removed | Expired | NotMine

  class LockKey {
    var entry: Option<Lease>

    constructor ()
      ensures entry == None
    {
      entry := None;
    }

    method DoLock(token: string, expire: int, now: int) returns (locked: bool)
      modifies this
      ensures locked <==> Accepts(old(entry), now, expire)
      ensures entry == SetNX(old(entry), now, token, expire)
    {
      if expire < 1 {
        return false;
      }
      if entry.Some? && now < entry.value.until {
        return false;
      }
      entry := Some(Lease(token, now + expire));
      return true;
    }

    /** UnLock with nothing between its GET and its DEL. */
    method UnLock(token: string, force: bool, now: int) returns (r: UnlockResult)
      modifies this
      ensures r == Removed <==> force || (Live(old(entry), now) && old(entry).value.token == token)
      ensures r == Expired <==> !force && !Live(old(entry), now)
      ensures entry == if r == Removed then None else old(entry)
    {
      if force {
        entry := None;
        return Removed;
      }
      if entry.None? || now >= entry.value.until {
        return Expired;
      }
      if entry.value.token != token {
        return NotMine;
      }
      entry := None;
      return Removed;
    }
  }

  // ------------------------------------------------------------------
  // All clients together
  // ------------------------------------------------------------------

  /** Confirmed: the GET of UnLock found the client's own token, and the DEL is still to come. */
  datatype Client = Trying(token: string) | Holding(lease: Lease) | Confirmed(lease: Lease)

  datatype State = State(now: int, entry: Option<Lease>, clients: map<nat, Client>, issued: set<string>)

  datatype Step =
    | Elapse(d: nat)
    | Begin(c: nat, token: string)
    | Attempt(c: nat, expire: int)
    | GiveUp(c: nat)
    | Check(c: nat)
    | Delete(c: nat)
    | Force(c: nat)

  predicate Has(s: State, c: nat) {
    c in s.clients && !s.clients[c].Trying?
  }

  predicate Enabled(s: State, step: Step) {
    match step
    case Elapse(_) => true
    case Begin(c, token) => c !in s.clients && token !in s.issued
    case Attempt(c, _) => c in s.clients && s.clients[c].Trying?
    case GiveUp(c) => c in s.clients && s.clients[c].Trying?
    case Check(c) => c in s.clients && s.clients[c].Holding?
    case Delete(c) => c in s.clients && s.clients[c].Confirmed?
    case Force(c) => c in s.clients && s.clients[c].Holding?
  }

  function Apply(s: State, step: Step): State
    requires Enabled(s, step)
  {
    match step
    case Elapse(d) => s.(now := s.now + d)
    case Begin(c, token) => s.(clients := s.clients[c := Trying(token)], issued := s.issued + {token})
    case Attempt(c, expire) =>
      var entry := SetNX(s.entry, s.now, s.clients[c].token, expire);
      if Accepts(s.entry, s.now, expire) then s.(entry := entry, clients := s.clients[c := Holding(entry.value)])
      else s
    case GiveUp(c) => s.(clients := s.clients - {c})
    case Check(c) =>
      var lease := s.clients[c].lease;
      if Live(s.entry, s.now) && s.entry.value.token == lease.token then s.(clients := s.clients[c := Confirmed(lease)])
      else s.(clients := s.clients - {c})
    case Delete(c) => s.(entry := None, clients := s.clients - {c})
    case Force(c) => s.(entry := None, clients := s.clients - {c})
  }

  /** The client believes, by its own clock, that it still has the lock. */
  predicate Holds(s: State, c: nat) {
    Has(s, c) && s.now < s.clients[c].lease.until
  }

  ghost predicate Exclusive(s: State) {
    forall c, d :: Holds(s, c) && Holds(s, d) ==> c == d
  }

  function TokenOf(c: Client): string {
    if c.Trying? then c.token else c.lease.token
  }

  /** Tokens are drawn once each. */
  ghost predicate TokensUnique(s: State) {
    && (forall c :: c in s.clients ==> TokenOf(s.clients[c]) in s.issued)
    && (forall c, d :: c in s.clients && d in s.clients && TokenOf(s.clients[c]) == TokenOf(s.clients[d]) ==> c == d)
    && (s.entry.Some? ==> s.entry.value.token in s.issued)
  }

  /** Whoever holds the lock is who the store says. */
  ghost predicate Safe(s: State) {
    forall c :: Holds(s, c) ==> s.entry == Some(s.clients[c].lease)
  }

  lemma SafeIsExclusive(s: State)
    requires TokensUnique(s) && Safe(s)
    ensures Exclusive(s)
  {
  }

  lemma StepTokensUnique(s: State, step: Step)
    requires TokensUnique(s) && Enabled(s, step)
    ensures TokensUnique(Apply(s, step))
  {
  }

  /** A live entry is the lease of some client: nobody forgets a lock that is still theirs. */
  ghost predicate Owned(s: State) {
    Live(s.entry, s.now) ==> exists c :: Has(s, c) && s.clients[c].lease == s.entry.value
  }

  lemma StepOwned(s: State, step: Step)
    requires TokensUnique(s) && Owned(s) && Enabled(s, step)
    ensures Owned(Apply(s, step))
  {
    var s' := Apply(s, step);
    if Live(s'.entry, s'.now) {
      if step.Attempt? && Accepts(s.entry, s.now, step.expire) {
        assert Has(s', step.c);
      } else {
        assert Live(s.entry, s.now);
        var c :| Has(s, c) && s.clients[c].lease == s.entry.value;
        assert Has(s', c) && s'.clients[c].lease == s'.entry.value;
      }
    }
  }

  /** A deletion that takes the lock from a client that still holds it. */
  ghost predicate Steals(s: State, step: Step) {
    (step.Delete? || step.Force?) && exists d :: d != step.c && Holds(s, d)
  }

  /** A deletion at a moment when the store has a live token that is not the caller's: what a compare-and-delete refuses. */
  predicate Foreign(s: State, step: Step) {
    && (step.Delete? || step.Force?) && Has(s, step.c)
    && Live(s.entry, s.now) && s.entry.value.token != s.clients[step.c].lease.token
  }

  /** A deletion steals if and only if the store holds a foreign live token at that moment. */
  lemma StealsIff(s: State, step: Step)
    requires TokensUnique(s) && Safe(s) && Owned(s) && Enabled(s, step)
    ensures Steals(s, step) <==> Foreign(s, step)
  {
    if step.Delete? || step.Force? {
      if d :| d != step.c && Holds(s, d) {
        assert s.entry == Some(s.clients[d].lease);
        assert TokenOf(s.clients[d]) != TokenOf(s.clients[step.c]);
      }
      if Foreign(s, step) {
        var o :| Has(s, o) && s.clients[o].lease == s.entry.value;
        assert o != step.c && Holds(s, o);
      }
    }
  }

  /** Safety is lost at exactly these steps. */
  lemma StepSafeIff(s: State, step: Step)
    requires TokensUnique(s) && Safe(s) && Owned(s) && Enabled(s, step)
    ensures Safe(Apply(s, step)) <==> !Foreign(s, step)
  {
    var s' := Apply(s, step);
    StealsIff(s, step);
    if step.Delete? || step.Force? {
      if d :| d != step.c && Holds(s, d) {
        assert Holds(s', d);
      }
      assert forall d :: Holds(s', d) ==> d != step.c && Holds(s, d);
    } else if step.Attempt? && Accepts(s.entry, s.now, step.expire) {
      assert forall d :: d != step.c ==> !Holds(s, d);
      assert forall d :: Holds(s', d) ==> d == step.c || Holds(s, d);
    } else {
      assert forall d :: Holds(s', d) ==> Holds(s, d) && s'.clients[d].lease == s.clients[d].lease;
    }
  }

  /** The DEL arrives before the client's own lease runs out. */
  predicate Timely(s: State, step: Step) {
    step.Delete? && Has(s, step.c) ==> s.now < s.clients[step.c].lease.until
  }

  /** A timely UnLock removes its caller's own token. */
  lemma TimelyDeletesOwn(s: State, c: nat)
    requires TokensUnique(s) && Safe(s) && Enabled(s, Delete(c)) && Timely(s, Delete(c))
    ensures s.entry == Some(s.clients[c].lease) && !Foreign(s, Delete(c))
  {
    assert Holds(s, c);
  }

  ghost predicate IsRun(states: seq<State>, steps: seq<Step>) {
    && |states| == |steps| + 1
    && forall i :: 0 <= i < |steps| ==> Enabled(states[i], steps[i]) && states[i + 1] == Apply(states[i], steps[i])
  }

  predicate Init(s: State) {
    s.entry == None && s.clients == map[]
  }

  /** Tokens stay unique and live entries owned in every run, thefts or not. */
  lemma {:induction false} RunConsistent(states: seq<State>, steps: seq<Step>, n: nat)
    requires IsRun(states, steps) && Init(states[0]) && n < |states|
    ensures TokensUnique(states[n]) && Owned(states[n])
  {
    if n > 0 {
      RunConsistent(states, steps, n - 1);
      StepTokensUnique(states[n - 1], steps[n - 1]);
      StepOwned(states[n - 1], steps[n - 1]);
    }
  }

  lemma {:induction false} RunSafe(states: seq<State>, steps: seq<Step>, n: nat)
    requires IsRun(states, steps) && Init(states[0]) && n < |states|
    requires forall i :: 0 <= i < n ==> !Foreign(states[i], steps[i])
    ensures Safe(states[n]) && Exclusive(states[n])
  {
    RunConsistent(states, steps, n);
    if n > 0 {
      RunSafe(states, steps, n - 1);
      RunConsistent(states, steps, n - 1);
      StepSafeIff(states[n - 1], steps[n - 1]);
    }
    SafeIsExclusive(states[n]);
  }

  /**
   Over whole runs: who holds the lock is who the store says, in every state, if and only if no
   DEL is sent while the store holds a live token of somebody else. A client that deletes only
   after such a comparison, in one step with it, therefore never breaks the lock.
   */
  lemma RunSafeIff(states: seq<State>, steps: seq<Step>)
    requires IsRun(states, steps) && Init(states[0])
    ensures (forall m :: 0 <= m < |states| ==> Safe(states[m])) <==> (forall i :: 0 <= i < |steps| ==> !Foreign(states[i], steps[i]))
  {
    if forall i :: 0 <= i < |steps| ==> !Foreign(states[i], steps[i]) {
      forall m | 0 <= m < |states|
        ensures Safe(states[m])
      {
        RunSafe(states, steps, m);
      }
    } else {
      var i :| 0 <= i < |steps| && Foreign(states[i], steps[i]);
      RunConsistent(states, steps, i);
      if Safe(states[i]) {
        StepSafeIff(states[i], steps[i]);
        assert !Safe(states[i + 1]);
      }
    }
  }

  /**
   Mutual exclusion over every run without forced unlocks in which each DEL beats its own lease:
   at most one client holds the lock at any time, whatever else is interleaved.
   */
  lemma {:induction false} RunExclusive(states: seq<State>, steps: seq<Step>, n: nat)
    requires IsRun(states, steps) && Init(states[0]) && n < |states|
    requires forall i :: 0 <= i < n ==> !steps[i].Force? && Timely(states[i], steps[i])
    ensures Safe(states[n]) && Exclusive(states[n])
    ensures forall i :: 0 <= i < n ==> !Foreign(states[i], steps[i])
  {
    if n > 0 {
      RunExclusive(states, steps, n - 1);
      RunConsistent(states, steps, n - 1);
      if steps[n - 1].Delete? {
        TimelyDeletesOwn(states[n - 1], steps[n - 1].c);
      }
    }
    RunSafe(states, steps, n);
  }

  /** And a theft is fatal: after a foreign deletion one more client is enough for two to hold the lock. */
  lemma StealingBreaks(s: State, step: Step, e: nat, token: string, expire: int)
    requires TokensUnique(s) && Safe(s) && Owned(s) && Enabled(s, step) && Foreign(s, step)
    requires e !in s.clients && token !in s.issued && expire >= 1
    ensures var s1 := Apply(s, step);
            && Enabled(s1, Begin(e, token))
            && var s2 := Apply(s1, Begin(e, token));
               Enabled(s2, Attempt(e, expire)) && !Exclusive(Apply(s2, Attempt(e, expire)))
  {
    StealsIff(s, step);
    var s1 := Apply(s, step);
    var s2 := Apply(s1, Begin(e, token));
    var s3 := Apply(s2, Attempt(e, expire));
    var d :| d != step.c && Holds(s, d);
    assert Holds(s3, d) && Holds(s3, e) && d != e;
  }

  /** A run without forced unlocks gets there: the GET matches, the lease runs out, the DEL comes late. */
  lemma LateDeleteSteals() returns (states: seq<State>, steps: seq<Step>)
    ensures IsRun(states, steps) && Init(states[0])
    ensures forall i :: 0 <= i < |steps| ==> !steps[i].Force?
    ensures exists i :: 0 <= i < |steps| && Foreign(states[i], steps[i]) && Steals(states[i], steps[i])
  {
    var s0 := State(0, None, map[], {});
    var s1 := Apply(s0, Begin(1, "a"));
    var s2 := Apply(s1, Attempt(1, 1));
    var s3 := Apply(s2, Check(1));
    var s4 := Apply(s3, Elapse(1));
    assert s4.clients[1] == Confirmed(Lease("a", 1));
    var token := "b";
    assert token !in s4.issued by { assert token[0] == 'b' && "a"[0] == 'a'; }
    var s5 := Apply(s4, Begin(2, token));
    var s6 := Apply(s5, Attempt(2, 1));
    assert Holds(s6, 2);
    states := [s0, s1, s2, s3, s4, s5, s6, Apply(s6, Delete(1))];
    steps := [Begin(1, "a"), Attempt(1, 1), Check(1), Elapse(1), Begin(2, token), Attempt(2, 1), Delete(1)];
    assert Steals(states[6], steps[6]) && Foreign(states[6], steps[6]);
  }

  // ------------------------------------------------------------------
  // How long a lock is granted, and what a release does
  // ------------------------------------------------------------------

  /** A lock that is granted is granted for exactly the seconds asked for, to the token that asked. */
  lemma GrantedFor(entry: Option<Lease>, now: int, token: string, expire: int)
    requires Accepts(entry, now, expire)
    ensures var granted := SetNX(entry, now, token, expire);
            && granted.Some? && granted.value.token == token
            && forall t :: Live(granted, t) <==> t < now + expire
  {
  }

  /** The seconds that pass during steps i up to n. */
  function Elapsed(steps: seq<Step>, i: nat, n: nat): nat
    requires n <= |steps|
    decreases n
  {
    if n <= i then 0 else Elapsed(steps, i, n - 1) + if steps[n - 1].Elapse? then steps[n - 1].d else 0
  }

  predicate Deletes(step: Step) {
    step.Delete? || step.Force?
  }

  predicate Grants(s: State, step: Step) {
    step.Attempt? && Accepts(s.entry, s.now, step.expire)
  }

  lemma {:induction false} RunClock(states: seq<State>, steps: seq<Step>, i: nat, n: nat)
    requires IsRun(states, steps) && i <= n <= |steps|
    ensures states[n].now == states[i].now + Elapsed(steps, i, n)
    decreases n
  {
    if i < n {
      RunClock(states, steps, i, n - 1);
    }
  }

  /** Only a grant or a deletion changes the entry. */
  lemma {:induction false} EntryStays(states: seq<State>, steps: seq<Step>, i: nat, n: nat)
    requires IsRun(states, steps) && i <= n <= |steps|
    requires forall k :: i <= k < n ==> !Deletes(steps[k]) && !Grants(states[k], steps[k])
    ensures states[n].entry == states[i].entry
    decreases n
  {
    if i < n {
      EntryStays(states, steps, i, n - 1);
    }
  }

  /**
   Over every run: after an attempt is granted with an expiry, and as long as nobody deletes and nobody
   is granted the lock again, the entry is the granted one, and any further attempt is granted
   exactly when that many seconds have passed.
   */
  lemma GrantLasts(states: seq<State>, steps: seq<Step>, i: nat, n: nat, expire: int)
    requires IsRun(states, steps) && i < n <= |steps| && Grants(states[i], steps[i])
    requires forall k :: i < k < n ==> !Deletes(steps[k]) && !Grants(states[k], steps[k])
    ensures states[n].entry == Some(Lease(states[i].clients[steps[i].c].token, states[i].now + steps[i].expire))
    ensures Accepts(states[n].entry, states[n].now, expire) <==> expire >= 1 && Elapsed(steps, i + 1, n) >= steps[i].expire
  {
    GrantSets(states[i], steps[i]);
    EntryStays(states, steps, i + 1, n);
    RunClock(states, steps, i + 1, n);
    assert states[n].entry == states[i + 1].entry;
    ExpiresAt(states[n].entry, states[n].now, states[i].now + steps[i].expire, expire);
  }

  lemma GrantSets(s: State, step: Step)
    requires Enabled(s, step) && Grants(s, step)
    ensures Apply(s, step).entry == Some(Lease(s.clients[step.c].token, s.now + step.expire)) && Apply(s, step).now == s.now
  {
  }

  lemma ExpiresAt(entry: Option<Lease>, now: int, until: int, expire: int)
    requires entry.Some? && entry.value.until == until
    ensures Accepts(entry, now, expire) <==> expire >= 1 && now >= until
  {
  }

  /** So with no deletion the lock is not granted twice within the seconds asked for. */
  lemma {:induction false} NotGrantedAgain(states: seq<State>, steps: seq<Step>, i: nat, n: nat)
    requires IsRun(states, steps) && i < n <= |steps| && Grants(states[i], steps[i])
    requires forall k :: i < k < n ==> !Deletes(steps[k])
    requires Elapsed(steps, i + 1, n) < steps[i].expire
    ensures forall k :: i < k < n ==> !Grants(states[k], steps[k])
    decreases n
  {
    if i + 1 < n {
      NotGrantedAgain(states, steps, i, n - 1);
      if steps[n - 1].Attempt? {
        GrantLasts(states, steps, i, n - 1, steps[n - 1].expire);
      }
    }
  }

  /** A client that is refused and gives up leaves nothing behind but the token it drew. */
  lemma RefusedLeavesNoTrace(s: State, c: nat, token: string, expire: int)
    requires Enabled(s, Begin(c, token)) && !Accepts(s.entry, s.now, expire)
    ensures var s1 := Apply(s, Begin(c, token));
            && Enabled(s1, Attempt(c, expire)) && Apply(s1, Attempt(c, expire)) == s1
            && Enabled(s1, GiveUp(c)) && Apply(s1, GiveUp(c)) == s.(issued := s.issued + {token})
  {
    assert s.clients[c := Trying(token)] - {c} == s.clients;
  }

  /** The GET and the DEL of a release, with nothing between: a live token of the caller's own goes, any other entry stays. */
  lemma ReleaseAlone(s: State, c: nat)
    requires Enabled(s, Check(c))
    ensures var s' := Apply(s, Check(c));
            var own := Live(s.entry, s.now) && s.entry.value.token == s.clients[c].lease.token;
            && (Enabled(s', Delete(c)) <==> own)
            && (own ==> !Foreign(s', Delete(c)) && Apply(s', Delete(c)) == s.(entry := None, clients := s.clients - {c}))
            && (!own ==> s' == s.(clients := s.clients - {c}))
  {
    var s' := Apply(s, Check(c));
    if c in s'.clients {
      assert s'.clients - {c} == s.clients - {c};
    }
  }
}
