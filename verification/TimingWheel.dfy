/**
 The timing wheel behind the in-process cache (cache/local_cache.go), on values.

 Time is the tick counter `cnt`. The wheel has sixteen slots of `step` ticks each; an
 entry written at count c goes into the slot of c + duration, and the sweeper empties
 one slot every `step` ticks, starting with slot 15. Because an item's Offset never
 leaves -1 (see LocalCache), every hit only adds an entry: `Touch` is that effect.
 */
module TimingWheel {
  import opened Arith

  const BUCKETS := 16

  /** `T` is the type of the stored items; a bucket is the set of keys filed in it. */
  datatype Wheel<T> = Wheel(
    duration: nat,
    step: nat,
    cnt: nat,
    cleanIdx: nat,
    repos: seq<map<string, T>>,
    buckets: seq<seq<set<string>>>)

  datatype Op<T> = Touching(repo: nat, key: string, item: T) | Ticking

  /** The slot arithmetic of the source, on non-negative counts. */
  function Slot(n: nat, step: nat): (slot: nat)
    requires step > 0
    ensures slot == (n / step) % BUCKETS < BUCKETS
  {
    SlotIsQuotient(n, BUCKETS, step);
    (n % (BUCKETS * step)) / step
  }

  /** Files `key` for eviction, and puts the item back if its key has gone missing. */
  function Touch<T>(w: Wheel<T>, repo: nat, key: string, item: T): Wheel<T>
    requires Shaped(w) && repo < |w.repos|
  {
    var slot := Slot(w.cnt + w.duration, w.step);
    var row := w.buckets[repo];
    w.(repos := if key in w.repos[repo] then w.repos else w.repos[repo := w.repos[repo][key := item]],
       buckets := w.buckets[repo := row[slot := row[slot] + {key}]])
  }

  function SweptRepos<T>(repos: seq<map<string, T>>, buckets: seq<seq<set<string>>>, slot: nat): seq<map<string, T>>
    requires |repos| == |buckets| && slot < BUCKETS
    requires forall r :: 0 <= r < |buckets| ==> |buckets[r]| == BUCKETS
  {
    seq(|repos|, i requires 0 <= i < |repos| => repos[i] - buckets[i][slot])
  }

  function SweptBuckets(buckets: seq<seq<set<string>>>, slot: nat): seq<seq<set<string>>>
    requires slot < BUCKETS
    requires forall r :: 0 <= r < |buckets| ==> |buckets[r]| == BUCKETS
  {
    seq(|buckets|, i requires 0 <= i < |buckets| => buckets[i][slot := {}])
  }

  /** One second of the sweeper goroutine. */
  function Tick<T>(w: Wheel<T>): Wheel<T>
    requires Shaped(w)
  {
    if w.cnt + 1 == w.cleanIdx then
      var slot := Slot(w.cnt + 1, w.step);
      w.(cnt := w.cnt + 1,
         cleanIdx := w.cleanIdx + w.step,
         repos := SweptRepos(w.repos, w.buckets, slot),
         buckets := SweptBuckets(w.buckets, slot))
    else
      w.(cnt := w.cnt + 1)
  }

  predicate Enabled<T>(w: Wheel<T>, op: Op<T>) {
    op.Touching? ==> op.repo < |w.repos|
  }

  function Step<T>(w: Wheel<T>, op: Op<T>): (w': Wheel<T>)
    requires Shaped(w) && Enabled(w, op)
    ensures Shaped(w') && |w'.repos| == |w.repos| && w'.duration == w.duration && w'.step == w.step
  {
    match op
    case Touching(repo, key, item) => Touch(w, repo, key, item)
    case Ticking => Tick(w)
  }

  predicate EnabledAll<T>(w: Wheel<T>, ops: seq<Op<T>>) {
    forall i :: 0 <= i < |ops| ==> Enabled(w, ops[i])
  }

  /** The state after a whole run, oldest operation first. */
  function Run<T>(w: Wheel<T>, ops: seq<Op<T>>): (w': Wheel<T>)
    requires Shaped(w) && EnabledAll(w, ops)
    ensures Shaped(w') && |w'.repos| == |w.repos| && w'.duration == w.duration && w'.step == w.step
    decreases |ops|
  {
    if ops == [] then w else Step(Run(w, ops[..|ops| - 1]), ops[|ops| - 1])
  }

  predicate Shaped<T>(w: Wheel<T>) {
    && w.step > 0
    && |w.repos| == |w.buckets|
    && (forall r :: 0 <= r < |w.buckets| ==> |w.buckets[r]| == BUCKETS)
  }

  /** Start(cap, duration) before the first tick. */
  function Start<T>(cap: nat, duration: nat): Wheel<T>
    requires duration >= BUCKETS - 1
  {
    var step := duration / (BUCKETS - 1);
    Wheel(duration, step, 0, (BUCKETS - 1) * step,
          seq(cap, i => map[]), seq(cap, i => seq(BUCKETS, j => {})))
  }

  // ------------------------------------------------------------------
  // Sweeps, numbered: sweep m happens at count m * step and empties slot m % 16
  // ------------------------------------------------------------------

  /** The number of the first sweep after count c (the first sweep of all is number 15). */
  function SweepAfter(step: nat, c: nat): (m: nat)
    requires step > 0
  {
    if c / step + 1 < BUCKETS - 1 then BUCKETS - 1 else c / step + 1
  }

  /** The first sweep of slot t from sweep m on. */
  function NextSweep(m: nat, t: nat): (n: nat)
    ensures m <= n < m + BUCKETS
    ensures t < BUCKETS ==> n % BUCKETS == t
  {
    m + (t - m) % BUCKETS
  }

  lemma NextSweepIsFirst(m: nat, t: nat, k: nat)
    requires m <= k && k % BUCKETS == t
    ensures NextSweep(m, t) <= k
    ensures k < m + BUCKETS ==> NextSweep(m, t) == k
    ensures m + BUCKETS <= k < m + 2 * BUCKETS ==> NextSweep(m, t) == k - BUCKETS
  {
  }

  /** The count at which an entry filed at count c, alone, is swept. */
  function EvictionTick(duration: nat, c: nat): nat
    requires duration >= BUCKETS - 1
  {
    var step := duration / (BUCKETS - 1);
    NextSweep(SweepAfter(step, c), ((c + duration) / step) % BUCKETS) * step
  }

  // ------------------------------------------------------------------
  // The invariant
  // ------------------------------------------------------------------

  /** The sweeper's next appointment is the next multiple of step, so `cnt == clean` is never jumped over. */
  predicate OnSchedule<T>(w: Wheel<T>) {
    && Shaped(w)
    && w.duration >= BUCKETS - 1
    && w.step == w.duration / (BUCKETS - 1)
    && w.cleanIdx == SweepAfter(w.step, w.cnt) * w.step
  }

  function Due<T>(w: Wheel<T>, t: nat): nat
    requires w.step > 0
  {
    NextSweep(SweepAfter(w.step, w.cnt), t) * w.step
  }

  /** Every non-empty slot is swept by count `bound`. */
  predicate SweptBy<T>(w: Wheel<T>, bound: nat)
    requires Shaped(w)
  {
    forall r, t :: 0 <= r < |w.buckets| && 0 <= t < BUCKETS && w.buckets[r][t] != {} ==> Due(w, t) <= bound
  }

  predicate Filed(row: seq<set<string>>, key: string) {
    exists t :: 0 <= t < |row| && key in row[t]
  }

  /** No stored key lacks a bucket entry. */
  predicate NoLeak<T>(w: Wheel<T>)
    requires Shaped(w)
  {
    forall r, k :: 0 <= r < |w.repos| && k in w.repos[r] ==> Filed(w.buckets[r], k)
  }

  predicate Inv<T>(w: Wheel<T>) {
    OnSchedule(w) && NoLeak(w) && SweptBy(w, w.cnt + w.duration)
  }

  // ------------------------------------------------------------------
  // Sweep arithmetic
  // ------------------------------------------------------------------

  /** The next sweep is in the future, and at most one step away once sweeping has begun. */
  lemma SweepAfterBounds(step: nat, c: nat)
    requires step > 0
    ensures c < SweepAfter(step, c) * step
    ensures SweepAfter(step, c) > BUCKETS - 1 ==> SweepAfter(step, c) * step <= c + step
  {
    DivBounds(c, step);
    MulMono(c / step + 1, SweepAfter(step, c), step);
  }

  /** The sweep number moves exactly at the tick that performs the sweep. */
  lemma SweepAfterTick(step: nat, c: nat)
    requires step > 0
    ensures var m := SweepAfter(step, c);
            SweepAfter(step, c + 1) == if c + 1 == m * step then m + 1 else m
  {
    var m := SweepAfter(step, c);
    SweepAfterBounds(step, c);
    if c + 1 == m * step {
      DivModUnique(c + 1, step, m, 0);
    } else {
      DivMono(c, c + 1, step);
      DivBounds(c + 1, step);
      if (c + 1) / step + 1 > m {
        MulMono(m, (c + 1) / step, step);
      }
    }
  }

  /** An entry is always filed for a sweep that has not happened yet. */
  lemma TargetAhead(duration: nat, c: nat)
    requires duration >= BUCKETS - 1
    ensures var step := duration / (BUCKETS - 1);
            && step > 0
            && SweepAfter(step, c) <= (c + duration) / step
            && ((c + duration) / step) * step <= c + duration < ((c + duration) / step) * step + step
  {
    var step := duration / (BUCKETS - 1);
    DivBounds(c + duration, step);
    QuotientAhead(c, duration, step);
  }

  /** Fifteen steps further on, the quotient is fifteen more at least. */
  lemma QuotientAhead(c: nat, duration: nat, step: nat)
    requires step > 0 && (BUCKETS - 1) * step <= duration
    ensures c / step + (BUCKETS - 1) <= (c + duration) / step
  {
    DivBounds(c, step);
    DivModUnique(c + (BUCKETS - 1) * step, step, c / step + (BUCKETS - 1), c % step);
    DivMono(c + (BUCKETS - 1) * step, c + duration, step);
  }

  /** The slot of a target holds it for at most two turns of the wheel. */
  lemma TargetWithinTwoTurns(duration: nat, c: nat)
    requires duration >= BUCKETS - 1
    ensures var step := duration / (BUCKETS - 1);
            && step > 0
            && (c + duration) / step < SweepAfter(step, c) + 2 * BUCKETS
            && (duration <= BUCKETS * step ==> (c + duration) / step < SweepAfter(step, c) + BUCKETS)
  {
    var step := duration / (BUCKETS - 1);
    var m := SweepAfter(step, c);
    TargetAhead(duration, c);
    SweepAfterBounds(step, c);
    var target := (c + duration) / step;
    assert (m + BUCKETS) * step == m * step + BUCKETS * step;
    assert (m + 2 * BUCKETS) * step == m * step + (2 * BUCKETS) * step;
    assert duration < (BUCKETS - 1) * step + (BUCKETS - 1) <= (2 * BUCKETS) * step;
    if target >= m + BUCKETS {
      MulMono(m + BUCKETS, target, step);
    }
    if target >= m + 2 * BUCKETS {
      MulMono(m + 2 * BUCKETS, target, step);
    }
  }

  /** Advancing past a sweep reschedules only the slot it emptied. */
  lemma NextSweepAdvance(m: nat, t: nat)
    requires t < BUCKETS && t != m % BUCKETS
    ensures NextSweep(m + 1, t) == NextSweep(m, t)
  {
  }

  // ------------------------------------------------------------------
  // The invariant holds in every reachable state
  // ------------------------------------------------------------------

  lemma StartInv<T>(cap: nat, duration: nat)
    requires duration >= BUCKETS - 1
    ensures Inv(Start<T>(cap, duration))
  {
  }

  lemma TouchNoLeak<T>(w: Wheel<T>, repo: nat, key: string, item: T)
    requires Shaped(w) && NoLeak(w) && repo < |w.repos|
    ensures Shaped(Touch(w, repo, key, item)) && NoLeak(Touch(w, repo, key, item))
  {
    var w' := Touch(w, repo, key, item);
    var slot := Slot(w.cnt + w.duration, w.step);
    forall r, k | 0 <= r < |w'.repos| && k in w'.repos[r]
      ensures Filed(w'.buckets[r], k)
    {
      if r == repo && k == key {
        assert key in w'.buckets[r][slot];
      } else {
        assert k in w.repos[r];
        var t :| 0 <= t < |w.buckets[r]| && k in w.buckets[r][t];
        assert k in w'.buckets[r][t];
      }
    }
  }

  /** A new entry is swept no later than its target. */
  lemma TargetDue(duration: nat, c: nat)
    requires duration >= BUCKETS - 1
    ensures var step := duration / (BUCKETS - 1);
            && step > 0
            && NextSweep(SweepAfter(step, c), ((c + duration) / step) % BUCKETS) * step <= c + duration
  {
    var step := duration / (BUCKETS - 1);
    var target := (c + duration) / step;
    TargetAhead(duration, c);
    var next := NextSweep(SweepAfter(step, c), target % BUCKETS);
    assert next <= target by { NextSweepIsFirst(SweepAfter(step, c), target % BUCKETS, target); }
    MulMono(next, target, step);
  }

  lemma TouchInv<T>(w: Wheel<T>, repo: nat, key: string, item: T)
    requires Inv(w) && repo < |w.repos|
    ensures Inv(Touch(w, repo, key, item))
  {
    TouchNoLeak(w, repo, key, item);
    TargetDue(w.duration, w.cnt);
    var w', slot := Touch(w, repo, key, item), Slot(w.cnt + w.duration, w.step);
    assert Due(w, slot) <= w.cnt + w.duration;
    forall r, t | 0 <= r < |w'.buckets| && 0 <= t < BUCKETS && w'.buckets[r][t] != {}
      ensures Due(w', t) <= w.cnt + w.duration
    {
      assert Due(w', t) == Due(w, t);
      assert t == slot || w.buckets[r][t] != {};
    }
  }

  lemma TickOnSchedule<T>(w: Wheel<T>)
    requires OnSchedule(w)
    ensures OnSchedule(Tick(w))
  {
    var m := SweepAfter(w.step, w.cnt);
    SweepAfterTick(w.step, w.cnt);
    assert (m + 1) * w.step == m * w.step + w.step;
  }

  /** A tick changes the due date only of the slot it empties. */
  lemma TickDue<T>(w: Wheel<T>, r: nat, t: nat)
    requires OnSchedule(w) && r < |w.buckets| && t < BUCKETS && Tick(w).buckets[r][t] != {}
    ensures Due(Tick(w), t) == Due(w, t) && w.buckets[r][t] != {}
  {
    var m := SweepAfter(w.step, w.cnt);
    SweepAfterTick(w.step, w.cnt);
    if w.cnt + 1 == w.cleanIdx {
      DivModUnique(w.cnt + 1, w.step, m, 0);
      NextSweepAdvance(m, t);
    }
  }

  /** A tick keeps the schedule and any promise about when slots are swept. */
  lemma TickSchedule<T>(w: Wheel<T>, bound: nat)
    requires OnSchedule(w) && SweptBy(w, bound)
    ensures OnSchedule(Tick(w)) && SweptBy(Tick(w), bound)
  {
    TickOnSchedule(w);
    forall r, t | 0 <= r < |w.buckets| && 0 <= t < BUCKETS && Tick(w).buckets[r][t] != {}
      ensures Due(Tick(w), t) <= bound
    {
      TickDue(w, r, t);
    }
  }

  lemma TickInv<T>(w: Wheel<T>)
    requires Inv(w)
    ensures Inv(Tick(w))
  {
    var w' := Tick(w);
    assert SweptBy(w, w.cnt + 1 + w.duration);
    TickSchedule(w, w.cnt + 1 + w.duration);
    forall r, k | 0 <= r < |w'.repos| && k in w'.repos[r]
      ensures Filed(w'.buckets[r], k)
    {
      assert k in w.repos[r];
      var t :| 0 <= t < |w.buckets[r]| && k in w.buckets[r][t];
      assert k in w'.buckets[r][t];
    }
  }

  /** Schedule, no leak and the sweep bound hold after every run of puts, hits, ties and ticks. */
  lemma {:induction false} RunInv<T>(w: Wheel<T>, ops: seq<Op<T>>)
    requires Inv(w) && EnabledAll(w, ops)
    ensures Inv(Run(w, ops))
    decreases |ops|
  {
    if ops != [] {
      var before := Run(w, ops[..|ops| - 1]);
      RunInv(w, ops[..|ops| - 1]);
      match ops[|ops| - 1]
      case Touching(repo, key, item) => TouchInv(before, repo, key, item);
      case Ticking => TickInv(before);
    }
  }

  // ------------------------------------------------------------------
  // No leak: an idle cache empties itself within `duration` ticks
  // ------------------------------------------------------------------

  function Idle<T>(n: nat): seq<Op<T>> {
    seq(n, i => Ticking)
  }

  predicate Empty<T>(w: Wheel<T>)
    requires Shaped(w)
  {
    && (forall r :: 0 <= r < |w.repos| ==> w.repos[r] == map[])
    && (forall r, t :: 0 <= r < |w.buckets| && 0 <= t < BUCKETS ==> w.buckets[r][t] == {})
  }

  lemma {:induction false} IdleRun<T>(w: Wheel<T>, n: nat, bound: nat)
    requires Inv(w) && SweptBy(w, bound)
    ensures var w' := Run(w, Idle<T>(n)); Inv(w') && SweptBy(w', bound) && w'.cnt == w.cnt + n
  {
    if n > 0 {
      IdleRun(w, n - 1, bound);
      assert Idle<T>(n)[..n - 1] == Idle<T>(n - 1);
      var before := Run(w, Idle<T>(n - 1));
      TickInv(before);
      TickSchedule(before, bound);
    }
  }

  /** Once the sweep bound has passed there is nothing left. */
  lemma SweptMeansEmpty<T>(w: Wheel<T>)
    requires Inv(w) && SweptBy(w, w.cnt)
    ensures Empty(w)
  {
    forall r, t | 0 <= r < |w.buckets| && 0 <= t < BUCKETS
      ensures w.buckets[r][t] == {}
    {
      SweepAfterBounds(w.step, w.cnt);
      MulMono(SweepAfter(w.step, w.cnt), NextSweep(SweepAfter(w.step, w.cnt), t), w.step);
      assert Due(w, t) > w.cnt;
    }
    forall r | 0 <= r < |w.repos|
      ensures w.repos[r] == map[]
    {
      assert forall k :: k in w.repos[r] ==> Filed(w.buckets[r], k);
    }
  }

  /** For every duration, `duration` ticks without a put or hit leave all repos and buckets empty. */
  lemma IdleDrains<T>(w: Wheel<T>, n: nat)
    requires Inv(w) && n >= w.duration
    ensures Empty(Run(w, Idle<T>(n)))
  {
    IdleRun(w, n, w.cnt + w.duration);
    SweptMeansEmpty(Run(w, Idle<T>(n)));
  }

  // ------------------------------------------------------------------
  // What is stored under a key
  // ------------------------------------------------------------------

  /** No operation puts another item in the place of a stored one, and only a touch of the key stores it. */
  lemma StepKeepsItem<T>(w: Wheel<T>, op: Op<T>, repo: nat, key: string)
    requires Shaped(w) && Enabled(w, op) && repo < |w.repos| && key in Step(w, op).repos[repo]
    ensures var item := Step(w, op).repos[repo][key];
            if key in w.repos[repo] then item == w.repos[repo][key] else op == Touching(repo, key, item)
  {
  }

  /** After any run, what is stored under a key is what was stored before, or what some touch of the key stored. */
  lemma {:induction false} RunKeepsItem<T>(w: Wheel<T>, ops: seq<Op<T>>, repo: nat, key: string)
    requires Shaped(w) && EnabledAll(w, ops) && repo < |w.repos| && key in Run(w, ops).repos[repo]
    ensures var item := Run(w, ops).repos[repo][key];
            (key in w.repos[repo] && item == w.repos[repo][key]) || Touching(repo, key, item) in ops
    decreases |ops|
  {
    if ops != [] {
      var n := |ops| - 1;
      StepKeepsItem(Run(w, ops[..n]), ops[n], repo, key);
      if key in Run(w, ops[..n]).repos[repo] {
        RunKeepsItem(w, ops[..n], repo, key);
      }
    }
  }

  // ------------------------------------------------------------------
  // Exact lifetime
  // ------------------------------------------------------------------

  /** The slot that sweep k empties. */
  function SweptSlot(k: nat): (slot: nat)
    ensures slot < BUCKETS
  {
    k % BUCKETS
  }

  /** Sweep e, the next one of its slot, finds an entry of (repo, key). */
  predicate Booked<T>(w: Wheel<T>, repo: nat, key: string, e: nat)
    requires Shaped(w) && repo < |w.repos|
  {
    && SweepAfter(w.step, w.cnt) <= e < SweepAfter(w.step, w.cnt) + BUCKETS
    && key in w.buckets[repo][SweptSlot(e)]
  }

  /** (repo, key) is stored, and the first sweep to come that hits one of its entries is number e. */
  predicate EvictedBy<T>(w: Wheel<T>, repo: nat, key: string, e: nat)
    requires Shaped(w) && repo < |w.repos|
  {
    var m := SweepAfter(w.step, w.cnt);
    && key in w.repos[repo]
    && Booked(w, repo, key, e)
    && (forall k :: m <= k < e ==> key !in w.buckets[repo][SweptSlot(k)])
  }

  lemma EvictionAhead<T>(w: Wheel<T>, repo: nat, key: string, e: nat)
    requires OnSchedule(w) && repo < |w.repos| && Booked(w, repo, key, e)
    ensures w.cnt < w.cleanIdx <= e * w.step
    ensures w.cleanIdx == e * w.step <==> e == SweepAfter(w.step, w.cnt)
  {
    var m := SweepAfter(w.step, w.cnt);
    SweepAfterBounds(w.step, w.cnt);
    MulMono(m, e, w.step);
    if m < e {
      MulMono(m + 1, e, w.step);
    }
  }

  /** What a sweeping tick empties. */
  lemma SweepingTick<T>(w: Wheel<T>)
    requires OnSchedule(w) && w.cnt + 1 == w.cleanIdx
    ensures Slot(w.cnt + 1, w.step) == SweptSlot(SweepAfter(w.step, w.cnt))
    ensures SweepAfter(w.step, w.cnt + 1) == SweepAfter(w.step, w.cnt) + 1
  {
    DivModUnique(w.cnt + 1, w.step, SweepAfter(w.step, w.cnt), 0);
    SweepAfterTick(w.step, w.cnt);
  }

  /** Less than a turn apart, two sweeps empty different slots. */
  lemma SlotsDiffer(m: nat, e: nat)
    requires m < e < m + BUCKETS
    ensures SweptSlot(m) != SweptSlot(e)
  {
  }

  lemma TickKeepsBooking<T>(w: Wheel<T>, repo: nat, key: string, e: nat)
    requires OnSchedule(w) && repo < |w.repos| && Booked(w, repo, key, e)
    requires w.cnt + 1 < e * w.step
    ensures Booked(Tick(w), repo, key, e)
  {
    var m := SweepAfter(w.step, w.cnt);
    EvictionAhead(w, repo, key, e);
    if w.cnt + 1 == w.cleanIdx {
      SweepingTick(w);
      SlotsDiffer(m, e);
    } else {
      SweepAfterTick(w.step, w.cnt);
    }
  }

  /** A tick before sweep e keeps the appointment. */
  lemma TickKeepsEviction<T>(w: Wheel<T>, repo: nat, key: string, e: nat)
    requires OnSchedule(w) && repo < |w.repos| && EvictedBy(w, repo, key, e)
    requires w.cnt + 1 < e * w.step
    ensures EvictedBy(Tick(w), repo, key, e)
  {
    var m := SweepAfter(w.step, w.cnt);
    TickKeepsBooking(w, repo, key, e);
    EvictionAhead(w, repo, key, e);
    if w.cnt + 1 == w.cleanIdx {
      SweepingTick(w);
      assert key !in w.buckets[repo][SweptSlot(m)];
    } else {
      SweepAfterTick(w.step, w.cnt);
    }
  }

  /** The tick of sweep e removes the key. */
  lemma TickEvicts<T>(w: Wheel<T>, repo: nat, key: string, e: nat)
    requires OnSchedule(w) && repo < |w.repos| && Booked(w, repo, key, e)
    requires w.cnt + 1 == e * w.step
    ensures key !in Tick(w).repos[repo]
  {
    EvictionAhead(w, repo, key, e);
    SweepingTick(w);
  }

  predicate Misses<T>(op: Op<T>, repo: nat, key: string) {
    op.Touching? ==> op.repo != repo || op.key != key
  }

  /** A target of sweep e or later, within one turn, is in none of the slots swept before e. */
  lemma HitFilesLater(duration: nat, c: nat, e: nat)
    requires duration >= BUCKETS - 1
    requires duration <= BUCKETS * (duration / (BUCKETS - 1))
    requires e <= (c + duration) / (duration / (BUCKETS - 1))
    ensures var step := duration / (BUCKETS - 1);
            forall k :: SweepAfter(step, c) <= k < e ==> SweptSlot(k) != Slot(c + duration, step)
  {
    var step := duration / (BUCKETS - 1);
    var m, target := SweepAfter(step, c), (c + duration) / step;
    TargetWithinTwoTurns(duration, c);
    assert Slot(c + duration, step) == SweptSlot(target);
    forall k | m <= k < e
      ensures SweptSlot(k) != SweptSlot(target)
    {
      SlotsDiffer(k, target);
    }
  }

  /** Any put or hit that files nothing earlier than sweep e leaves the appointment alone. */
  lemma TouchKeepsEviction<T>(w: Wheel<T>, op: Op<T>, repo: nat, key: string, e: nat)
    requires OnSchedule(w) && op.Touching? && Enabled(w, op) && repo < |w.repos| && EvictedBy(w, repo, key, e)
    requires Misses(op, repo, key) || (w.duration <= BUCKETS * w.step && e <= (w.cnt + w.duration) / w.step)
    ensures EvictedBy(Step(w, op), repo, key, e)
  {
    if !Misses(op, repo, key) {
      HitFilesLater(w.duration, w.cnt, e);
    }
  }

  /** The traffic under which the first eviction date stands. */
  predicate Undisturbing<T>(w: Wheel<T>, ops: seq<Op<T>>, repo: nat, key: string) {
    w.duration <= BUCKETS * w.step || forall i :: 0 <= i < |ops| ==> Misses(ops[i], repo, key)
  }

  lemma {:induction false} RunTowardsEviction<T>(w: Wheel<T>, ops: seq<Op<T>>, repo: nat, key: string, e: nat)
    requires Inv(w) && EnabledAll(w, ops) && repo < |w.repos| && EvictedBy(w, repo, key, e)
    requires e <= (w.cnt + w.duration) / w.step
    requires Undisturbing(w, ops, repo, key)
    ensures Inv(Run(w, ops)) && w.cnt <= Run(w, ops).cnt
    ensures Run(w, ops).cnt < e * w.step ==> EvictedBy(Run(w, ops), repo, key, e)
    decreases |ops|
  {
    if ops != [] {
      var before, op := Run(w, ops[..|ops| - 1]), ops[|ops| - 1];
      RunTowardsEviction(w, ops[..|ops| - 1], repo, key, e);
      RunInv(w, ops);
      assert before.cnt <= Run(w, ops).cnt;
      if Run(w, ops).cnt < e * w.step {
        if op.Ticking? {
          TickKeepsEviction(before, repo, key, e);
        } else {
          DivMono(w.cnt + w.duration, before.cnt + w.duration, w.step);
          TouchKeepsEviction(before, op, repo, key, e);
        }
      }
    }
  }

  /** Every touch books the next sweep of its slot. */
  lemma TouchBooks<T>(w: Wheel<T>, repo: nat, key: string, item: T) returns (e: nat)
    requires OnSchedule(w) && repo < |w.repos|
    ensures e == NextSweep(SweepAfter(w.step, w.cnt), Slot(w.cnt + w.duration, w.step))
    ensures Shaped(Touch(w, repo, key, item)) && Booked(Touch(w, repo, key, item), repo, key, e)
    ensures e <= (w.cnt + w.duration) / w.step && e * w.step == EvictionTick(w.duration, w.cnt)
  {
    var m, target := SweepAfter(w.step, w.cnt), (w.cnt + w.duration) / w.step;
    var slot := Slot(w.cnt + w.duration, w.step);
    e := NextSweep(m, slot);
    assert m <= target by { TargetAhead(w.duration, w.cnt); }
    NextSweepIsFirst(m, slot, target);
  }

  /** A first put has no earlier appointment than that. */
  lemma FirstPut<T>(w: Wheel<T>, repo: nat, key: string, item: T) returns (e: nat)
    requires OnSchedule(w) && repo < |w.repos| && !Filed(w.buckets[repo], key)
    ensures Shaped(Touch(w, repo, key, item)) && EvictedBy(Touch(w, repo, key, item), repo, key, e)
    ensures e <= (w.cnt + w.duration) / w.step && e * w.step == EvictionTick(w.duration, w.cnt)
  {
    var put := Touch(w, repo, key, item);
    var m, slot := SweepAfter(w.step, w.cnt), Slot(w.cnt + w.duration, w.step);
    e := TouchBooks(w, repo, key, item);
    forall k | m <= k < e
      ensures key !in put.buckets[repo][SweptSlot(k)]
    {
      if SweptSlot(k) == slot {
        NextSweepIsFirst(m, slot, k);
      }
    }
  }

  /**
   A key with no bucket entries, first put at count c, survives every tick before
   EvictionTick(duration, c) and is removed at exactly that tick. With duration <= 16 * step
   this holds under all traffic, hits on the key included; beyond, under traffic that
   leaves the key alone.
   */
  lemma ExactLifetime<T>(w: Wheel<T>, repo: nat, key: string, item: T, ops: seq<Op<T>>)
    requires Inv(w) && repo < |w.repos| && !Filed(w.buckets[repo], key)
    requires EnabledAll(w, ops) && Undisturbing(w, ops, repo, key)
    ensures var end := EvictionTick(w.duration, w.cnt);
            var w' := Run(Touch(w, repo, key, item), ops);
            && (w'.cnt < end ==> key in w'.repos[repo])
            && (w'.cnt + 1 == end ==> key !in Tick(w').repos[repo])
  {
    var put := Touch(w, repo, key, item);
    var e := FirstPut(w, repo, key, item);
    TouchInv(w, repo, key, item);
    RunTowardsEviction(put, ops, repo, key, e);
    var w' := Run(put, ops);
    if w'.cnt + 1 == e * w.step {
      TickEvicts(w', repo, key, e);
    }
  }

  lemma {:induction false} RunKeepsBooking<T>(w: Wheel<T>, ops: seq<Op<T>>, repo: nat, key: string, e: nat)
    requires Inv(w) && EnabledAll(w, ops) && repo < |w.repos| && Booked(w, repo, key, e)
    ensures Run(w, ops).cnt < e * w.step ==> Booked(Run(w, ops), repo, key, e)
    decreases |ops|
  {
    if ops != [] {
      var before := Run(w, ops[..|ops| - 1]);
      RunKeepsBooking(w, ops[..|ops| - 1], repo, key, e);
      RunInv(w, ops[..|ops| - 1]);
      if ops[|ops| - 1].Ticking? && before.cnt + 1 < e * w.step {
        TickKeepsBooking(before, repo, key, e);
      }
    }
  }

  /** Whatever the duration and whatever the traffic, no hit or put postpones the first scheduled eviction. */
  lemma NeverPostponed<T>(w: Wheel<T>, repo: nat, key: string, item: T, ops: seq<Op<T>>)
    requires Inv(w) && repo < |w.repos| && !Filed(w.buckets[repo], key) && EnabledAll(w, ops)
    ensures var w' := Run(Touch(w, repo, key, item), ops);
            w'.cnt + 1 == EvictionTick(w.duration, w.cnt) ==> key !in Tick(w').repos[repo]
  {
    var put := Touch(w, repo, key, item);
    var e := FirstPut(w, repo, key, item);
    TouchInv(w, repo, key, item);
    RunKeepsBooking(put, ops, repo, key, e);
    RunInv(put, ops);
    if Run(put, ops).cnt + 1 == e * w.step {
      TickEvicts(Run(put, ops), repo, key, e);
    }
  }

  /** The eviction tick in closed form: the target's sweep, or the one a whole turn earlier if that is still ahead. */
  lemma EvictionTickClosedForm(duration: nat, c: nat)
    requires duration >= BUCKETS - 1
    ensures var step := duration / (BUCKETS - 1);
            var target := (c + duration) / step;
            var early := target >= SweepAfter(step, c) + BUCKETS;
            && EvictionTick(duration, c) == (if early then target - BUCKETS else target) * step
            && (duration <= BUCKETS * step ==> !early)
  {
    var step := duration / (BUCKETS - 1);
    var target := (c + duration) / step;
    TargetAhead(duration, c);
    TargetWithinTwoTurns(duration, c);
    NextSweepIsFirst(SweepAfter(step, c), target % BUCKETS, target);
  }

  /** A lifetime of `duration`, up to one step. */
  predicate OnTime(duration: nat, c: nat)
    requires duration >= BUCKETS - 1
  {
    var step := duration / (BUCKETS - 1);
    c + duration - step < EvictionTick(duration, c) <= c + duration
  }

  /** A put at count c is on time exactly when the wheel does not reach its slot a turn early. */
  lemma OnTimeIff(duration: nat, c: nat)
    requires duration >= BUCKETS - 1
    ensures var step := duration / (BUCKETS - 1);
            OnTime(duration, c) <==> (c + duration) / step < SweepAfter(step, c) + BUCKETS
  {
    var step := duration / (BUCKETS - 1);
    var target := (c + duration) / step;
    EvictionTickClosedForm(duration, c);
    TargetAhead(duration, c);
    if target >= SweepAfter(step, c) + BUCKETS {
      TurnEarly(target, step);
    }
  }

  lemma TurnEarly(target: nat, step: nat)
    requires target >= BUCKETS
    ensures (target - BUCKETS) * step <= target * step - step
  {
    MulMono(target - BUCKETS, target - 1, step);
  }

  /** Every put is on time if and only if the duration fits in one turn of the wheel. */
  lemma AlwaysOnTimeIff(duration: nat)
    requires duration >= BUCKETS - 1
    ensures (forall c: nat :: OnTime(duration, c)) <==> duration <= 16 * (duration / 15)
  {
    var step := duration / (BUCKETS - 1);
    forall c: nat
      ensures duration <= BUCKETS * step ==> OnTime(duration, c)
    {
      OnTimeIff(duration, c);
      TargetWithinTwoTurns(duration, c);
    }
    if duration > BUCKETS * step {
      // the last count before sweep 16
      var c := BUCKETS * step - 1;
      assert c == (BUCKETS - 1) * step + (step - 1);
      DivModUnique(c, step, BUCKETS - 1, step - 1);
      assert SweepAfter(step, c) == BUCKETS;
      DivBounds(c + duration, step);
      if (c + duration) / step < 2 * BUCKETS {
        MulMono((c + duration) / step + 1, 2 * BUCKETS, step);
      }
      OnTimeIff(duration, c);
      assert !OnTime(duration, c);
    }
  }

  /** Which durations those are: 15 and 16, 30 to 32, 45 to 48 and so on; every one from 210 up. */
  lemma FitsFrom210(duration: nat)
    requires duration >= 210
    ensures duration <= BUCKETS * (duration / (BUCKETS - 1))
  {
  }

  // ------------------------------------------------------------------
  // When a hit can bring the eviction forward
  // ------------------------------------------------------------------

  /** A hit at count c', on a key put at c and not yet due, is itself swept before the put is. */
  predicate Hastens(duration: nat, c: nat, c': nat)
    requires duration >= BUCKETS - 1
  {
    c <= c' < EvictionTick(duration, c) && EvictionTick(duration, c') < EvictionTick(duration, c)
  }

  /** Sixteen steps and a bit: the entry of the last count before sweep 16 is swept a turn early. */
  lemma HastensAtSixteen(duration: nat, step: nat)
    requires duration >= BUCKETS - 1 && step == duration / (BUCKETS - 1)
    requires BUCKETS * step < duration < (BUCKETS + 1) * step
    ensures Hastens(duration, (BUCKETS - 1) * step, BUCKETS * step - 1)
  {
    var c, c' := (BUCKETS - 1) * step, BUCKETS * step - 1;
    DivModUnique(c, step, BUCKETS - 1, 0);
    DivModUnique(c + duration, step, 2 * BUCKETS - 1, duration - BUCKETS * step);
    DivModUnique(c', step, BUCKETS - 1, step - 1);
    DivModUnique(c' + duration, step, 2 * BUCKETS, duration - BUCKETS * step - 1);
    EvictionTickClosedForm(duration, c);
    EvictionTickClosedForm(duration, c');
  }

  lemma EvictionTickAtZero(duration: nat, step: nat)
    requires duration >= BUCKETS - 1 && step == duration / (BUCKETS - 1)
    ensures step > 0 && EvictionTick(duration, 0) == (duration / step) * step
  {
    TargetWithinTurns(duration, step);
    EvictionTickClosedForm(duration, 0);
  }

  lemma EvictionTickAtFourteen(duration: nat, step: nat)
    requires duration >= BUCKETS - 1 && step == duration / (BUCKETS - 1) && duration >= (BUCKETS + 1) * step
    ensures step > 0 && EvictionTick(duration, (BUCKETS - 2) * step) == (duration / step - 2) * step
  {
    var c', q := (BUCKETS - 2) * step, duration / step;
    DivModUnique(c', step, BUCKETS - 2, 0);
    assert c' + duration == (q + BUCKETS - 2) * step + duration % step;
    DivModUnique(c' + duration, step, q + BUCKETS - 2, duration % step);
    SeventeenSteps(duration, step);
    EvictionTickClosedForm(duration, c');
  }

  lemma SeventeenSteps(duration: nat, step: nat)
    requires step > 0 && duration >= (BUCKETS + 1) * step
    ensures duration / step >= BUCKETS + 1
  {
    DivMono((BUCKETS + 1) * step, duration, step);
    DivModUnique((BUCKETS + 1) * step, step, BUCKETS + 1, 0);
  }

  /** Seventeen steps or more: already the entry of count 14 * step is. */
  lemma HastensBeyond(duration: nat, step: nat)
    requires duration >= BUCKETS - 1 && step == duration / (BUCKETS - 1)
    requires duration >= (BUCKETS + 1) * step
    ensures Hastens(duration, 0, (BUCKETS - 2) * step)
  {
    EvictionTickAtZero(duration, step);
    EvictionTickAtFourteen(duration, step);
    SeventeenSteps(duration, step);
    ghost var q := duration / step;
    assert (q - 2) * step == q * step - 2 * step;
    MulMono(BUCKETS + 1, q, step);
  }

  lemma TargetWithinTurns(duration: nat, step: nat)
    requires duration >= BUCKETS - 1 && step == duration / (BUCKETS - 1)
    ensures step > 0 && duration / step < 2 * BUCKETS - 1
  {
    assert duration < (BUCKETS - 1) * step + (BUCKETS - 1) <= (2 * BUCKETS - 2) * step;
    DivBounds(duration, step);
    if duration / step >= 2 * BUCKETS - 1 {
      MulMono(2 * BUCKETS - 1, duration / step, step);
    }
  }

  /** Some hit can bring some eviction forward if and only if the duration does not fit in one turn. */
  lemma HastensIff(duration: nat)
    requires duration >= BUCKETS - 1
    ensures (exists c: nat, c': nat :: Hastens(duration, c, c')) <==> duration > 16 * (duration / 15)
  {
    var step := duration / (BUCKETS - 1);
    if duration > BUCKETS * step {
      var c, c' := HasteningHit(duration);
      assert Hastens(duration, c, c');
    } else {
      forall c: nat, c': nat | c <= c'
        ensures !Hastens(duration, c, c')
      {
        EvictionTickClosedForm(duration, c);
        EvictionTickClosedForm(duration, c');
        DivMono(c + duration, c' + duration, step);
        MulMono((c + duration) / step, (c' + duration) / step, step);
      }
    }
  }

  lemma HasteningHit(duration: nat) returns (c: nat, c': nat)
    requires duration >= BUCKETS - 1 && duration > BUCKETS * (duration / (BUCKETS - 1))
    ensures Hastens(duration, c, c')
  {
    var step := duration / (BUCKETS - 1);
    if duration < (BUCKETS + 1) * step {
      HastensAtSixteen(duration, step);
      c, c' := (BUCKETS - 1) * step, BUCKETS * step - 1;
    } else {
      HastensBeyond(duration, step);
      c, c' := 0, (BUCKETS - 2) * step;
    }
  }

  /** The key is present before its date, for one reachable wheel, one first put and one run of traffic after it. */
  predicate StandsIn<T>(cap: nat, duration: nat, before: seq<Op<T>>, repo: nat, key: string, item: T, ops: seq<Op<T>>)
    requires duration >= BUCKETS - 1
  {
    var start := Start<T>(cap, duration);
    EnabledAll(start, before) && repo < cap && EnabledAll(start, ops) ==>
      var w := Run(start, before);
      !Filed(w.buckets[repo], key) ==>
        var w' := Run(Step(w, Touching(repo, key, item)), ops);
        w'.cnt < EvictionTick(duration, w.cnt) ==> key in w'.repos[repo]
  }

  /** No traffic whatever, from any reachable state, removes a key before the date of its first put. */
  ghost predicate DatesStand<T(!new)>(duration: nat)
    requires duration >= BUCKETS - 1
  {
    forall cap: nat, before: seq<Op<T>>, repo: nat, key: string, item: T, ops: seq<Op<T>> ::
      StandsIn(cap, duration, before, repo, key, item, ops)
  }

  lemma {:induction false} RunConcat<T>(w: Wheel<T>, a: seq<Op<T>>, b: seq<Op<T>>)
    requires Shaped(w) && EnabledAll(w, a) && EnabledAll(w, b)
    ensures EnabledAll(w, a + b) && Run(w, a + b) == Run(Run(w, a), b)
    decreases |b|
  {
    if b == [] {
      assert a + b == a;
    } else {
      var n := |b| - 1;
      RunConcat(w, a, b[..n]);
      assert (a + b)[..|a + b| - 1] == a + b[..n];
    }
  }

  /** From a touch on, idle ticks up to its eviction tick remove the key. */
  lemma TouchedThenIdle<T>(w: Wheel<T>, repo: nat, key: string, item: T) returns (n: nat)
    requires Inv(w) && repo < |w.repos|
    ensures var w' := Run(Step(w, Touching(repo, key, item)), Idle<T>(n));
            w'.cnt == EvictionTick(w.duration, w.cnt) && key !in w'.repos[repo]
  {
    var hit := Touch(w, repo, key, item);
    var e := TouchBooks(w, repo, key, item);
    TouchInv(w, repo, key, item);
    EvictionAhead(hit, repo, key, e);
    n := e * w.step - w.cnt;
    assert Idle<T>(n)[..n - 1] == Idle<T>(n - 1);
    IdleRun(hit, n - 1, w.cnt + w.duration);
    RunKeepsBooking(hit, Idle<T>(n - 1), repo, key, e);
    TickEvicts(Run(hit, Idle<T>(n - 1)), repo, key, e);
  }

  /** A put at count c, a hit at c', and nothing else: the key is gone at the hit's own eviction tick. */
  lemma PutThenHit<T>(w: Wheel<T>, c': nat, repo: nat, key: string, item: T) returns (ops: seq<Op<T>>)
    requires Inv(w) && repo < |w.repos| && w.cnt <= c'
    ensures EnabledAll(w, ops)
    ensures var w' := Run(Step(w, Touching(repo, key, item)), ops);
            w'.cnt == EvictionTick(w.duration, c') && key !in w'.repos[repo]
  {
    var op, m := Touching(repo, key, item), c' - w.cnt;
    var put := Step(w, op);
    TouchInv(w, repo, key, item);
    ops := IdleThenHit(put, m, w.cnt + w.duration, repo, key, item);
  }

  lemma IdleThenHit<T>(w: Wheel<T>, m: nat, bound: nat, repo: nat, key: string, item: T) returns (ops: seq<Op<T>>)
    requires Inv(w) && SweptBy(w, bound) && repo < |w.repos|
    ensures EnabledAll(w, ops)
    ensures var w' := Run(w, ops); w'.cnt == EvictionTick(w.duration, w.cnt + m) && key !in w'.repos[repo]
  {
    IdleRun(w, m, bound);
    var n := TouchedThenIdle(Run(w, Idle<T>(m)), repo, key, item);
    RunAround(w, m, Touching(repo, key, item), n);
    ops := Idle<T>(m) + [Touching(repo, key, item)] + Idle<T>(n);
  }

  lemma RunAround<T>(w: Wheel<T>, m: nat, op: Op<T>, n: nat)
    requires Shaped(w) && Enabled(w, op)
    ensures var ops := Idle<T>(m) + [op] + Idle<T>(n);
            EnabledAll(w, ops) && Run(w, ops) == Run(Step(Run(w, Idle<T>(m)), op), Idle<T>(n))
  {
    RunConcat(w, Idle<T>(m), [op]);
    assert [op][..0] == [];
    RunConcat(w, Idle<T>(m) + [op], Idle<T>(n));
  }

  /** The run behind HastensIff: idle until c, put, idle until c', hit, idle until the hit's own eviction tick. */
  lemma HastenedRun<T>(duration: nat, c: nat, c': nat, key: string, item: T) returns (ops: seq<Op<T>>)
    requires duration >= BUCKETS - 1 && Hastens(duration, c, c')
    ensures !StandsIn(1, duration, Idle<T>(c), 0, key, item, ops)
  {
    var start := Start<T>(1, duration);
    StartInv<T>(1, duration);
    EmptyIdle(start, c);
    var w := Run(start, Idle<T>(c));
    assert !Filed(w.buckets[0], key);
    ops := PutThenHit(w, c', 0, key, item);
  }

  lemma {:induction false} EmptyIdle<T>(w: Wheel<T>, n: nat)
    requires Inv(w) && Empty(w)
    ensures var w' := Run(w, Idle<T>(n)); Inv(w') && Empty(w') && w'.cnt == w.cnt + n
  {
    if n > 0 {
      EmptyIdle(w, n - 1);
      assert Idle<T>(n)[..n - 1] == Idle<T>(n - 1);
      TickInv(Run(w, Idle<T>(n - 1)));
    }
  }

  /**
   The first eviction date stands under all traffic, hits on the key included, from every
   reachable state, if and only if the duration fits in one turn of the wheel.
   */
  lemma DatesStandIff<T(!new)>(duration: nat, item: T)
    requires duration >= BUCKETS - 1
    ensures DatesStand<T>(duration) <==> duration <= 16 * (duration / 15)
  {
    if duration <= BUCKETS * (duration / (BUCKETS - 1)) {
      forall cap: nat, before: seq<Op<T>>, repo: nat, key: string, item: T, ops: seq<Op<T>>
        ensures StandsIn(cap, duration, before, repo, key, item, ops)
      {
        FittingStands(cap, duration, before, repo, key, item, ops);
      }
    } else {
      var c, c' := HasteningHit(duration);
      var ops := HastenedRun(duration, c, c', "k", item);
      assert !StandsIn(1, duration, Idle<T>(c), 0, "k", item, ops);
    }
  }

  lemma FittingStands<T>(cap: nat, duration: nat, before: seq<Op<T>>, repo: nat, key: string, item: T, ops: seq<Op<T>>)
    requires duration >= BUCKETS - 1 && duration <= BUCKETS * (duration / (BUCKETS - 1))
    ensures StandsIn(cap, duration, before, repo, key, item, ops)
  {
    var start := Start<T>(cap, duration);
    if EnabledAll(start, before) && repo < cap && EnabledAll(start, ops) {
      StartInv<T>(cap, duration);
      RunInv(start, before);
      var w := Run(start, before);
      if !Filed(w.buckets[repo], key) {
        ExactLifetime(w, repo, key, item, ops);
      }
    }
  }
}
