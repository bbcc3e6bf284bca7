/**
 The id generator of common/uid/snowflake.go.

 A call reads the clock, and what decides its outcome is one number: the millisecond it
 settles on. `Advance` is the state change for a settled millisecond, `Settle` says which
 one a given set of clock readings leads to, and uniqueness is a statement about the
 whole sequence of settled milliseconds.
 */
module Snowflake {
  import opened Arith

  const BASE_TS := 1530687318000
  const MAX_WORKER_ID := 1023
  const SEQ_MASK := 4095
  const TS_UNIT := 0x40_0000    // 1 << (SeqLen + WorkerLen)
  const SEQ_UNIT := 0x400       // 1 << WorkerLen
  const NANOS := 1_000_000

  datatype Gen = Gen(idStart: nat, idEnd: nat, idCur: nat, lastTs: int, seqNo: nat)

  predicate ValidGen(g: Gen) {
    g.idStart <= g.idCur <= g.idEnd <= MAX_WORKER_ID && g.seqNo < SEQ_MASK && g.lastTs >= -1
  }

  predicate Fresh(g: Gen) {
    ValidGen(g) && g.lastTs == -1 && g.seqNo == 0 && g.idCur == g.idStart
  }

  /** Two's complement int64. */
  function Wrap64(x: int): int {
    (x + 0x8000_0000_0000_0000) % 0x1_0000_0000_0000_0000 - 0x8000_0000_0000_0000
  }

  /** (ts-BaseTs)<<TsShift | seq<<SeqShift | worker in int64; the fields do not overlap, so | is + (FieldsAreDisjoint). */
  function Pack(ts: int, seqNo: nat, worker: nat): int {
    Wrap64((ts - BASE_TS) * TS_UNIT + seqNo * SEQ_UNIT + worker)
  }

  function Id(g: Gen): int {
    Pack(g.lastTs, g.seqNo, g.idCur)
  }

  predicate InRange(ts: int) {
    0 <= ts - BASE_TS < 0x200_0000_0000
  }

  /** One call that settles on millisecond ts. */
  function Advance(g: Gen, ts: int): Gen {
    if ts == g.lastTs && (g.seqNo + 1) % SEQ_MASK != 0 then g.(seqNo := (g.seqNo + 1) % SEQ_MASK)
    else if ts == g.lastTs && g.idCur < g.idEnd then g.(seqNo := 0, idCur := g.idCur + 1)
    else g.(seqNo := 0, idCur := g.idStart, lastTs := ts)
  }

  /** The clock as one call sees it: a reading, a second one after a skew sleep, and nanosecond readings of the wait loop. */
  datatype Clock = Clock(first: nat, reread: nat, spins: seq<nat>)

  /** The wait loop ends: some reading is past `cur`. */
  predicate Passes(spins: seq<nat>, cur: int) {
    exists i :: 0 <= i < |spins| && spins[i] > cur
  }

  function FirstPast(spins: seq<nat>, cur: int): (n: nat)
    requires Passes(spins, cur)
    ensures n > cur
  {
    if spins[0] > cur then spins[0] else FirstPast(spins[1..], cur)
  }

  function Reading(g: Gen, clock: Clock): nat {
    if clock.first < g.lastTs then clock.reread else clock.first
  }

  predicate Exhausted(g: Gen) {
    (g.seqNo + 1) % SEQ_MASK == 0 && g.idCur == g.idEnd
  }

  predicate Terminates(g: Gen, clock: Clock) {
    Reading(g, clock) == g.lastTs && Exhausted(g) ==> Passes(clock.spins, g.lastTs * NANOS)
  }

  /** The millisecond a call settles on. */
  function Settle(g: Gen, clock: Clock): nat
    requires ValidGen(g) && Terminates(g, clock)
  {
    if Reading(g, clock) == g.lastTs && Exhausted(g)
    then FirstPast(clock.spins, g.lastTs * NANOS) / NANOS
    else Reading(g, clock)
  }

  class UidGenerator {
    var idStart: nat
    var idEnd: nat
    var idCur: nat
    var lastTs: int
    var seqNo: nat

    ghost function Abs(): Gen
      reads this
    {
      Gen(idStart, idEnd, idCur, lastTs, seqNo)
    }

    /** NewIdGenerator panics on any other range. */
    constructor (start: nat, end: nat)
      requires start <= end <= 1023
      ensures Fresh(Abs()) && idStart == start && idEnd == end
    {
      idStart, idEnd, idCur, lastTs, seqNo := start, end, start, -1, 0;
    }

    /** Next: settles on a millisecond, and hands out the state's id. */
    method Next(clock: Clock) returns (id: int)
      requires ValidGen(Abs()) && Terminates(Abs(), clock)
      modifies this
      ensures ValidGen(Abs())
      ensures lastTs == Settle(old(Abs()), clock)
      ensures Abs() == Advance(old(Abs()), lastTs)
      ensures id == Id(Abs())
    {
      var now := clock.first;
      if now < lastTs {
        now := clock.reread;
      }
      if now == lastTs {
        seqNo := (seqNo + 1) % SEQ_MASK;
        if seqNo == 0 {
          if idCur < idEnd {
            idCur := idCur + 1;
          } else {
            var cur := lastTs * NANOS;
            var k := 0;
            while clock.spins[k] <= cur
              invariant 0 <= k < |clock.spins|
              invariant Passes(clock.spins[k..], cur)
              invariant FirstPast(clock.spins[k..], cur) == FirstPast(clock.spins, cur)
              decreases |clock.spins| - k
            {
              assert clock.spins[k..][1..] == clock.spins[k + 1..];
              k := k + 1;
            }
            now := clock.spins[k] / NANOS;
            seqNo := 0;
            idCur := idStart;
          }
        }
      } else {
        seqNo := 0;
        idCur := idStart;
      }
      lastTs := now;
      id := Pack(now, seqNo, idCur);
    }
  }

  // ------------------------------------------------------------------
  // Bit layout
  // ------------------------------------------------------------------

  /** On 64-bit words the shifted fields can be or-ed or added alike, whatever the timestamp. */
  lemma FieldsAreDisjoint(a: bv64, b: bv64, c: bv64)
    requires b <= 0xFFF && c <= 0x3FF
    ensures (a << 22) | (b << 10) | c == a * 0x40_0000 + b * 0x400 + c
  {
  }

  /** Inside the 41-bit window nothing overflows and all three fields decode. */
  lemma Decode(ts: int, seqNo: nat, worker: nat)
    requires InRange(ts) && seqNo <= SEQ_MASK && worker <= MAX_WORKER_ID
    ensures var id := Pack(ts, seqNo, worker);
            && 0 <= id < 0x8000_0000_0000_0000
            && id / 4194304 + 1530687318000 == ts
            && (id / 1024) % 4096 == seqNo
            && id % 1024 == worker
  {
    var low := seqNo * SEQ_UNIT + worker;
    var id := (ts - BASE_TS) * TS_UNIT + low;
    assert Pack(ts, seqNo, worker) == id;
    DivModUnique(id, TS_UNIT, ts - BASE_TS, low);
    assert id == ((ts - BASE_TS) * 0x1000 + seqNo) * SEQ_UNIT + worker;
    DivModUnique(id, SEQ_UNIT, (ts - BASE_TS) * 0x1000 + seqNo, worker);
    DivModUnique((ts - BASE_TS) * 0x1000 + seqNo, 0x1000, ts - BASE_TS, seqNo);
  }

  /** On any timestamp the id is an int64, equal to the sum of the fields modulo 2^64. */
  lemma PackWraps(ts: int, seqNo: nat, worker: nat)
    ensures var id := Pack(ts, seqNo, worker);
            && -0x8000_0000_0000_0000 <= id < 0x8000_0000_0000_0000
            && ((ts - 1530687318000) * 4194304 + seqNo * 1024 + worker - id) % 0x1_0000_0000_0000_0000 == 0
  {
    var x := (ts - BASE_TS) * TS_UNIT + seqNo * SEQ_UNIT + worker;
    var turns := (x + 0x8000_0000_0000_0000) / 0x1_0000_0000_0000_0000;
    assert x - Pack(ts, seqNo, worker) == turns * 0x1_0000_0000_0000_0000;
    DivModUnique(x - Pack(ts, seqNo, worker), 0x1_0000_0000_0000_0000, turns, 0);
  }

  /** The worker id survives even a timestamp that overflows. */
  lemma DecodeWorker(ts: int, seqNo: nat, worker: nat)
    requires worker <= MAX_WORKER_ID
    ensures Pack(ts, seqNo, worker) % SEQ_UNIT == worker
  {
    var x := (ts - BASE_TS) * TS_UNIT + seqNo * SEQ_UNIT + worker;
    var turns := (x + 0x8000_0000_0000_0000) / 0x1_0000_0000_0000_0000;
    var high := (ts - BASE_TS) * 0x1000 + seqNo - turns * 0x40_0000_0000_0000;
    assert Pack(ts, seqNo, worker) == x - turns * 0x1_0000_0000_0000_0000 == high * SEQ_UNIT + worker;
    DivModUnique(Pack(ts, seqNo, worker), SEQ_UNIT, high, worker);
  }

  // ------------------------------------------------------------------
  // Whole runs
  // ------------------------------------------------------------------

  /** The ids a millisecond can hold. */
  function Capacity(g: Gen): nat
    requires ValidGen(g)
  {
    SEQ_MASK * (g.idEnd - g.idStart + 1)
  }

  /** How many ids of the current millisecond precede the last one, modulo the capacity. */
  function Rank(g: Gen): (r: nat)
    requires ValidGen(g)
    ensures r < Capacity(g)
  {
    SEQ_MASK * (g.idCur - g.idStart) + g.seqNo
  }

  function After(g: Gen, ts: seq<nat>): (g': Gen)
    requires ValidGen(g)
    ensures ValidGen(g') && g'.idStart == g.idStart && g'.idEnd == g.idEnd
    ensures ts != [] ==> g'.lastTs == ts[|ts| - 1]
    decreases |ts|
  {
    if ts == [] then g else Advance(After(g, ts[..|ts| - 1]), ts[|ts| - 1])
  }

  /** The i-th id of a run that settles on the milliseconds ts. */
  function IdAt(g: Gen, ts: seq<nat>, i: nat): int
    requires ValidGen(g) && i < |ts|
  {
    Id(After(g, ts[..i + 1]))
  }

  predicate AllDistinct(g: Gen, ts: seq<nat>)
    requires ValidGen(g)
  {
    forall i, j :: 0 <= i < j < |ts| ==> IdAt(g, ts, i) != IdAt(g, ts, j)
  }

  /** How many calls just before the i-th settled on the same millisecond. */
  function Pos(ts: seq<nat>, i: nat): (p: nat)
    requires i < |ts|
    ensures p <= i
  {
    if i > 0 && ts[i - 1] == ts[i] then Pos(ts, i - 1) + 1 else 0
  }

  /** The clock never comes back to a millisecond it has left. */
  predicate NoReturn(ts: seq<nat>) {
    forall i, k, j :: 0 <= i < k < j < |ts| && ts[i] == ts[j] ==> ts[k] == ts[i]
  }

  predicate WithinCapacity(g: Gen, ts: seq<nat>)
    requires ValidGen(g)
  {
    forall i :: 0 <= i < |ts| ==> Pos(ts, i) < Capacity(g)
  }

  predicate AllInRange(ts: seq<nat>) {
    forall i :: 0 <= i < |ts| ==> InRange(ts[i])
  }

  /** A call in the same millisecond moves to the next rank, wrapping at the capacity. */
  lemma AdvanceRank(g: Gen, ts: nat)
    requires ValidGen(g)
    ensures ValidGen(Advance(g, ts))
    ensures Rank(Advance(g, ts)) == if ts != g.lastTs || Rank(g) + 1 == Capacity(g) then 0 else Rank(g) + 1
  {
  }

  /** p modulo the capacity c. */
  function Turn(p: nat, c: nat): nat
    requires c > 0
  {
    p % c
  }

  /** Closed form: the i-th id of a run is the one of rank Pos(ts, i) modulo the capacity. */
  lemma {:induction false} RankAt(g: Gen, ts: seq<nat>, i: nat)
    requires Fresh(g) && i < |ts|
    ensures Rank(After(g, ts[..i + 1])) == Turn(Pos(ts, i), Capacity(g))
  {
    var c := Capacity(g);
    var before := After(g, ts[..i]);
    assert ts[..i + 1][..i] == ts[..i];
    assert After(g, ts[..i + 1]) == Advance(before, ts[i]);
    AdvanceRank(before, ts[i]);
    if i > 0 && ts[i - 1] == ts[i] {
      RankAt(g, ts, i - 1);
      ModSucc(Pos(ts, i - 1), c);
    } else {
      assert before.lastTs != ts[i];
      assert Turn(0, c) == 0;
    }
  }

  lemma ModSucc(x: nat, d: nat)
    requires d > 0
    ensures Turn(x + 1, d) == if Turn(x, d) + 1 == d then 0 else Turn(x, d) + 1
  {
    var q, r := x / d, x % d;
    if r + 1 == d {
      assert x + 1 == (q + 1) * d + 0;
      DivModUnique(x + 1, d, q + 1, 0);
    } else {
      DivModUnique(x + 1, d, q, r + 1);
    }
  }

  lemma TurnSmall(x: nat, d: nat)
    requires x < d
    ensures Turn(x, d) == x
  {
  }

  lemma TurnAgain(x: nat, d: nat)
    requires x >= d > 0
    ensures Turn(x, d) == Turn(x - d, d)
  {
    DivModUnique(x, d, (x - d) / d + 1, (x - d) % d);
  }

  /** Ids of one generator are equal exactly when millisecond and rank are. */
  lemma IdsEqualIff(g: Gen, h: Gen)
    requires ValidGen(g) && ValidGen(h) && g.idStart == h.idStart && g.idEnd == h.idEnd
    requires InRange(g.lastTs) && InRange(h.lastTs)
    ensures Id(g) == Id(h) <==> g.lastTs == h.lastTs && Rank(g) == Rank(h)
  {
    Decode(g.lastTs, g.seqNo, g.idCur);
    Decode(h.lastTs, h.seqNo, h.idCur);
  }

  /** Every index p back within the block has the same millisecond, and is p positions earlier in it. */
  lemma {:induction false} PosBack(ts: seq<nat>, i: nat, p: nat)
    requires i < |ts| && p <= Pos(ts, i)
    ensures ts[i - p] == ts[i] && Pos(ts, i - p) == Pos(ts, i) - p
    decreases p
  {
    if p > 0 {
      PosBack(ts, i - 1, p - 1);
    }
  }

  /** Along a stretch of equal milliseconds the position grows by one each call. */
  lemma {:induction false} PosForward(ts: seq<nat>, i: nat, j: nat)
    requires i <= j < |ts| && forall k :: i <= k <= j ==> ts[k] == ts[i]
    ensures Pos(ts, j) == Pos(ts, i) + (j - i)
    decreases j
  {
    if i < j {
      PosForward(ts, i, j - 1);
      assert ts[j - 1] == ts[i] && ts[j] == ts[i];
    }
  }

  /** Two calls at the same millisecond and rank give the same id. */
  lemma Collide(g: Gen, ts: seq<nat>, i: nat, j: nat)
    requires Fresh(g) && AllInRange(ts) && i < j < |ts| && ts[i] == ts[j]
    requires Turn(Pos(ts, i), Capacity(g)) == Turn(Pos(ts, j), Capacity(g))
    ensures !AllDistinct(g, ts)
  {
    SameIdAgain(g, ts, i, j);
  }

  lemma SameIdAgain(g: Gen, ts: seq<nat>, i: nat, j: nat)
    requires Fresh(g) && i < |ts| && j < |ts| && ts[i] == ts[j] && InRange(ts[i])
    requires Turn(Pos(ts, i), Capacity(g)) == Turn(Pos(ts, j), Capacity(g))
    ensures IdAt(g, ts, i) == IdAt(g, ts, j)
  {
    var gi, gj := After(g, ts[..i + 1]), After(g, ts[..j + 1]);
    RankAt(g, ts, i);
    RankAt(g, ts, j);
    SameRankSameID(gi, gj);
  }

  lemma SameRankSameID(g: Gen, h: Gen)
    requires ValidGen(g) && ValidGen(h) && g.idStart == h.idStart && g.idEnd == h.idEnd
    requires InRange(g.lastTs) && g.lastTs == h.lastTs && Rank(g) == Rank(h)
    ensures Id(g) == Id(h)
  {
    IdsEqualIff(g, h);
  }

  lemma OverdrawnCollides(g: Gen, ts: seq<nat>, i: nat)
    requires Fresh(g) && AllInRange(ts) && i < |ts| && Pos(ts, i) >= Capacity(g)
    ensures !AllDistinct(g, ts)
  {
    var c := Capacity(g);
    PosBack(ts, i, c);
    TurnAgain(Pos(ts, i), c);
    Collide(g, ts, i - c, i);
  }

  /** A millisecond come back to starts over at rank 0, as it did the first time. */
  lemma ReturnCollides(g: Gen, ts: seq<nat>, i: nat, k: nat, j: nat)
    requires Fresh(g) && AllInRange(ts) && i < k < j < |ts| && ts[i] == ts[j] != ts[k]
    ensures !AllDistinct(g, ts)
  {
    var pi, pj := Pos(ts, i), Pos(ts, j);
    assert pj < j - k by {
      if pj >= j - k {
        PosBack(ts, j, j - k);
      }
    }
    PosBack(ts, i, pi);
    PosBack(ts, j, pj);
    Collide(g, ts, i - pi, j - pj);
  }

  lemma DistinctFollows(g: Gen, ts: seq<nat>)
    requires Fresh(g) && AllInRange(ts) && NoReturn(ts) && WithinCapacity(g, ts)
    ensures AllDistinct(g, ts)
  {
    forall i, j | 0 <= i < j < |ts|
      ensures IdAt(g, ts, i) != IdAt(g, ts, j)
    {
      IdsEqualIff(After(g, ts[..i + 1]), After(g, ts[..j + 1]));
      if ts[i] == ts[j] {
        RankAt(g, ts, i);
        RankAt(g, ts, j);
        PosForward(ts, i, j);
        TurnSmall(Pos(ts, i), Capacity(g));
        TurnSmall(Pos(ts, j), Capacity(g));
      }
    }
  }

  /**
   Uniqueness, exactly: whatever the clock does, all ids of a run are pairwise distinct
   if and only if the clock never returns to a millisecond it left and no millisecond
   gets more than 4095 * (idEnd - idStart + 1) calls.
   */
  lemma UniqueIff(g: Gen, ts: seq<nat>)
    requires Fresh(g) && AllInRange(ts)
    ensures AllDistinct(g, ts) <==> NoReturn(ts) && WithinCapacity(g, ts)
  {
    if i :| 0 <= i < |ts| && Pos(ts, i) >= Capacity(g) {
      OverdrawnCollides(g, ts, i);
    } else if i, k, j :| 0 <= i < k < j < |ts| && ts[i] == ts[j] != ts[k] {
      ReturnCollides(g, ts, i, k, j);
    } else {
      DistinctFollows(g, ts);
    }
  }

  // ------------------------------------------------------------------
  // Clocks whose second reading has caught up
  // ------------------------------------------------------------------

  predicate Nondecreasing(ts: seq<nat>) {
    forall i, j :: 0 <= i <= j < |ts| ==> ts[i] <= ts[j]
  }

  /** The first reading, or the one after the sleep, is not before the last id. */
  predicate CaughtUp(g: Gen, clock: Clock) {
    clock.first >= g.lastTs || clock.reread >= g.lastTs
  }

  /** Calls against clocks, and the milliseconds they settle on. */
  predicate Settles(g: Gen, clocks: seq<Clock>, ts: seq<nat>)
    requires ValidGen(g)
  {
    && |clocks| == |ts|
    && forall i :: 0 <= i < |ts| ==>
         Terminates(After(g, ts[..i]), clocks[i]) && ts[i] == Settle(After(g, ts[..i]), clocks[i])
  }

  predicate GoodClocks(g: Gen, clocks: seq<Clock>, ts: seq<nat>)
    requires ValidGen(g)
  {
    Settles(g, clocks, ts) && forall i :: 0 <= i < |ts| ==> CaughtUp(After(g, ts[..i]), clocks[i])
  }

  /**
   What a call settles on, by what its clock says. A first reading past the last id stands. One
   before it is dropped for the reading after the sleep. At the last id's own millisecond the call
   stays, as long as there are ids left in it. After that it takes the first nanosecond reading
   past the start of that millisecond, in milliseconds.
   */
  lemma SettlesOn(g: Gen, clock: Clock)
    requires ValidGen(g) && Terminates(g, clock)
    ensures clock.first > g.lastTs ==> Settle(g, clock) == clock.first
    ensures clock.first < g.lastTs && clock.reread != g.lastTs ==> Settle(g, clock) == clock.reread
    ensures clock.first == g.lastTs || (clock.first < g.lastTs && clock.reread == g.lastTs) ==>
              if Rank(g) + 1 < Capacity(g) then Settle(g, clock) == g.lastTs
              else exists i :: 0 <= i < |clock.spins| && IsFirstPast(clock.spins, i, g.lastTs * 1_000_000)
                               && Settle(g, clock) == clock.spins[i] / 1_000_000
  {
    ExhaustedIff(g);
    if Reading(g, clock) == g.lastTs && Exhausted(g) {
      var i := FirstPastIndex(clock.spins, g.lastTs * NANOS);
    }
  }

  predicate IsFirstPast(spins: seq<nat>, i: nat, cur: int)
    requires i < |spins|
  {
    spins[i] > cur && forall j :: 0 <= j < i ==> spins[j] <= cur
  }

  lemma {:induction false} FirstPastIndex(spins: seq<nat>, cur: int) returns (i: nat)
    requires Passes(spins, cur)
    ensures i < |spins| && IsFirstPast(spins, i, cur) && FirstPast(spins, cur) == spins[i]
  {
    if spins[0] > cur {
      i := 0;
    } else {
      i := FirstPastIndex(spins[1..], cur);
      i := i + 1;
      assert forall j :: 1 <= j <= i ==> spins[1..][j - 1] == spins[j];
    }
  }

  /** The last rank of a millisecond is the one after which the generator waits. */
  lemma ExhaustedIff(g: Gen)
    requires ValidGen(g)
    ensures Exhausted(g) <==> Rank(g) + 1 == Capacity(g)
  {
    if g.idCur < g.idEnd {
      MulMono(g.idCur - g.idStart + 1, g.idEnd - g.idStart, SEQ_MASK);
    }
  }

  lemma {:induction false} StepsOrder(ts: seq<nat>, i: nat, j: nat)
    requires i <= j < |ts| && forall k :: 0 < k < |ts| ==> ts[k - 1] <= ts[k]
    ensures ts[i] <= ts[j]
    decreases j
  {
    if i < j {
      StepsOrder(ts, i, j - 1);
      assert ts[j - 1] <= ts[j];
    }
  }

  /** If every skew sleep suffices, the settled milliseconds never go back. */
  lemma GoodClocksNondecreasing(g: Gen, clocks: seq<Clock>, ts: seq<nat>)
    requires Fresh(g) && GoodClocks(g, clocks, ts)
    ensures Nondecreasing(ts)
  {
    forall k | 0 < k < |ts|
      ensures ts[k - 1] <= ts[k]
    {
      assert After(g, ts[..k]).lastTs == ts[k - 1];
      SettleNotEarlier(After(g, ts[..k]), clocks[k]);
    }
    forall i, j | 0 <= i <= j < |ts|
      ensures ts[i] <= ts[j]
    {
      StepsOrder(ts, i, j);
    }
  }

  /** A call goes back behind the last id exactly when its clock has not caught up. */
  lemma SettleNotEarlier(g: Gen, clock: Clock)
    requires ValidGen(g) && Terminates(g, clock)
    ensures Settle(g, clock) >= g.lastTs <==> CaughtUp(g, clock)
  {
  }

  /** On a clock that never goes back, the position counts the calls of that millisecond so far. */
  lemma {:induction false} PosCounts(ts: seq<nat>, i: nat)
    requires Nondecreasing(ts) && i < |ts|
    ensures multiset(ts[..i + 1])[ts[i]] == Pos(ts, i) + 1
  {
    assert ts[..i + 1] == ts[..i] + [ts[i]];
    if i > 0 && ts[i - 1] == ts[i] {
      PosCounts(ts, i - 1);
    } else {
      assert forall k :: 0 <= k < i ==> ts[k] < ts[i];
      assert ts[i] !in ts[..i];
    }
  }

  lemma {:induction false} LastOccurrence(ts: seq<nat>, t: nat) returns (i: nat)
    requires t in ts
    ensures i < |ts| && ts[i] == t && multiset(ts[..i + 1])[t] == multiset(ts)[t]
    decreases |ts|
  {
    var n := |ts| - 1;
    assert ts == ts[..n] + [ts[n]];
    if ts[n] == t {
      i := n;
    } else {
      i := LastOccurrence(ts[..n], t);
      assert ts[..n][..i + 1] == ts[..i + 1];
    }
    assert ts[..n + 1] == ts;
  }

  /** So a block within capacity is a millisecond within capacity. */
  lemma CapacityByCount(g: Gen, ts: seq<nat>)
    requires ValidGen(g) && Nondecreasing(ts)
    ensures WithinCapacity(g, ts) <==> forall t: nat :: multiset(ts)[t] <= Capacity(g)
  {
    var c := Capacity(g);
    forall i | 0 <= i < |ts|
      ensures Pos(ts, i) < multiset(ts)[ts[i]]
    {
      PosCounts(ts, i);
      assert ts == ts[..i + 1] + ts[i + 1..];
    }
    if t: nat :| multiset(ts)[t] > c {
      var i := LastOccurrence(ts, t);
      PosCounts(ts, i);
      assert Pos(ts, i) >= c;
    }
  }

  /**
   The promise as a caller sees it: when every re-read after a skew sleep has caught up,
   ids are pairwise distinct if and only if no millisecond is settled on more than
   4095 * (idEnd - idStart + 1) times.
   */
  lemma UniqueIffNotOverdrawn(g: Gen, clocks: seq<Clock>, ts: seq<nat>)
    requires Fresh(g) && AllInRange(ts) && GoodClocks(g, clocks, ts)
    ensures AllDistinct(g, ts) <==> forall t: nat :: multiset(ts)[t] <= 4095 * (g.idEnd - g.idStart + 1)
  {
    GoodClocksNondecreasing(g, clocks, ts);
    assert NoReturn(ts);
    UniqueIff(g, ts);
    CapacityByCount(g, ts);
  }

  /**
   The wait loop does not enforce that bound: one nanosecond into the exhausted
   millisecond it already ends, and the call starts the millisecond over.
   */
  lemma WaitMayReissue(g: Gen)
    requires ValidGen(g) && Exhausted(g) && g.lastTs >= 0
    ensures var clock := Clock(g.lastTs, 0, [g.lastTs * NANOS + 1]);
            && Terminates(g, clock) && CaughtUp(g, clock)
            && Settle(g, clock) == g.lastTs
            && Advance(g, g.lastTs) == g.(seqNo := 0, idCur := g.idStart)
  {
    var spins: seq<nat> := [g.lastTs * NANOS + 1];
    assert spins[0] > g.lastTs * NANOS;
    DivModUnique(spins[0], NANOS, g.lastTs, 1);
  }

  /** Nor does the sleep help against a clock that has not caught up: three calls suffice for a duplicate. */
  lemma SkewMayReissue(g: Gen, t: nat)
    requires Fresh(g) && InRange(t) && InRange(t + 1)
    ensures var up, down := Clock(t + 1, 0, []), Clock(t, t, []);
            var g1 := Advance(g, Settle(g, up));
            var g2 := Advance(g1, Settle(g1, down));
            var g3 := Advance(g2, Settle(g2, up));
            g2.lastTs == t && Id(g1) == Id(g3)
  {
  }

  // ------------------------------------------------------------------
  // Order and separation
  // ------------------------------------------------------------------

  /** Ids of later milliseconds are larger, across all generators. */
  lemma LaterIsLarger(g: Gen, h: Gen)
    requires ValidGen(g) && ValidGen(h) && InRange(g.lastTs) && InRange(h.lastTs)
    requires g.lastTs < h.lastTs
    ensures Id(g) < Id(h)
  {
    Decode(g.lastTs, g.seqNo, g.idCur);
    Decode(h.lastTs, h.seqNo, h.idCur);
  }

  /** With a single worker id the order within a millisecond is that of the ranks. */
  lemma HigherRankIsLarger(g: Gen, h: Gen)
    requires ValidGen(g) && ValidGen(h) && InRange(g.lastTs)
    requires g.lastTs == h.lastTs && g.idStart == h.idStart == g.idEnd == h.idEnd && Rank(g) < Rank(h)
    ensures Id(g) < Id(h)
  {
  }

  /** With a single worker id and at most 4095 calls per millisecond, ids strictly increase. */
  lemma StrictlyIncreasing(g: Gen, ts: seq<nat>, i: nat, j: nat)
    requires Fresh(g) && g.idStart == g.idEnd && AllInRange(ts) && Nondecreasing(ts) && WithinCapacity(g, ts)
    requires i < j < |ts|
    ensures IdAt(g, ts, i) < IdAt(g, ts, j)
  {
    var gi, gj := After(g, ts[..i + 1]), After(g, ts[..j + 1]);
    if ts[i] == ts[j] {
      RankAt(g, ts, i);
      RankAt(g, ts, j);
      PosForward(ts, i, j);
      TurnSmall(Pos(ts, i), Capacity(g));
      TurnSmall(Pos(ts, j), Capacity(g));
      HigherRankIsLarger(gi, gj);
    } else {
      LaterIsLarger(gi, gj);
    }
  }

  /** Generators with disjoint worker ranges never issue the same id, whatever their clocks do. */
  lemma DisjointWorkersNeverCollide(g: Gen, ts: seq<nat>, i: nat, h: Gen, us: seq<nat>, j: nat)
    requires ValidGen(g) && ValidGen(h) && (g.idEnd < h.idStart || h.idEnd < g.idStart)
    requires i < |ts| && j < |us|
    ensures IdAt(g, ts, i) != IdAt(h, us, j)
  {
    var g', h' := After(g, ts[..i + 1]), After(h, us[..j + 1]);
    DecodeWorker(g'.lastTs, g'.seqNo, g'.idCur);
    DecodeWorker(h'.lastTs, h'.seqNo, h'.idCur);
  }
}
