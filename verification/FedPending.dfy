/**
 The pending bookkeeping of federation sends: the two Lua scripts of cache/redis_cache.go.

 A send record lives under (room, domain); the pending set names the pairs that the sender
 has to look at. Each script is one atomic step.
 */
module FedPending {
  import opened History

  type Pair = (string, string)

  datatype Rec = Rec(eventID: string, sendTimes: int, pendingSize: int, domainOffset: int)

  datatype Store = Store(recs: map<Pair, Rec>, pending: set<Pair>)

  datatype Step =
    | Incr(pair: Pair, amt: int)
    | Advance(pair: Pair, eventID: string, domainOffset: int, decr: int)

  /** Go's negation of an int32, which leaves the smallest one as it is. */
  function Negated32(n: int): int {
    if n == -0x8000_0000 then n else -n
  }

  function Apply(s: Store, step: Step): Store {
    match step
    case Incr(pair, amt) =>
      s.(pending := s.pending + {pair},
         recs := if pair in s.recs
                 then s.recs[pair := s.recs[pair].(pendingSize := s.recs[pair].pendingSize + amt)]
                 else s.recs)
    case Advance(pair, eventID, offset, decr) =>
      if pair in s.recs then
        var rec := s.recs[pair];
        var size := rec.pendingSize + Negated32(decr);
        Store(s.recs[pair := Rec(eventID, rec.sendTimes + 1, size, offset)],
              if size <= 0 then s.pending - {pair} else s.pending)
      else s
  }

  function Run(s: Store, steps: seq<Step>): Store
    decreases |steps|
  {
    if steps == [] then s else Apply(Run(s, steps[..|steps| - 1]), steps[|steps| - 1])
  }

  class FedCache {
    var recs: map<Pair, Rec>
    var pending: set<Pair>

    ghost function Abs(): Store
      reads this
    {
      Store(recs, pending)
    }

    constructor ()
      ensures Abs() == Store(map[], {})
    {
      recs, pending := map[], {};
    }

    method HIncrBy(pair: Pair, size: int, times: int) returns (pendingSize: int)
      requires pair in recs
      modifies this`recs
      ensures pendingSize == old(recs)[pair].pendingSize + size
      ensures recs == old(recs)[pair := old(recs)[pair].(pendingSize := pendingSize,
                                                         sendTimes := old(recs)[pair].sendTimes + times)]
    {
      var rec := recs[pair];
      pendingSize := rec.pendingSize + size;
      recs := recs[pair := rec.(pendingSize := pendingSize, sendTimes := rec.sendTimes + times)];
    }

    method IncrFedRoomPending(pair: Pair, amt: int) returns (found: bool)
      modifies this
      ensures found <==> pair in old(recs)
      ensures Abs() == Apply(old(Abs()), Incr(pair, amt))
    {
      pending := pending + {pair};
      if pair in recs {
        var _ := HIncrBy(pair, amt, 0);
        return true;
      }
      return false;
    }

    method IncrFedRoomDomainOffset(pair: Pair, eventID: string, domainOffset: int, decr: int) returns (found: bool)
      modifies this
      ensures found <==> pair in old(recs)
      ensures Abs() == Apply(old(Abs()), Advance(pair, eventID, domainOffset, decr))
    {
      if pair in recs {
        recs := recs[pair := recs[pair].(domainOffset := domainOffset, eventID := eventID)];
        var pendingSize := HIncrBy(pair, Negated32(decr), 0);
        if pendingSize <= 0 {
          pending := pending - {pair};
        }
        var _ := HIncrBy(pair, 0, 1);
        return true;
      }
      return false;
    }
  }

  // ------------------------------------------------------------------
  // Accounts over a run
  // ------------------------------------------------------------------

  function Delta(step: Step, pair: Pair): int {
    if step.pair != pair then 0 else if step.Incr? then step.amt else Negated32(step.decr)
  }

  function Total(steps: seq<Step>, pair: Pair): int
    decreases |steps|
  {
    if steps == [] then 0 else Total(steps[..|steps| - 1], pair) + Delta(steps[|steps| - 1], pair)
  }

  function Advances(steps: seq<Step>, pair: Pair): nat {
    |set i | 0 <= i < |steps| && steps[i].Advance? && steps[i].pair == pair|
  }

  lemma AdvancesStep(steps: seq<Step>, pair: Pair)
    requires steps != []
    ensures var n := |steps| - 1;
            Advances(steps, pair) == Advances(steps[..n], pair) + if steps[n].Advance? && steps[n].pair == pair then 1 else 0
  {
    var n := |steps| - 1;
    var before := set i | 0 <= i < n && steps[..n][i].Advance? && steps[..n][i].pair == pair;
    var all := set i | 0 <= i < |steps| && steps[i].Advance? && steps[i].pair == pair;
    assert all == if steps[n].Advance? && steps[n].pair == pair then before + {n} else before;
  }

  /**
   The accounts balance for every record, over every run: its size is what it was plus the
   increments less the decrements addressed to it, its send count grows by its advances, and
   steps for other pairs leave it alone. A pair without a record gets none.
   */
  lemma {:induction false} RunBalances(s: Store, steps: seq<Step>, pair: Pair)
    ensures pair in Run(s, steps).recs <==> pair in s.recs
    ensures pair in s.recs ==>
              && Run(s, steps).recs[pair].pendingSize == s.recs[pair].pendingSize + Total(steps, pair)
              && Run(s, steps).recs[pair].sendTimes == s.recs[pair].sendTimes + Advances(steps, pair)
    decreases |steps|
  {
    if steps != [] {
      RunBalances(s, steps[..|steps| - 1], pair);
      AdvancesStep(steps, pair);
    }
  }

  /** Negation as int32 has it: the result is an int32, and cancels the number modulo 2^32. */
  lemma Negated32Cancels(n: int)
    requires -0x8000_0000 <= n < 0x8000_0000
    ensures -0x8000_0000 <= Negated32(n) < 0x8000_0000 && (n + Negated32(n)) % 0x1_0000_0000 == 0
    ensures n != -0x8000_0000 ==> n + Negated32(n) == 0
  {
  }

  predicate Moves(step: Step, pair: Pair) {
    step.Advance? && step.pair == pair
  }

  /** Over every run, offset and event id of a record are those of its last advance, or what they were if there is none. */
  lemma {:induction false} LastAdvanceDecides(s: Store, steps: seq<Step>, pair: Pair)
    requires pair in s.recs
    ensures pair in Run(s, steps).recs
    ensures var rec := Run(s, steps).recs[pair];
            && (forall i :: 0 <= i < |steps| && Moves(steps[i], pair) && (forall k :: i < k < |steps| ==> !Moves(steps[k], pair)) ==>
                  rec.eventID == steps[i].eventID && rec.domainOffset == steps[i].domainOffset)
            && ((forall i :: 0 <= i < |steps| ==> !Moves(steps[i], pair)) ==>
                  rec.eventID == s.recs[pair].eventID && rec.domainOffset == s.recs[pair].domainOffset)
    decreases |steps|
  {
    if steps != [] {
      var n := |steps| - 1;
      LastAdvanceDecides(s, steps[..n], pair);
      assert forall i :: 0 <= i < n ==> steps[..n][i] == steps[i];
    }
  }

  /** What step i of a run from s means for the pair's place in the pending set, by the accounts up to then. */
  function PendingEffect(s: Store, steps: seq<Step>, i: nat, pair: Pair): Effect
    requires i < |steps|
  {
    if steps[i].pair != pair then Neutral
    else if steps[i].Incr? then Adds
    else if pair in s.recs && s.recs[pair].pendingSize + Total(steps[..i + 1], pair) <= 0 then Removes
    else Neutral
  }

  function PendingLog(s: Store, steps: seq<Step>, pair: Pair): (log: seq<Effect>)
    ensures |log| == |steps|
  {
    seq(|steps|, i requires 0 <= i < |steps| => PendingEffect(s, steps, i, pair))
  }

  lemma LogGrows(s: Store, steps: seq<Step>, n: nat, pair: Pair)
    requires |steps| == n + 1
    ensures PendingLog(s, steps, pair)[..n] == PendingLog(s, steps[..n], pair)
  {
    forall i | 0 <= i < n
      ensures PendingLog(s, steps, pair)[i] == PendingLog(s, steps[..n], pair)[i]
    {
      assert steps[..n][..i + 1] == steps[..i + 1];
    }
  }

  lemma {:induction false} PendingReplay(s: Store, steps: seq<Step>, pair: Pair)
    requires s.pending == {}
    ensures pair in Run(s, steps).pending <==> Present(PendingLog(s, steps, pair))
    decreases |steps|
  {
    if steps != [] {
      var n := |steps| - 1;
      PendingReplay(s, steps[..n], pair);
      LogGrows(s, steps, n, pair);
      RunBalances(s, steps[..n], pair);
      assert steps[..n + 1] == steps;
    }
  }

  /**
   Over every run a pair is named as pending exactly when some increment of it, record or no record,
   has not been followed by an advance that left its record with nothing.
   */
  lemma PendingMatchesHistory(s: Store, steps: seq<Step>, pair: Pair)
    requires s.pending == {}
    ensures pair in Run(s, steps).pending <==> AddedAndKept(PendingLog(s, steps, pair))
  {
    PendingReplay(s, steps, pair);
    PresentIff(PendingLog(s, steps, pair));
  }

  /** Nothing pending is hidden from the sender. */
  ghost predicate Visible(s: Store) {
    forall p :: p in s.recs && s.recs[p].pendingSize > 0 ==> p in s.pending
  }

  /** A decrement that in fact adds, for a pair the sender does not know of. */
  predicate Hides(s: Store, step: Step) {
    && step.Advance? && step.pair in s.recs && step.pair !in s.pending
    && s.recs[step.pair].pendingSize + Negated32(step.decr) > 0
  }

  lemma StepVisibleIff(s: Store, step: Step)
    requires Visible(s)
    ensures Visible(Apply(s, step)) <==> !Hides(s, step)
  {
    var s' := Apply(s, step);
    if Hides(s, step) {
      assert step.pair in s'.recs && step.pair !in s'.pending;
    }
  }

  /** Only a negative decrement can do that, so with the others the pending set never misses a pair. */
  lemma {:induction false} RunVisible(s: Store, steps: seq<Step>)
    requires Visible(s) && forall i :: 0 <= i < |steps| && steps[i].Advance? ==> steps[i].decr >= 0
    ensures Visible(Run(s, steps))
    decreases |steps|
  {
    if steps != [] {
      RunVisible(s, steps[..|steps| - 1]);
      StepVisibleIff(Run(s, steps[..|steps| - 1]), steps[|steps| - 1]);
    }
  }

  /** Right after an advance of a visible pair, the pending set names it exactly when something is left. */
  lemma AdvanceSettles(s: Store, pair: Pair, eventID: string, offset: int, decr: int)
    requires pair in s.recs && Visible(s) && decr >= 0
    ensures var s' := Apply(s, Advance(pair, eventID, offset, decr));
            pair in s'.pending <==> s'.recs[pair].pendingSize > 0
  {
  }
}
