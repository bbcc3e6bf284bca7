/**
 Transaction-id deduplication: the hash of recent sends (cache/txnid.go), its background cleaner
 (bgmgr/txnmgr/txnmgr.go) and the event sender that relies on both (clientapi/routing/postevent.go).

 The store maps (room, field) to the stored text "seconds:eventID". Times are seconds.
 */
module TxnDedup {
  import opened Text

  const TXN_DURATION := 30

  type Hashes = map<(string, string), string>

  function Encode(ts: int, eventID: string): string {
    Format(ts) + ":" + eventID
  }

  /** Split at the colons, parse the first part, join the others back. */
  function Decode(value: string): Option<(int, string)> {
    var parts := Split(value, ':');
    if |parts| <= 1 then None
    else
      match ParseInt(parts[0])
      case None => None
      case Some(ts) => Some((ts, Join(parts[1..], ':')))
  }

  /** What was stored reads back the same, colons in the event id included. */
  lemma DecodeEncode(ts: int, eventID: string)
    requires IsInt64(ts)
    ensures Decode(Encode(ts, eventID)) == Some((ts, eventID))
  {
    FormatHasNoColon(ts);
    SplitPrefix(Format(ts), eventID, ':');
    ParseFormat(ts);
  }

  /** The text that is stored: the number before the first colon is the time, and all after it the event id. */
  lemma DecodeText(a: string, b: string)
    requires ':' !in a
    ensures Decode(a + ":" + b) == match ParseInt(a) case None => None case Some(ts) => Some((ts, b))
    ensures Decode(a) == None
    ensures forall ts: int :: Encode(ts, b) == Format(ts) + ":" + b
  {
    SplitPrefix(a, b, ':');
  }

  /** Malformed, or older than thirty seconds. */
  predicate Dead(value: string, now: int) {
    Decode(value).None? || now - Decode(value).value.0 > TXN_DURATION
  }

  function Answer(s: Hashes, room: string, field: string, now: int): Option<string> {
    if (room, field) in s && !Dead(s[(room, field)], now) then Some(Decode(s[(room, field)]).value.1) else None
  }

  /** One page of a hash scan: the fields it returned, and the time at which they were looked at. */
  datatype Page = Page(fields: set<string>, now: int)

  /** The fields of the page that are there and dead. */
  function Condemned(s: Hashes, room: string, page: Page): set<string> {
    set k | k in page.fields && (room, k) in s && Dead(s[(room, k)], page.now)
  }

  function Without(s: Hashes, room: string, batch: set<string>): Hashes {
    s - set k | k in batch :: (room, k)
  }

  /** The fields of the page, if dead, are gone. A lookup does this to the one field it looks at. */
  function CleanPage(s: Hashes, room: string, page: Page): Hashes {
    Without(s, room, Condemned(s, room, page))
  }

  /** A look at a field takes it away exactly when it is malformed or more than thirty seconds old, and touches no other. */
  lemma CleanPageIff(s: Hashes, room: string, page: Page, e: (string, string))
    ensures var s', looked := CleanPage(s, room, page), e.0 == room && e.1 in page.fields;
            && (e in s' ==> e in s && s'[e] == s[e])
            && (e in s ==> (e !in s' <==> looked && (Decode(s[e]).None? || page.now > Decode(s[e]).value.0 + 30)))
  {
  }

  function Cleaned(s: Hashes, room: string, pages: seq<Page>): Hashes
    decreases |pages|
  {
    if pages == [] then s
    else
      var n := |pages| - 1;
      CleanPage(Cleaned(s, room, pages[..n]), room, pages[n])
  }

  /** What a scan of the pages collects while the hash stays as it is. */
  function Batch(s: Hashes, room: string, pages: seq<Page>): set<string>
    decreases |pages|
  {
    if pages == [] then {}
    else
      var n := |pages| - 1;
      Batch(s, room, pages[..n]) + Condemned(s, room, pages[n])
  }

  // ------------------------------------------------------------------
  // The sender
  // ------------------------------------------------------------------

  /** A send: `now` is when its lookup happens, `later` when its result is stored; `accepted` is the room server's word. */
  datatype Request = Request(room: string, eventType: string, txn: Option<string>, eventID: string, accepted: bool, now: int, later: int)

  datatype World = World(store: Hashes, inputs: seq<string>)

  /** The field is a plain concatenation. */
  function Field(room: string, eventType: string, txn: string): string {
    room + eventType + txn
  }

  function After(w: World, r: Request): World {
    if r.txn.None? then
      if r.accepted then w.(inputs := w.inputs + [r.eventID]) else w
    else
      var field := Field(r.room, r.eventType, r.txn.value);
      var looked := CleanPage(w.store, r.room, Page({field}, r.now));
      if Answer(w.store, r.room, field, r.now).Some? || !r.accepted then w.(store := looked)
      else World(looked[(r.room, field) := Encode(r.later, r.eventID)], w.inputs + [r.eventID])
  }

  /** The event id the client is told, if any. */
  function Reply(w: World, r: Request): Option<string> {
    var known := if r.txn.Some? then Answer(w.store, r.room, Field(r.room, r.eventType, r.txn.value), r.now) else None;
    if known.Some? then known else if r.accepted then Some(r.eventID) else None
  }

  class TxnServer {
    var store: Hashes
    var inputs: seq<string>

    constructor ()
      ensures store == map[] && inputs == []
    {
      store, inputs := map[], [];
    }

    method GetTxnID(room: string, msgID: string, now: int) returns (id: string, ok: bool)
      modifies this`store
      ensures store == CleanPage(old(store), room, Page({msgID}, now))
      ensures ok <==> Answer(old(store), room, msgID, now).Some?
      ensures ok ==> Some(id) == Answer(old(store), room, msgID, now)
    {
      if (room, msgID) !in store {
        assert Condemned(store, room, Page({msgID}, now)) == {};
        return "", false;
      }
      var s := Split(store[(room, msgID)], ':');
      var ts := if |s| <= 1 then None else ParseInt(s[0]);
      if ts.None? || now - ts.value > TXN_DURATION {
        assert Condemned(store, room, Page({msgID}, now)) == {msgID};
        store := store - {(room, msgID)};
        return "", false;
      }
      assert Condemned(store, room, Page({msgID}, now)) == {};
      return Join(s[1..], ':'), true;
    }

    method PutTxnID(room: string, txnID: string, eventID: string, now: int)
      modifies this`store
      ensures store == old(store)[(room, txnID) := Encode(now, eventID)]
    {
      store := store[(room, txnID) := Format(now) + ":" + eventID];
    }

    /** The scan of cleanExpireTxnID: collects the dead fields page by page. */
    method CollectExpired(room: string, pages: seq<Page>) returns (batch: seq<string>)
      ensures (set k | k in batch) == Batch(store, room, pages)
    {
      batch := [];
      for n := 0 to |pages|
        invariant (set k | k in batch) == Batch(store, room, pages[..n])
      {
        var left := pages[n].fields;
        ghost var before := set k | k in batch;
        while left != {}
          invariant left <= pages[n].fields
          invariant (set k | k in batch) == before + Condemned(store, room, Page(pages[n].fields - left, pages[n].now))
          decreases left
        {
          var k :| k in left;
          ghost var was := batch;
          if (room, k) in store {
            var s := Split(store[(room, k)], ':');
            if |s| <= 1 {
              batch := batch + [k];
            } else {
              var ts := ParseInt(s[0]);
              if ts.None? || pages[n].now - ts.value > TXN_DURATION {
                batch := batch + [k];
              }
            }
          }
          assert batch == if (room, k) in store && Dead(store[(room, k)], pages[n].now) then was + [k] else was;
          CollectedOneMore(store, room, pages[n], left, k);
          assert (set x | x in batch) == (set x | x in was) + Condemned(store, room, Page({k}, pages[n].now));
          left := left - {k};
        }
        assert pages[n].fields - left == pages[n].fields;
        assert pages[..n + 1][..n] == pages[..n];
      }
      assert pages[..|pages|] == pages;
    }

    /** One HDEL for each field of the batch. */
    method HDelMulti(room: string, batch: seq<string>)
      modifies this`store
      ensures store == Without(old(store), room, set k | k in batch)
    {
      for i := 0 to |batch|
        invariant store == Without(old(store), room, set k | k in batch[..i])
      {
        assert batch[..i + 1] == batch[..i] + [batch[i]];
        store := store - {(room, batch[i])};
      }
      assert batch[..|batch|] == batch;
    }

    /** cleanExpireTxnID with nothing else going on. */
    method CleanExpireTxnID(room: string, pages: seq<Page>)
      modifies this`store
      ensures store == Cleaned(old(store), room, pages)
    {
      var batch := CollectExpired(room, pages);
      CleanedIsBatch(store, room, pages);
      if |batch| > 0 {
        HDelMulti(room, batch);
      }
    }

    /** The transaction-id part of PostEvent: look up, send, remember. */
    method PostEvent(r: Request) returns (reply: Option<string>)
      modifies this
      ensures World(store, inputs) == After(old(World(store, inputs)), r)
      ensures reply == Reply(old(World(store, inputs)), r)
    {
      if r.txn.Some? {
        var key := r.room + r.eventType + r.txn.value;
        var eventIDRef, ok := GetTxnID(r.room, key, r.now);
        if ok {
          return Some(eventIDRef);
        }
      }
      if !r.accepted {
        return None;
      }
      inputs := inputs + [r.eventID];
      if r.txn.Some? {
        PutTxnID(r.room, r.room + r.eventType + r.txn.value, r.eventID, r.later);
      }
      return Some(r.eventID);
    }
  }

  lemma CollectedOneMore(s: Hashes, room: string, page: Page, left: set<string>, k: string)
    requires k in left && left <= page.fields
    ensures Condemned(s, room, Page(page.fields - (left - {k}), page.now))
         == Condemned(s, room, Page(page.fields - left, page.now)) + Condemned(s, room, Page({k}, page.now))
    ensures Condemned(s, room, Page({k}, page.now)) == if (room, k) in s && Dead(s[(room, k)], page.now) then {k} else {}
  {
  }

  /** Deleting page by page and deleting one batch at the end come to the same. */
  lemma {:induction false} CleanedIsBatch(s: Hashes, room: string, pages: seq<Page>)
    ensures Cleaned(s, room, pages) == Without(s, room, Batch(s, room, pages))
    decreases |pages|
  {
    if pages != [] {
      var n := |pages| - 1;
      CleanedIsBatch(s, room, pages[..n]);
    }
  }

  // ------------------------------------------------------------------
  // The cleaner is invisible
  // ------------------------------------------------------------------

  datatype Op =
    | Get(room: string, field: string, now: int)
    | Put(room: string, field: string, eventID: string, now: int)
    | Clean(room: string, fields: set<string>, now: int)

  function Do(s: Hashes, op: Op): Hashes {
    match op
    case Get(room, field, now) => CleanPage(s, room, Page({field}, now))
    case Put(room, field, eventID, now) => s[(room, field) := Encode(now, eventID)]
    case Clean(room, fields, now) => CleanPage(s, room, Page(fields, now))
  }

  function Out(s: Hashes, op: Op): Option<string> {
    if op.Get? then Answer(s, op.room, op.field, op.now) else None
  }

  /** The answers of a run of lookups, stores and further cleaning. */
  function Outs(s: Hashes, ops: seq<Op>): seq<Option<string>>
    decreases |ops|
  {
    if ops == [] then [] else [Out(s, ops[0])] + Outs(Do(s, ops[0]), ops[1..])
  }

  predicate InOrder(ops: seq<Op>, t: int)
    decreases |ops|
  {
    ops != [] ==> t <= ops[0].now && InOrder(ops[1..], ops[0].now)
  }

  /** No lookup from time t on can tell the two apart. */
  ghost predicate Alike(s: Hashes, s': Hashes, t: int) {
    forall room, field, now :: now >= t ==> Answer(s, room, field, now) == Answer(s', room, field, now)
  }

  lemma CleanPageAlike(s: Hashes, room: string, page: Page)
    ensures Alike(CleanPage(s, room, page), s, page.now)
  {
  }

  lemma PutAlike(s: Hashes, s': Hashes, room: string, field: string, value: string, t: int)
    requires Alike(s, s', t)
    ensures Alike(s[(room, field) := value], s'[(room, field) := value], t)
  {
    var put, put' := s[(room, field) := value], s'[(room, field) := value];
    forall r, f, now | now >= t
      ensures Answer(put, r, f, now) == Answer(put', r, f, now)
    {
      assert Answer(s, r, f, now) == Answer(s', r, f, now);
    }
  }

  lemma DoAlike(s: Hashes, s': Hashes, op: Op, t: int)
    requires Alike(s, s', t) && t <= op.now
    ensures Out(s, op) == Out(s', op) && Alike(Do(s, op), Do(s', op), op.now)
  {
    match op
    case Put(room, field, eventID, now) => PutAlike(s, s', room, field, Encode(now, eventID), now);
    case Get(room, field, now) =>
      CleanPageAlike(s, room, Page({field}, now));
      CleanPageAlike(s', room, Page({field}, now));
    case Clean(room, fields, now) =>
      CleanPageAlike(s, room, Page(fields, now));
      CleanPageAlike(s', room, Page(fields, now));
  }

  lemma {:induction false} AlikeForever(s: Hashes, s': Hashes, ops: seq<Op>, t: int)
    requires Alike(s, s', t) && InOrder(ops, t)
    ensures Outs(s, ops) == Outs(s', ops)
    decreases |ops|
  {
    if ops != [] {
      DoAlike(s, s', ops[0], t);
      AlikeForever(Do(s, ops[0]), Do(s', ops[0]), ops[1..], ops[0].now);
    }
  }

  lemma {:induction false} CleanedAlike(s: Hashes, room: string, pages: seq<Page>, t: int)
    requires forall i :: 0 <= i < |pages| ==> pages[i].now <= t
    ensures Alike(Cleaned(s, room, pages), s, t)
    decreases |pages|
  {
    if pages != [] {
      var n := |pages| - 1;
      CleanedAlike(s, room, pages[..n], t);
      CleanPageAlike(Cleaned(s, room, pages[..n]), room, pages[n]);
    }
  }

  /**
   A pass of the cleaner, however its scan was cut into pages, changes no answer of any later run
   of lookups, stores and cleaning, on any contents of the store.
   */
  lemma CleanerIsInvisible(s: Hashes, room: string, pages: seq<Page>, ops: seq<Op>, t: int)
    requires (forall i :: 0 <= i < |pages| ==> pages[i].now <= t) && InOrder(ops, t)
    ensures Outs(Cleaned(s, room, pages), ops) == Outs(s, ops)
  {
    CleanedAlike(s, room, pages, t);
    AlikeForever(Cleaned(s, room, pages), s, ops, t);
  }

  // ------------------------------------------------------------------
  // Senders and cleaners step by step
  // ------------------------------------------------------------------

  /** Where a sender or a cleaner is between two commands. */
  datatype Proc =
    | Sweeping(room: string, batch: set<string>)
    | Erasing(room: string, batch: set<string>)
    | Dropping(request: Request)
    | Sending(request: Request)
    | Storing(request: Request)

  datatype System = System(store: Hashes, inputs: seq<string>, procs: map<nat, Proc>, replies: seq<(Request, string)>)

  /**
   A send looks its field up, drops it if it is dead, hands the event to the room server and stores the
   id. A cleaner scans page by page, then erases its batch one field after the other, or quits.
   */
  datatype Step =
    | Look(pid: nat, request: Request)
    | Drop(pid: nat)
    | Input(pid: nat)
    | Store(pid: nat)
    | Scan(pid: nat, room: string, page: Page)
    | Erase(pid: nat, field: string)
    | Quit(pid: nat)

  const INIT := System(map[], [], map[], [])

  function Key(r: Request): (string, string)
    requires r.txn.Some?
  {
    (r.room, Field(r.room, r.eventType, r.txn.value))
  }

  predicate Enabled(s: System, step: Step) {
    match step
    case Look(pid, _) => pid !in s.procs
    case Drop(pid) => pid in s.procs && s.procs[pid].Dropping? && s.procs[pid].request.txn.Some?
    case Input(pid) => pid in s.procs && s.procs[pid].Sending?
    case Store(pid) => pid in s.procs && s.procs[pid].Storing? && s.procs[pid].request.txn.Some?
    case Scan(pid, room, _) => pid in s.procs ==> s.procs[pid].Sweeping? && s.procs[pid].room == room
    case Erase(pid, field) => pid in s.procs && (s.procs[pid].Sweeping? || s.procs[pid].Erasing?) && field in s.procs[pid].batch
    case Quit(pid) => pid in s.procs && s.procs[pid].Sweeping?
  }

  function Apply(s: System, step: Step): System
    requires Enabled(s, step)
  {
    match step
    case Look(pid, r) =>
      if r.txn.None? then s.(procs := s.procs[pid := Sending(r)])
      else
        var known := Answer(s.store, r.room, Key(r).1, r.now);
        if known.Some? then s.(replies := s.replies + [(r, known.value)])
        else s.(procs := s.procs[pid := if Key(r) in s.store then Dropping(r) else Sending(r)])
    case Drop(pid) =>
      var r := s.procs[pid].request;
      s.(store := s.store - {Key(r)}, procs := s.procs[pid := Sending(r)])
    case Input(pid) =>
      var r := s.procs[pid].request;
      if !r.accepted then s.(procs := s.procs - {pid})
      else if r.txn.None? then System(s.store, s.inputs + [r.eventID], s.procs - {pid}, s.replies + [(r, r.eventID)])
      else s.(inputs := s.inputs + [r.eventID], procs := s.procs[pid := Storing(r)])
    case Store(pid) =>
      var r := s.procs[pid].request;
      System(s.store[Key(r) := Encode(r.later, r.eventID)], s.inputs, s.procs - {pid}, s.replies + [(r, r.eventID)])
    case Scan(pid, room, page) =>
      var batch := if pid in s.procs then s.procs[pid].batch else {};
      s.(procs := s.procs[pid := Sweeping(room, batch + Condemned(s.store, room, page))])
    case Erase(pid, field) =>
      var room, rest := s.procs[pid].room, s.procs[pid].batch - {field};
      s.(store := s.store - {(room, field)},
         procs := if rest == {} then s.procs - {pid} else s.procs[pid := Erasing(room, rest)])
    case Quit(pid) => s.(procs := s.procs - {pid})
  }

  predicate IsRun(states: seq<System>, steps: seq<Step>) {
    |states| == |steps| + 1 &&
    forall i :: 0 <= i < |steps| ==> Enabled(states[i], steps[i]) && states[i + 1] == Apply(states[i], steps[i])
  }

  /** A run from s to s'. */
  predicate Leads(s: System, states: seq<System>, steps: seq<Step>, s': System) {
    IsRun(states, steps) && states[0] == s && states[|steps|] == s'
  }

  lemma OneStep(s: System, step: Step) returns (states: seq<System>, steps: seq<Step>)
    requires Enabled(s, step)
    ensures Leads(s, states, steps, Apply(s, step)) && steps == [step]
  {
    states, steps := [s, Apply(s, step)], [step];
  }

  lemma Joined(s: System, t: System, u: System, states: seq<System>, steps: seq<Step>, states': seq<System>, steps': seq<Step>)
    returns (all: seq<System>, allSteps: seq<Step>)
    requires Leads(s, states, steps, t) && Leads(t, states', steps', u)
    ensures Leads(s, all, allSteps, u)
    ensures allSteps == steps + steps'
  {
    all, allSteps := states + states'[1..], steps + steps';
    var n := |steps|;
    forall i | 0 <= i < |allSteps|
      ensures Enabled(all[i], allSteps[i]) && all[i + 1] == Apply(all[i], allSteps[i])
    {
      if i < n {
        assert all[i] == states[i] && all[i + 1] == states[i + 1];
      } else {
        assert all[i] == states'[i - n] && all[i + 1] == states'[i - n + 1];
      }
    }
    assert all[|allSteps|] == states'[|steps'|];
  }

  // ------------------------------------------------------------------
  // Undisturbed, the steps add up to the whole operations
  // ------------------------------------------------------------------

  function Sent(s: System, r: Request): System {
    var w := After(World(s.store, s.inputs), r);
    var reply := Reply(World(s.store, s.inputs), r);
    System(w.store, w.inputs, s.procs, if reply.Some? then s.replies + [(r, reply.value)] else s.replies)
  }

  /** From the hand-over on, with nothing between. */
  lemma SendsAlone(s: System, pid: nat, r: Request) returns (states: seq<System>, steps: seq<Step>, s': System)
    requires pid in s.procs && s.procs[pid] == Sending(r)
    ensures Leads(s, states, steps, s') && s'.procs == s.procs - {pid}
    ensures !r.accepted ==> s' == s.(procs := s.procs - {pid})
    ensures r.accepted ==> s'.inputs == s.inputs + [r.eventID] && s'.replies == s.replies + [(r, r.eventID)]
    ensures r.accepted ==> s'.store == if r.txn.Some? then s.store[Key(r) := Encode(r.later, r.eventID)] else s.store
  {
    var t := Apply(s, Input(pid));
    states, steps := OneStep(s, Input(pid));
    s' := t;
    if r.accepted && r.txn.Some? {
      s' := Apply(t, Store(pid));
      var states', steps' := OneStep(t, Store(pid));
      states, steps := Joined(s, t, s', states, steps, states', steps');
      assert s'.procs == s.procs - {pid};
    }
  }

  /** A send whose steps nothing comes between does what the whole send does. */
  lemma SendAlone(s: System, pid: nat, r: Request) returns (states: seq<System>, steps: seq<Step>)
    requires pid !in s.procs
    ensures Leads(s, states, steps, Sent(s, r))
  {
    var t := Apply(s, Look(pid, r));
    states, steps := OneStep(s, Look(pid, r));
    if r.txn.Some? {
      LookedStore(s, r);
    }
    if pid in t.procs {
      var u := t;
      if t.procs[pid].Dropping? {
        u := Apply(t, Drop(pid));
        var states', steps' := OneStep(t, Drop(pid));
        states, steps := Joined(s, t, u, states, steps, states', steps');
      }
      var states', steps', v := SendsAlone(u, pid, r);
      states, steps := Joined(s, u, v, states, steps, states', steps');
      assert v.procs == s.procs;
      assert v == Sent(s, r);
    } else {
      assert t == Sent(s, r);
    }
  }

  /** What a lookup leaves in the store. */
  lemma LookedStore(s: System, r: Request)
    requires r.txn.Some?
    ensures var looked := CleanPage(s.store, r.room, Page({Key(r).1}, r.now));
            looked == if Key(r) in s.store && Dead(s.store[Key(r)], r.now) then s.store - {Key(r)} else s.store
  {
    var dead := Condemned(s.store, r.room, Page({Key(r).1}, r.now));
    if Key(r) in s.store && Dead(s.store[Key(r)], r.now) {
      assert dead == {Key(r).1};
    } else {
      assert dead == {};
    }
  }

  lemma {:induction false} ScansAlone(s: System, pid: nat, room: string, pages: seq<Page>)
    returns (states: seq<System>, steps: seq<Step>)
    requires pid !in s.procs && pages != []
    ensures Leads(s, states, steps, s.(procs := s.procs[pid := Sweeping(room, Batch(s.store, room, pages))]))
    decreases |pages|
  {
    var n := |pages| - 1;
    if n == 0 {
      assert pages[..0] == [];
      states, steps := OneStep(s, Scan(pid, room, pages[0]));
    } else {
      var t := s.(procs := s.procs[pid := Sweeping(room, Batch(s.store, room, pages[..n]))]);
      states, steps := ScansAlone(s, pid, room, pages[..n]);
      var states', steps' := OneStep(t, Scan(pid, room, pages[n]));
      states, steps := Joined(s, t, Apply(t, Scan(pid, room, pages[n])), states, steps, states', steps');
      assert Apply(t, Scan(pid, room, pages[n])) == s.(procs := s.procs[pid := Sweeping(room, Batch(s.store, room, pages))]);
    }
  }

  lemma {:induction false} ErasesAlone(s: System, pid: nat) returns (states: seq<System>, steps: seq<Step>)
    requires pid in s.procs && (s.procs[pid].Sweeping? || s.procs[pid].Erasing?) && s.procs[pid].batch != {}
    ensures Leads(s, states, steps, s.(store := Without(s.store, s.procs[pid].room, s.procs[pid].batch), procs := s.procs - {pid}))
    decreases s.procs[pid].batch
  {
    var room, batch := s.procs[pid].room, s.procs[pid].batch;
    var end := s.(store := Without(s.store, room, batch), procs := s.procs - {pid});
    var k :| k in batch;
    var t := Apply(s, Erase(pid, k));
    states, steps := OneStep(s, Erase(pid, k));
    if batch - {k} == {} {
      assert batch == {k};
      assert t == end;
    } else {
      var states', steps' := ErasesAlone(t, pid);
      assert Without(t.store, room, batch - {k}) == end.store;
      assert t.procs - {pid} == end.procs;
      states, steps := Joined(s, t, end, states, steps, states', steps');
    }
  }

  /** A pass of the cleaner that nothing comes between does what the whole pass does. */
  lemma SweepAlone(s: System, pid: nat, room: string, pages: seq<Page>) returns (states: seq<System>, steps: seq<Step>)
    requires pid !in s.procs && pages != []
    ensures Leads(s, states, steps, s.(store := Cleaned(s.store, room, pages)))
  {
    var batch := Batch(s.store, room, pages);
    var t := s.(procs := s.procs[pid := Sweeping(room, batch)]);
    var end := s.(store := Cleaned(s.store, room, pages));
    CleanedIsBatch(s.store, room, pages);
    assert t.procs - {pid} == s.procs;
    states, steps := ScansAlone(s, pid, room, pages);
    var states', steps';
    if batch == {} {
      states', steps' := OneStep(t, Quit(pid));
    } else {
      states', steps' := ErasesAlone(t, pid);
    }
    states, steps := Joined(s, t, end, states, steps, states', steps');
  }

  // ------------------------------------------------------------------
  // How long an id is remembered
  // ------------------------------------------------------------------

  predicate Remembers(store: Hashes, room: string, field: string, ts: int, eventID: string) {
    (room, field) in store && store[(room, field)] == Encode(ts, eventID)
  }

  predicate IsFor(r: Request, room: string, field: string) {
    r.txn.Some? && Key(r) == (room, field)
  }

  /** The step deletes the field, or stores something else in it. */
  predicate Forgets(s: System, step: Step, room: string, field: string, ts: int, eventID: string)
    requires Enabled(s, step)
  {
    match step
    case Erase(pid, k) => s.procs[pid].room == room && k == field
    case Drop(pid) => IsFor(s.procs[pid].request, room, field)
    case Store(pid) =>
      var r := s.procs[pid].request;
      IsFor(r, room, field) && Encode(r.later, r.eventID) != Encode(ts, eventID)
    case _ => false
  }

  lemma StepRemembersIff(s: System, step: Step, room: string, field: string, ts: int, eventID: string)
    requires Enabled(s, step) && Remembers(s.store, room, field, ts, eventID)
    ensures Remembers(Apply(s, step).store, room, field, ts, eventID) <==> !Forgets(s, step, room, field, ts, eventID)
  {
  }

  lemma {:induction false} RunRemembers(states: seq<System>, steps: seq<Step>, n: nat, room: string, field: string, ts: int, eventID: string)
    requires IsRun(states, steps) && Remembers(states[0].store, room, field, ts, eventID) && n <= |steps|
    requires forall i :: 0 <= i < n ==> !Forgets(states[i], steps[i], room, field, ts, eventID)
    ensures Remembers(states[n].store, room, field, ts, eventID)
  {
    if n > 0 {
      RunRemembers(states, steps, n - 1, room, field, ts, eventID);
      StepRemembersIff(states[n - 1], steps[n - 1], room, field, ts, eventID);
    }
  }

  /** Over a run, the id stays exactly as long as no step forgets it. */
  lemma RunRemembersIff(states: seq<System>, steps: seq<Step>, room: string, field: string, ts: int, eventID: string)
    requires IsRun(states, steps) && Remembers(states[0].store, room, field, ts, eventID)
    ensures (forall m :: 0 <= m <= |steps| ==> Remembers(states[m].store, room, field, ts, eventID))
        <==> (forall i :: 0 <= i < |steps| ==> !Forgets(states[i], steps[i], room, field, ts, eventID))
  {
    if forall i :: 0 <= i < |steps| ==> !Forgets(states[i], steps[i], room, field, ts, eventID) {
      forall m | 0 <= m <= |steps|
        ensures Remembers(states[m].store, room, field, ts, eventID)
      {
        RunRemembers(states, steps, m, room, field, ts, eventID);
      }
    } else {
      var i :| 0 <= i < |steps| && Forgets(states[i], steps[i], room, field, ts, eventID);
      if Remembers(states[i].store, room, field, ts, eventID) {
        StepRemembersIff(states[i], steps[i], room, field, ts, eventID);
        assert !Remembers(states[i + 1].store, room, field, ts, eventID);
      }
    }
  }

  /** The moment of a lookup or a scan. The other steps do not look at the clock. */
  predicate By(step: Step, t: int) {
    match step
    case Look(_, r) => r.now <= t
    case Scan(_, _, page) => page.now <= t
    case _ => true
  }

  /** The process, as it stands, can still delete or overwrite the id. */
  predicate Threatens(p: Proc, room: string, field: string, ts: int, eventID: string) {
    match p
    case Sweeping(r, batch) => r == room && field in batch
    case Erasing(r, batch) => r == room && field in batch
    case Dropping(r) => IsFor(r, room, field)
    case Sending(r) => IsFor(r, room, field) && r.accepted && Encode(r.later, r.eventID) != Encode(ts, eventID)
    case Storing(r) => IsFor(r, room, field) && Encode(r.later, r.eventID) != Encode(ts, eventID)
  }

  predicate Unthreatened(s: System, room: string, field: string, ts: int, eventID: string) {
    forall pid :: pid in s.procs ==> !Threatens(s.procs[pid], room, field, ts, eventID)
  }

  /** Within the thirty seconds no step starts a new threat, and a step that forgets carries out an old one. */
  lemma StepUnthreatened(s: System, step: Step, room: string, field: string, ts: int, eventID: string)
    requires IsInt64(ts) && Enabled(s, step) && By(step, ts + TXN_DURATION)
    requires Remembers(s.store, room, field, ts, eventID) && Unthreatened(s, room, field, ts, eventID)
    ensures Remembers(Apply(s, step).store, room, field, ts, eventID)
    ensures Unthreatened(Apply(s, step), room, field, ts, eventID)
  {
    StepRemembersIff(s, step, room, field, ts, eventID);
    forall pid | pid in Apply(s, step).procs
      ensures !Threatens(Apply(s, step).procs[pid], room, field, ts, eventID)
    {
      NoNewThreat(s, step, pid, room, field, ts, eventID);
    }
  }

  lemma NoNewThreat(s: System, step: Step, pid: nat, room: string, field: string, ts: int, eventID: string)
    requires IsInt64(ts) && Enabled(s, step) && By(step, ts + TXN_DURATION) && pid in Apply(s, step).procs
    requires Remembers(s.store, room, field, ts, eventID)
    requires pid in s.procs ==> !Threatens(s.procs[pid], room, field, ts, eventID)
    ensures !Threatens(Apply(s, step).procs[pid], room, field, ts, eventID)
  {
    if step.Look? && step.pid == pid {
      LookStartsOther(s, pid, step.request, room, field, ts, eventID);
    } else if step.Scan? && step.pid == pid {
      ScanSpares(s, step, room, field, ts, eventID);
    }
  }

  /** A send that goes on after its lookup is of another field. */
  lemma LookStartsOther(s: System, pid: nat, r: Request, room: string, field: string, ts: int, eventID: string)
    requires Enabled(s, Look(pid, r)) && pid in Apply(s, Look(pid, r)).procs
    requires IsInt64(ts) && r.now <= ts + TXN_DURATION && Remembers(s.store, room, field, ts, eventID)
    ensures !IsFor(r, room, field)
    ensures Apply(s, Look(pid, r)).procs[pid] == Dropping(r) || Apply(s, Look(pid, r)).procs[pid] == Sending(r)
  {
    StillAlive(ts, eventID, r.now);
  }

  /** And a scan does not collect the field. */
  lemma ScanSpares(s: System, step: Step, room: string, field: string, ts: int, eventID: string)
    requires step.Scan? && Enabled(s, step) && step.page.now <= ts + TXN_DURATION
    requires IsInt64(ts) && Remembers(s.store, room, field, ts, eventID)
    ensures step.room == room ==> field !in Condemned(s.store, room, step.page)
  {
    StillAlive(ts, eventID, step.page.now);
  }

  lemma StillAlive(ts: int, eventID: string, now: int)
    requires IsInt64(ts) && now <= ts + TXN_DURATION
    ensures !Dead(Encode(ts, eventID), now)
  {
    DecodeEncode(ts, eventID);
  }

  lemma {:induction false} RunUnthreatened(states: seq<System>, steps: seq<Step>, n: nat, room: string, field: string, ts: int, eventID: string)
    requires IsInt64(ts) && IsRun(states, steps) && n <= |steps|
    requires forall i :: 0 <= i < n ==> By(steps[i], ts + TXN_DURATION)
    requires Remembers(states[0].store, room, field, ts, eventID) && Unthreatened(states[0], room, field, ts, eventID)
    ensures Remembers(states[n].store, room, field, ts, eventID) && Unthreatened(states[n], room, field, ts, eventID)
  {
    if n > 0 {
      RunUnthreatened(states, steps, n - 1, room, field, ts, eventID);
      StepUnthreatened(states[n - 1], steps[n - 1], room, field, ts, eventID);
    }
  }

  /** No run from here whose lookups and scans fall within the thirty seconds loses the id. */
  ghost predicate Survives(s: System, room: string, field: string, ts: int, eventID: string) {
    forall states: seq<System>, steps: seq<Step> ::
      IsRun(states, steps) && states[0] == s && (forall i :: 0 <= i < |steps| ==> By(steps[i], ts + TXN_DURATION))
      ==> Remembers(states[|steps|].store, room, field, ts, eventID)
  }

  lemma ThreatCarriedOut(s: System, pid: nat, room: string, field: string, ts: int, eventID: string)
    requires pid in s.procs && Threatens(s.procs[pid], room, field, ts, eventID)
    ensures !Survives(s, room, field, ts, eventID)
  {
    var states, steps;
    match s.procs[pid] {
    case Sweeping(_, _) => states, steps := OneStep(s, Erase(pid, field));
    case Erasing(_, _) => states, steps := OneStep(s, Erase(pid, field));
    case Dropping(_) => states, steps := OneStep(s, Drop(pid));
    case Storing(_) => states, steps := OneStep(s, Store(pid));
    case Sending(_) =>
      var t := Apply(s, Input(pid));
      var states', steps' := OneStep(t, Store(pid));
      states, steps := OneStep(s, Input(pid));
      states, steps := Joined(s, t, Apply(t, Store(pid)), states, steps, states', steps');
    }
    assert Leads(s, states, steps, states[|steps|]);
  }

  /**
   An id in the store is safe for its thirty seconds, under every interleaving of sends and cleaners,
   exactly when at this moment no cleaner has its field in a batch and no other send of the field is
   under way past its lookup.
   */
  lemma SurvivesIff(s: System, room: string, field: string, ts: int, eventID: string)
    requires IsInt64(ts) && Remembers(s.store, room, field, ts, eventID)
    ensures Survives(s, room, field, ts, eventID) <==> Unthreatened(s, room, field, ts, eventID)
  {
    if Unthreatened(s, room, field, ts, eventID) {
      forall states: seq<System>, steps: seq<Step> |
        IsRun(states, steps) && states[0] == s && forall i :: 0 <= i < |steps| ==> By(steps[i], ts + TXN_DURATION)
        ensures Remembers(states[|steps|].store, room, field, ts, eventID)
      {
        RunUnthreatened(states, steps, |steps|, room, field, ts, eventID);
      }
    } else {
      var pid :| pid in s.procs && Threatens(s.procs[pid], room, field, ts, eventID);
      ThreatCarriedOut(s, pid, room, field, ts, eventID);
    }
  }

  // ------------------------------------------------------------------
  // A repeated send, and the cleaner's race
  // ------------------------------------------------------------------

  predicate Erases(s: System, step: Step, room: string, field: string)
    requires Enabled(s, step)
  {
    step.Erase? && s.procs[step.pid].room == room && step.field == field
  }

  predicate SendsFor(p: Proc, room: string, field: string) {
    (p.Dropping? || p.Sending? || p.Storing?) && IsFor(p.request, room, field)
  }

  /** No send of the field is between its lookup and its end. */
  predicate NoSend(s: System, room: string, field: string) {
    forall pid :: pid in s.procs ==> !SendsFor(s.procs[pid], room, field)
  }

  lemma StepNoSend(s: System, step: Step, room: string, field: string, ts: int, eventID: string)
    requires IsInt64(ts) && Enabled(s, step) && By(step, ts + TXN_DURATION)
    requires Remembers(s.store, room, field, ts, eventID) && NoSend(s, room, field)
    ensures NoSend(Apply(s, step), room, field)
    ensures Remembers(Apply(s, step).store, room, field, ts, eventID) <==> !Erases(s, step, room, field)
  {
    StepRemembersIff(s, step, room, field, ts, eventID);
    forall pid | pid in Apply(s, step).procs
      ensures !SendsFor(Apply(s, step).procs[pid], room, field)
    {
      NoNewSend(s, step, pid, room, field, ts, eventID);
    }
  }

  lemma NoNewSend(s: System, step: Step, pid: nat, room: string, field: string, ts: int, eventID: string)
    requires IsInt64(ts) && Enabled(s, step) && By(step, ts + TXN_DURATION) && pid in Apply(s, step).procs
    requires Remembers(s.store, room, field, ts, eventID) && (pid in s.procs ==> !SendsFor(s.procs[pid], room, field))
    ensures !SendsFor(Apply(s, step).procs[pid], room, field)
  {
    if step.Look? && step.pid == pid {
      LookStartsOther(s, pid, step.request, room, field, ts, eventID);
    }
  }

  lemma {:induction false} RunNoSend(states: seq<System>, steps: seq<Step>, n: nat, room: string, field: string, ts: int, eventID: string)
    requires IsInt64(ts) && IsRun(states, steps) && n <= |steps|
    requires forall i :: 0 <= i < n ==> By(steps[i], ts + TXN_DURATION) && !Erases(states[i], steps[i], room, field)
    requires Remembers(states[0].store, room, field, ts, eventID) && NoSend(states[0], room, field)
    ensures Remembers(states[n].store, room, field, ts, eventID) && NoSend(states[n], room, field)
  {
    if n > 0 {
      RunNoSend(states, steps, n - 1, room, field, ts, eventID);
      StepNoSend(states[n - 1], steps[n - 1], room, field, ts, eventID);
    }
  }

  /**
   Once stored, with no other send of the field still under way, the id stays through its thirty
   seconds exactly when no cleaner erases the field: a batch collected before the store is enough.
   */
  lemma KeptUnlessErased(states: seq<System>, steps: seq<Step>, room: string, field: string, ts: int, eventID: string)
    requires IsInt64(ts) && IsRun(states, steps)
    requires forall i :: 0 <= i < |steps| ==> By(steps[i], ts + TXN_DURATION)
    requires Remembers(states[0].store, room, field, ts, eventID) && NoSend(states[0], room, field)
    ensures (forall m :: 0 <= m <= |steps| ==> Remembers(states[m].store, room, field, ts, eventID))
        <==> (forall i :: 0 <= i < |steps| ==> !Erases(states[i], steps[i], room, field))
  {
    if forall i :: 0 <= i < |steps| ==> !Erases(states[i], steps[i], room, field) {
      forall m | 0 <= m <= |steps|
        ensures Remembers(states[m].store, room, field, ts, eventID)
      {
        RunNoSend(states, steps, m, room, field, ts, eventID);
      }
    } else {
      var i :| 0 <= i < |steps| && Erases(states[i], steps[i], room, field);
      if Remembers(states[i].store, room, field, ts, eventID) {
        StepRemembersIff(states[i], steps[i], room, field, ts, eventID);
        assert !Remembers(states[i + 1].store, room, field, ts, eventID);
      }
    }
  }

  predicate Repeats(first: Request, again: Request) {
    again.room == first.room && again.eventType == first.eventType && again.txn == first.txn
  }

  /** A repeat that finds the id is answered with it, and comes to nothing else. */
  lemma RepeatAnswered(s: System, pid: nat, first: Request, again: Request)
    requires first.txn.Some? && IsInt64(first.later) && pid !in s.procs && Repeats(first, again)
    requires Remembers(s.store, Key(first).0, Key(first).1, first.later, first.eventID)
    requires again.now <= first.later + TXN_DURATION
    ensures Apply(s, Look(pid, again)) == s.(replies := s.replies + [(again, first.eventID)])
  {
    DecodeEncode(first.later, first.eventID);
  }

  /**
   Deduplication, under every interleaving: a send stores its id, no other send of its field is under
   way, and no cleaner erases the field afterwards. Then the same room, type and transaction id sent
   again within thirty seconds is told the first event id, and nothing is input a second time.
   */
  lemma RepeatIsDeduplicated(states: seq<System>, steps: seq<Step>, n: nat, first: Request, again: Request)
    requires IsRun(states, steps) && 0 < n < |steps| && IsInt64(first.later)
    requires steps[0].Store? && states[0].procs[steps[0].pid].request == first
    requires NoSend(states[1], Key(first).0, Key(first).1)
    requires forall i :: 1 <= i < n ==>
               By(steps[i], first.later + TXN_DURATION) && !Erases(states[i], steps[i], Key(first).0, Key(first).1)
    requires steps[n].Look? && steps[n].request == again && Repeats(first, again)
    requires again.now <= first.later + TXN_DURATION
    ensures states[n + 1] == states[n].(replies := states[n].replies + [(again, first.eventID)])
  {
    var states', steps' := states[1..], steps[1..];
    assert IsRun(states', steps') by {
      assert forall i :: 0 <= i < |steps'| ==> states'[i] == states[i + 1] && steps'[i] == steps[i + 1];
    }
    RunNoSend(states', steps', n - 1, Key(first).0, Key(first).1, first.later, first.eventID);
    RepeatAnswered(states[n], steps[n].pid, first, again);
  }

  /**
   What the cleaner can do: an old id is scanned as expired, the field is sent again and stored, and
   only then does the batch go. The client was told `id`, and the same send within thirty seconds of
   that is input once more.
   */
  lemma CleanerErasesFreshID(earlier: Request, first: Request, again: Request) returns (states: seq<System>, steps: seq<Step>)
    requires earlier.accepted && first.accepted && again.accepted && earlier.txn.Some? && Repeats(earlier, first) && Repeats(first, again)
    requires IsInt64(earlier.later) && IsInt64(first.later)
    requires earlier.later + TXN_DURATION < first.now <= first.later <= again.now <= first.later + TXN_DURATION
    ensures IsRun(states, steps) && states[0] == INIT
    ensures var end := states[|steps|];
            && end.procs == map[]
            && end.inputs == [earlier.eventID, first.eventID, again.eventID]
            && end.replies == [(earlier, earlier.eventID), (first, first.eventID), (again, again.eventID)]
  {
    var room, field, page := Key(earlier).0, Key(earlier).1, Page({Key(earlier).1}, first.now);
    var s1, s2, s3, s4, s5 := RaceStates(earlier, first, again, page);
    states, steps := SendAlone(INIT, 0, earlier);
    var states', steps' := OneStep(s1, Scan(1, room, page));
    states, steps := Joined(INIT, s1, s2, states, steps, states', steps');
    states', steps' := SendAlone(s2, 0, first);
    states, steps := Joined(INIT, s2, s3, states, steps, states', steps');
    states', steps' := OneStep(s3, Erase(1, field));
    states, steps := Joined(INIT, s3, s4, states, steps, states', steps');
    states', steps' := SendAlone(s4, 0, again);
    states, steps := Joined(INIT, s4, s5, states, steps, states', steps');
  }

  /** A send that finds no answer and is accepted. */
  lemma SentFresh(s: System, r: Request)
    requires r.accepted && r.txn.Some? && Answer(s.store, Key(r).0, Key(r).1, r.now).None?
    ensures Sent(s, r) == System(s.store[Key(r) := Encode(r.later, r.eventID)], s.inputs + [r.eventID], s.procs, s.replies + [(r, r.eventID)])
  {
    LookedStore(s, r);
    assert (s.store - {Key(r)})[Key(r) := Encode(r.later, r.eventID)] == s.store[Key(r) := Encode(r.later, r.eventID)];
  }

  /** An id is stored, expires, and is collected by a scan. */
  lemma ScannedStates(earlier: Request, page: Page) returns (s1: System, s2: System)
    requires earlier.accepted && earlier.txn.Some? && IsInt64(earlier.later)
    requires page.fields == {Key(earlier).1} && earlier.later + TXN_DURATION < page.now
    ensures s1 == Sent(INIT, earlier) && s2 == Apply(s1, Scan(1, earlier.room, page))
    ensures s1 == System(map[Key(earlier) := Encode(earlier.later, earlier.eventID)], [earlier.eventID], map[], [(earlier, earlier.eventID)])
    ensures s2 == s1.(procs := map[1 := Sweeping(earlier.room, {Key(earlier).1})])
  {
    var room, field := earlier.room, Key(earlier).1;
    DecodeEncode(earlier.later, earlier.eventID);
    s1 := Sent(INIT, earlier);
    SentFresh(INIT, earlier);
    assert Condemned(s1.store, room, page) == {field};
    s2 := Apply(s1, Scan(1, room, page));
    assert s2.procs[1].batch == {field};
    assert s2.procs == map[1 := Sweeping(room, {field})];
  }

  /** The states between the five legs of the race. */
  lemma RaceStates(earlier: Request, first: Request, again: Request, page: Page)
    returns (s1: System, s2: System, s3: System, s4: System, s5: System)
    requires earlier.accepted && first.accepted && again.accepted && earlier.txn.Some? && Repeats(earlier, first) && Repeats(first, again)
    requires IsInt64(earlier.later) && earlier.later + TXN_DURATION < first.now && page == Page({Key(earlier).1}, first.now)
    ensures s1 == Sent(INIT, earlier) && s1.procs == map[]
    ensures s2 == Apply(s1, Scan(1, earlier.room, page)) && 0 !in s2.procs
    ensures s3 == Sent(s2, first)
    ensures Enabled(s3, Erase(1, Key(earlier).1)) && s4 == Apply(s3, Erase(1, Key(earlier).1)) && s4.procs == map[]
    ensures s5 == Sent(s4, again) && s5.procs == map[]
    ensures s5.inputs == [earlier.eventID, first.eventID, again.eventID]
    ensures s5.replies == [(earlier, earlier.eventID), (first, first.eventID), (again, again.eventID)]
  {
    var room, field := earlier.room, Key(earlier).1;
    assert Key(first) == Key(earlier) && Key(again) == Key(earlier);
    s1, s2 := ScannedStates(earlier, page);
    s3 := ResentState(s2, earlier, first);
    s4 := ErasedState(s3, room, field);
    s5 := SentAgain(s4, again);
  }

  /** The field holds an id that has expired, and is sent again. */
  lemma ResentState(s: System, earlier: Request, first: Request) returns (s': System)
    requires first.accepted && earlier.txn.Some? && Repeats(earlier, first) && IsInt64(earlier.later)
    requires Remembers(s.store, Key(earlier).0, Key(earlier).1, earlier.later, earlier.eventID)
    requires earlier.later + TXN_DURATION < first.now
    ensures s' == Sent(s, first) && s'.procs == s.procs
    ensures s'.inputs == s.inputs + [first.eventID] && s'.replies == s.replies + [(first, first.eventID)]
  {
    DecodeEncode(earlier.later, earlier.eventID);
    SentFresh(s, first);
    s' := Sent(s, first);
  }

  /** The field is gone, and is sent once more. */
  lemma SentAgain(s: System, again: Request) returns (s': System)
    requires again.accepted && again.txn.Some? && Key(again) !in s.store
    ensures s' == Sent(s, again) && s'.procs == s.procs
    ensures s'.inputs == s.inputs + [again.eventID] && s'.replies == s.replies + [(again, again.eventID)]
  {
    SentFresh(s, again);
    s' := Sent(s, again);
  }

  lemma ErasedState(s: System, room: string, field: string) returns (s': System)
    requires s.procs == map[1 := Sweeping(room, {field})]
    ensures Enabled(s, Erase(1, field)) && s' == Apply(s, Erase(1, field))
    ensures s' == s.(store := s.store - {(room, field)}, procs := map[])
  {
    s' := Apply(s, Erase(1, field));
    assert {field} - {field} == {};
    assert s.procs - {1} == map[];
  }

  /** And two sends of one transaction id that both look before either stores are both input. */
  lemma OverlappingSendsBothInput(first: Request, again: Request) returns (states: seq<System>, steps: seq<Step>)
    requires first.accepted && again.accepted && first.txn.Some? && Repeats(first, again)
    ensures IsRun(states, steps) && states[0] == INIT
    ensures states[|steps|].inputs == [first.eventID, again.eventID]
  {
    steps := [Look(0, first), Look(1, again), Input(0), Input(1)];
    var s1 := Apply(INIT, steps[0]);
    var s2 := Apply(s1, steps[1]);
    var s3 := Apply(s2, steps[2]);
    states := [INIT, s1, s2, s3, Apply(s3, steps[3])];
  }

  // ------------------------------------------------------------------
  // When an erase cannot be noticed
  // ------------------------------------------------------------------

  /** An erase changes no answer from time t on exactly when the field is gone or dead at t. */
  lemma EraseInvisibleIff(store: Hashes, room: string, field: string, t: int)
    ensures Alike(store - {(room, field)}, store, t) <==> ((room, field) in store ==> Dead(store[(room, field)], t))
  {
    if (room, field) in store && !Dead(store[(room, field)], t) {
      assert Answer(store, room, field, t) != Answer(store - {(room, field)}, room, field, t);
    }
  }

  predicate Holds(p: Proc, room: string, field: string) {
    (p.Sweeping? || p.Erasing?) && p.room == room && field in p.batch
  }

  /** Whatever a cleaner has in its batch is gone or dead. */
  ghost predicate BatchesDead(s: System, t: int) {
    forall pid, room, field :: pid in s.procs && Holds(s.procs[pid], room, field) && (room, field) in s.store
                               ==> Dead(s.store[(room, field)], t)
  }

  /** The step stores into a field that some cleaner has in its batch. */
  ghost predicate Collides(s: System, step: Step)
    requires Enabled(s, step)
  {
    step.Store? && exists pid :: pid in s.procs && Holds(s.procs[pid], Key(s.procs[step.pid].request).0, Key(s.procs[step.pid].request).1)
  }

  lemma StepBatchesDead(s: System, step: Step, t: int)
    requires Enabled(s, step) && By(step, t) && BatchesDead(s, t) && !Collides(s, step)
    ensures BatchesDead(Apply(s, step), t)
  {
    var s' := Apply(s, step);
    forall pid, room, field | pid in s'.procs && Holds(s'.procs[pid], room, field) && (room, field) in s'.store
      ensures Dead(s'.store[(room, field)], t)
    {
      if pid in s.procs && Holds(s.procs[pid], room, field) {
        HeldStaysDead(s, step, t, pid, room, field);
      } else {
        assert step.Scan? && step.pid == pid && room == step.room && field in Condemned(s.store, room, step.page);
      }
    }
  }

  lemma HeldStaysDead(s: System, step: Step, t: int, pid: nat, room: string, field: string)
    requires Enabled(s, step) && BatchesDead(s, t) && !Collides(s, step)
    requires pid in s.procs && Holds(s.procs[pid], room, field) && (room, field) in Apply(s, step).store
    ensures Dead(Apply(s, step).store[(room, field)], t)
  {
  }

  lemma {:induction false} RunBatchesDead(states: seq<System>, steps: seq<Step>, n: nat, t: int)
    requires IsRun(states, steps) && states[0] == INIT && n <= |steps|
    requires forall i :: 0 <= i < n ==> By(steps[i], t) && !Collides(states[i], steps[i])
    ensures BatchesDead(states[n], t)
  {
    if n > 0 {
      RunBatchesDead(states, steps, n - 1, t);
      StepBatchesDead(states[n - 1], steps[n - 1], t);
    }
  }

  /**
   On every run in which no send stores into a field that a cleaner has collected, what the cleaners
   erase is never missed.
   */
  lemma SweepsAreInvisible(states: seq<System>, steps: seq<Step>, n: nat, t: int)
    requires IsRun(states, steps) && states[0] == INIT && n < |steps| && steps[n].Erase?
    requires forall i :: 0 <= i < n ==> By(steps[i], t) && !Collides(states[i], steps[i])
    ensures Alike(states[n + 1].store, states[n].store, t)
  {
    RunBatchesDead(states, steps, n, t);
    var room := states[n].procs[steps[n].pid].room;
    assert Holds(states[n].procs[steps[n].pid], room, steps[n].field);
    EraseInvisibleIff(states[n].store, room, steps[n].field, t);
  }

  // ------------------------------------------------------------------
  // What counts as a repeat
  // ------------------------------------------------------------------

  /** Thirty seconds is exact: one more, and the same send goes to the room server again. */
  lemma ForgottenAfterDuration(w: World, room: string, eventType: string, txn: string, ts: int, eventID: string, again: Request)
    requires IsInt64(ts) && Remembers(w.store, room, Field(room, eventType, txn), ts, eventID)
    requires again.room == room && again.eventType == eventType && again.txn == Some(txn) && again.accepted
    ensures After(w, again).inputs == w.inputs + [again.eventID] <==> again.now > ts + 30
  {
    DecodeEncode(ts, eventID);
    assert w.inputs + [again.eventID] != w.inputs by { assert |w.inputs + [again.eventID]| == |w.inputs| + 1; }
  }

  /**
   The memory is shared further than that: within the thirty seconds, another send in the room is
   swallowed in its favour exactly when its type and transaction id run together to the same text.
   For every other send the memory might as well not be there.
   */
  lemma SwallowedIff(w: World, room: string, eventType: string, txn: string, ts: int, eventID: string, other: Request)
    requires IsInt64(ts) && Remembers(w.store, room, Field(room, eventType, txn), ts, eventID)
    requires other.room == room && other.txn.Some? && other.now <= ts + TXN_DURATION
    ensures var same := other.eventType + other.txn.value == eventType + txn;
            var without := w.(store := w.store - {(room, Field(room, eventType, txn))});
            && (same ==> Reply(w, other) == Some(eventID) && After(w, other).inputs == w.inputs)
            && (!same ==> Reply(w, other) == Reply(without, other) && After(w, other).inputs == After(without, other).inputs)
  {
    FieldsEqualIff(room, eventType, txn, other.eventType, other.txn.value);
    if other.eventType + other.txn.value == eventType + txn {
      DecodeEncode(ts, eventID);
    } else {
      OtherFieldUnaffected(w, room, Field(room, eventType, txn), other);
    }
  }

  lemma OtherFieldUnaffected(w: World, room: string, field: string, other: Request)
    requires other.txn.Some? && Key(other) != (room, field)
    ensures var without := w.(store := w.store - {(room, field)});
            Reply(w, other) == Reply(without, other) && After(w, other).inputs == After(without, other).inputs
  {
    assert Answer(w.store, other.room, Key(other).1, other.now)
        == Answer(w.store - {(room, field)}, other.room, Key(other).1, other.now);
  }

  lemma FieldsEqualIff(room: string, t1: string, x1: string, t2: string, x2: string)
    ensures Field(room, t1, x1) == Field(room, t2, x2) <==> t1 + x1 == t2 + x2
  {
    assert Field(room, t1, x1) == room + (t1 + x1) && Field(room, t2, x2) == room + (t2 + x2);
    assert (room + (t1 + x1))[|room|..] == t1 + x1 && (room + (t2 + x2))[|room|..] == t2 + x2;
  }
}
