/**
 The media download scheduler (content/download/consumer.go, content/repos/downloadStateRepo.go).

 `DownloadConsumer` holds the two lanes, the cached waiting list and the worker count, as the
 code updates them under its mutex. The protocol below interleaves any number of pushes,
 workers and waiters; one step is one critical section or one map operation.
 */
module DownloadPool {
  import opened Text
  import opened History

  datatype Info = Info(roomID: string, userID: string, eventID: string)

  /** Only such jobs are pushed again after a failure. */
  predicate Durable(info: Info) {
    info.roomID != "" && info.eventID != ""
  }

  const ADD_REQ := Info("", "@fakeUser:fakeDomain.com", "")

  // ------------------------------------------------------------------
  // Keys
  // ------------------------------------------------------------------

  function BuildKey(domain: string, netdiskID: string): string {
    domain + "/" + netdiskID
  }

  /** strings.SplitN(key, "/", 2). */
  function SplitKey(key: string): (string, string, bool) {
    var i := IndexOf(key, '/');
    if i == -1 then ("", "", false) else (key[..i], key[i + 1..], true)
  }

  lemma BuildAfterSplit(key: string)
    ensures var (domain, netdiskID, ok) := SplitKey(key);
            && (ok <==> '/' in key)
            && (BuildKey(domain, netdiskID) == key <==> ok)
  {
    var i := IndexOf(key, '/');
    if i >= 0 {
      assert key == key[..i] + [key[i]] + key[i + 1..];
    } else {
      assert BuildKey("", "") == "/";
      assert "/"[0] == '/';
    }
  }

  /** A domain and an id come back from their key unless the domain holds a slash itself. */
  lemma SplitAfterBuild(domain: string, netdiskID: string)
    ensures SplitKey(BuildKey(domain, netdiskID)) == (domain, netdiskID, true) <==> '/' !in domain
  {
    if '/' !in domain {
      IndexOfPrefixed(domain, netdiskID, '/');
      var key := BuildKey(domain, netdiskID);
      assert key[..|domain|] == domain && key[|domain| + 1..] == netdiskID;
    }
  }

  // ------------------------------------------------------------------
  // Lanes and the choice of a job
  // ------------------------------------------------------------------

  datatype Lanes = Lanes(thumbnails: map<string, Info>, downloads: map<string, Info>)

  function Lane(q: Lanes, thumb: bool): map<string, Info> {
    if thumb then q.thumbnails else q.downloads
  }

  function WithLane(q: Lanes, thumb: bool, lane: map<string, Info>): (q': Lanes)
    ensures Lane(q', thumb) == lane && Lane(q', !thumb) == Lane(q, !thumb)
  {
    if thumb then q.(thumbnails := lane) else q.(downloads := lane)
  }

  predicate Queued(q: Lanes, key: string) {
    key in q.thumbnails || key in q.downloads
  }

  predicate NoJobs(q: Lanes) {
    q.thumbnails == map[] && q.downloads == map[]
  }

  function FirstQueued(q: Lanes, list: seq<string>): (i: nat)
    ensures i <= |list|
    ensures i < |list| ==> Queued(q, list[i])
    ensures forall j :: 0 <= j < i ==> !Queued(q, list[j])
  {
    if list == [] then 0
    else if Queued(q, list[0]) then 0
    else
      var i := FirstQueued(q, list[1..]) + 1;
      assert forall j :: 1 <= j < i ==> list[j] == list[1..][j - 1];
      i
  }

  /** What getOne may take: the first waited-for key that is queued, else any thumbnail, else any download. */
  predicate Picks(q: Lanes, list: seq<string>, key: string, thumb: bool) {
    var i := FirstQueued(q, list);
    && key in Lane(q, thumb)
    && (if i < |list| then key == list[i] && thumb == (key in q.thumbnails)
        else thumb == (q.thumbnails != map[]))
  }

  function ListAfter(q: Lanes, list: seq<string>): seq<string> {
    var i := FirstQueued(q, list);
    if i < |list| then list[i + 1..] else []
  }

  datatype WaitElem = WaitElem(key: string, amt: int)

  /** The waiters per key, each key once, in ascending order of their number. */
  ghost predicate IsWaitingList(list: seq<WaitElem>, waiting: map<string, int>) {
    && (forall i :: 0 <= i < |list| ==> list[i].key in waiting && list[i].amt == waiting[list[i].key])
    && (forall k :: k in waiting ==> WaitElem(k, waiting[k]) in list)
    && Ascending(list)
  }

  predicate Ascending(list: seq<WaitElem>) {
    forall i, j :: 0 <= i < j < |list| ==> list[i].key != list[j].key && list[i].amt <= list[j].amt
  }

  function KeysOf(list: seq<WaitElem>): (keys: seq<string>)
    ensures |keys| == |list|
  {
    seq(|list|, i requires 0 <= i < |list| => list[i].key)
  }

  /** The list getOne walks: the cached one, or a new one when that has run out. */
  function Walked(list: seq<string>, latest: seq<WaitElem>): seq<string> {
    if list == [] then KeysOf(latest) else list
  }

  lemma Listed(latest: seq<WaitElem>, waiting: map<string, int>, k: string) returns (i: nat)
    requires IsWaitingList(latest, waiting) && k in waiting
    ensures i < |latest| && KeysOf(latest)[i] == latest[i].key == k
  {
    assert WaitElem(k, waiting[k]) in latest;
    i :| 0 <= i < |latest| && latest[i] == WaitElem(k, waiting[k]);
  }

  /** The keys of the list are waited for, each by no fewer than those before it. */
  lemma ListedInOrder(latest: seq<WaitElem>, waiting: map<string, int>, i: nat, j: nat)
    requires IsWaitingList(latest, waiting) && i <= j < |latest|
    ensures var list := KeysOf(latest);
            list[i] in waiting && list[j] in waiting && waiting[list[i]] <= waiting[list[j]]
  {
  }

  /**
   Which waited-for key is served: with a new list, one with the fewest waiters among those that are
   queued.
   */
  lemma FewestWaitersFirst(q: Lanes, latest: seq<WaitElem>, waiting: map<string, int>, key: string, thumb: bool, k: string)
    requires IsWaitingList(latest, waiting) && Picks(q, Walked([], latest), key, thumb)
    requires k in waiting && Queued(q, k)
    ensures key in waiting && Queued(q, key) && waiting[key] <= waiting[k]
    ensures k == key || k in ListAfter(q, Walked([], latest))
  {
    var list := KeysOf(latest);
    var n := FirstQueued(q, list);
    var i := Listed(latest, waiting, k);
    ListedInOrder(latest, waiting, n, i);
    if i > n {
      assert ListAfter(q, list)[i - n - 1] == k;
    }
  }

  /** And what is left of the list has the fewest first again, none fewer than the one that was served. */
  lemma RestInOrder(q: Lanes, latest: seq<WaitElem>, waiting: map<string, int>, key: string, thumb: bool, i: nat, j: nat)
    requires IsWaitingList(latest, waiting) && Picks(q, Walked([], latest), key, thumb)
    requires i <= j < |ListAfter(q, Walked([], latest))|
    ensures var rest := ListAfter(q, Walked([], latest));
            key in waiting && rest[i] in waiting && rest[j] in waiting && waiting[key] <= waiting[rest[i]] <= waiting[rest[j]]
  {
    var n := FirstQueued(q, KeysOf(latest));
    ListedInOrder(latest, waiting, n, n + 1 + i);
    ListedInOrder(latest, waiting, n + 1 + i, n + 1 + j);
  }

  /**
   Which lane a job comes from: a key in both comes out of the thumbnails, and a download that nobody
   waits for is taken only when there are no thumbnails. A cached list is served in its own order.
   */
  lemma ThumbnailsFirst(q: Lanes, list: seq<string>, key: string, thumb: bool)
    requires Picks(q, list, key, thumb)
    ensures (thumb ==> key in q.thumbnails) && (!thumb ==> key in q.downloads && key !in q.thumbnails)
    ensures (forall i :: 0 <= i < |list| ==> !Queued(q, list[i])) ==> (!thumb <==> q.thumbnails == map[])
    ensures forall i :: 0 <= i < |list| && Queued(q, list[i]) && (forall j :: 0 <= j < i ==> !Queued(q, list[j])) ==>
              key == list[i] && ListAfter(q, list) == list[i + 1..]
  {
  }

  lemma InsertAscending(list: seq<WaitElem>, k: nat, e: WaitElem)
    requires Ascending(list) && k <= |list|
    requires forall i :: 0 <= i < |list| ==> list[i].key != e.key
    requires forall i :: 0 <= i < k ==> list[i].amt <= e.amt
    requires k < |list| ==> e.amt < list[k].amt
    ensures Ascending(list[..k] + [e] + list[k..])
    ensures forall x :: x in list[..k] + [e] + list[k..] <==> x in list || x == e
  {
    var r := list[..k] + [e] + list[k..];
    forall i, j | 0 <= i < j < |r|
      ensures r[i].key != r[j].key && r[i].amt <= r[j].amt
    {
      assert r[i] == if i < k then list[i] else if i == k then e else list[i - 1];
      assert r[j] == if j < k then list[j] else if j == k then e else list[j - 1];
    }
    assert list == list[..k] + list[k..];
  }

  method InsertSorted(list: seq<WaitElem>, e: WaitElem) returns (r: seq<WaitElem>)
    requires Ascending(list)
    requires forall i :: 0 <= i < |list| ==> list[i].key != e.key
    ensures Ascending(r)
    ensures forall x :: x in r <==> x in list || x == e
  {
    var k := 0;
    while k < |list| && list[k].amt <= e.amt
      invariant 0 <= k <= |list|
      invariant forall i :: 0 <= i < k ==> list[i].amt <= e.amt
    {
      k := k + 1;
    }
    InsertAscending(list, k, e);
    r := list[..k] + [e] + list[k..];
  }

  /** GetWaitingList: one element per map entry, then sorted. */
  method GetWaitingList(waiting: map<string, int>) returns (resp: seq<WaitElem>)
    ensures IsWaitingList(resp, waiting)
  {
    resp := [];
    var left := waiting.Keys;
    while left != {}
      invariant left <= waiting.Keys
      invariant forall x :: x in resp <==> x.key in waiting && x.key !in left && x.amt == waiting[x.key]
      invariant Ascending(resp)
      decreases left
    {
      var key :| key in left;
      assert forall i :: 0 <= i < |resp| ==> resp[i] in resp;
      resp := InsertSorted(resp, WaitElem(key, waiting[key]));
      left := left - {key};
    }
    assert forall i :: 0 <= i < |resp| ==> resp[i] in resp;
  }

  class DownloadConsumer {
    var thumbnailMap: map<string, Info>
    var downloadMap: map<string, Info>
    var curWaitingList: seq<string>
    var curWorkerCount: int
    const maxWorkerCount: int

    constructor (workerCount: int)
      ensures Jobs() == Lanes(map[], map[]) && curWaitingList == []
      ensures curWorkerCount == 0 && maxWorkerCount == workerCount
    {
      thumbnailMap, downloadMap, curWaitingList := map[], map[], [];
      curWorkerCount, maxWorkerCount := 0, workerCount;
    }

    function Jobs(): Lanes
      reads this
    {
      Lanes(thumbnailMap, downloadMap)
    }

    /** getInQue with isDelete: thumbnails first. */
    method GetInQue(key: string) returns (info: Info, thumb: bool, ok: bool)
      modifies this`thumbnailMap, this`downloadMap
      ensures ok <==> Queued(old(Jobs()), key)
      ensures !ok ==> Jobs() == old(Jobs())
      ensures ok ==> && thumb == (key in old(thumbnailMap))
                     && info == Lane(old(Jobs()), thumb)[key]
                     && Jobs() == WithLane(old(Jobs()), thumb, Lane(old(Jobs()), thumb) - {key})
    {
      if key in thumbnailMap {
        info, thumb, ok := thumbnailMap[key], true, true;
        thumbnailMap := thumbnailMap - {key};
        return;
      }
      if key in downloadMap {
        info, thumb, ok := downloadMap[key], false, true;
        downloadMap := downloadMap - {key};
        return;
      }
      return Info("", "", ""), false, false;
    }

    /** getOne: fails only when both lanes are empty, and otherwise takes exactly one job out. */
    method GetOne(latest: seq<WaitElem>) returns (info: Info, key: string, thumb: bool, ok: bool)
      modifies this`thumbnailMap, this`downloadMap, this`curWaitingList
      ensures curWaitingList == ListAfter(old(Jobs()), Walked(old(curWaitingList), latest))
      ensures ok <==> !NoJobs(old(Jobs()))
      ensures !ok ==> Jobs() == old(Jobs())
      ensures ok ==> && Picks(old(Jobs()), Walked(old(curWaitingList), latest), key, thumb)
                     && info == Lane(old(Jobs()), thumb)[key]
                     && Jobs() == WithLane(old(Jobs()), thumb, Lane(old(Jobs()), thumb) - {key})
    {
      if curWaitingList == [] {
        curWaitingList := KeysOf(latest);
      }
      ghost var walked := curWaitingList;
      ghost var n := 0;
      while curWaitingList != []
        invariant 0 <= n <= |walked| && curWaitingList == walked[n..]
        invariant Jobs() == old(Jobs())
        invariant forall j :: 0 <= j < n ==> !Queued(Jobs(), walked[j])
        decreases |curWaitingList|
      {
        key := curWaitingList[0];
        curWaitingList := curWaitingList[1..];
        info, thumb, ok := GetInQue(key);
        if ok {
          assert FirstQueued(old(Jobs()), walked) == n;
          return;
        }
        n := n + 1;
      }
      assert FirstQueued(old(Jobs()), walked) == |walked|;
      if thumbnailMap != map[] {
        key :| key in thumbnailMap;
        info, thumb, ok := thumbnailMap[key], true, true;
        thumbnailMap := thumbnailMap - {key};
        return;
      }
      if downloadMap != map[] {
        key :| key in downloadMap;
        info, thumb, ok := downloadMap[key], false, true;
        downloadMap := downloadMap - {key};
        return;
      }
      return Info("", "", ""), "", false, false;
    }

    /** The map write of pushThumbnail and pushDownload: a job already there under the key is replaced. */
    method Enqueue(key: string, thumb: bool, info: Info)
      modifies this`thumbnailMap, this`downloadMap
      ensures Jobs() == WithLane(old(Jobs()), thumb, Lane(old(Jobs()), thumb)[key := info])
    {
      if thumb {
        thumbnailMap := thumbnailMap[key := info];
      } else {
        downloadMap := downloadMap[key := info];
      }
    }

    method StartWorkerIfNeed() returns (spawned: bool)
      modifies this`curWorkerCount
      ensures spawned <==> old(curWorkerCount) < maxWorkerCount
      ensures curWorkerCount == old(curWorkerCount) + if spawned then 1 else 0
    {
      if curWorkerCount >= maxWorkerCount {
        return false;
      }
      curWorkerCount := curWorkerCount + 1;
      return true;
    }

    /** The critical section at the top of the worker loop. */
    method FetchOrLeave(latest: seq<WaitElem>) returns (info: Info, key: string, thumb: bool, ok: bool)
      modifies this`thumbnailMap, this`downloadMap, this`curWaitingList, this`curWorkerCount
      ensures curWaitingList == ListAfter(old(Jobs()), Walked(old(curWaitingList), latest))
      ensures ok <==> !NoJobs(old(Jobs()))
      ensures !ok ==> Jobs() == old(Jobs()) && curWorkerCount == old(curWorkerCount) - 1
      ensures ok ==> && Picks(old(Jobs()), Walked(old(curWaitingList), latest), key, thumb)
                     && info == Lane(old(Jobs()), thumb)[key]
                     && Jobs() == WithLane(old(Jobs()), thumb, Lane(old(Jobs()), thumb) - {key})
                     && curWorkerCount == old(curWorkerCount)
    {
      info, key, thumb, ok := GetOne(latest);
      if !ok {
        curWorkerCount := curWorkerCount - 1;
      }
    }
  }

  function Waits(waiting: map<string, int>, key: string): int {
    if key in waiting then waiting[key] else 0
  }

  function OneMore(waiting: map<string, int>, key: string): map<string, int> {
    waiting[key := Waits(waiting, key) + 1]
  }

  function OneLess(waiting: map<string, int>, key: string): map<string, int> {
    if Waits(waiting, key) == 1 then waiting - {key} else waiting[key := Waits(waiting, key) - 1]
  }

  class DownloadStateRepo {
    var downloading: set<string>
    var waiting: map<string, int>

    constructor ()
      ensures downloading == {} && waiting == map[]
    {
      downloading, waiting := {}, map[];
    }

    method AddDownload(key: string)
      modifies this`downloading
      ensures downloading == old(downloading) + {key}
    {
      if key !in downloading {
        downloading := downloading + {key};
      }
    }

    method RemoveDownloading(key: string)
      modifies this`downloading
      ensures downloading == old(downloading) - {key}
    {
      downloading := downloading - {key};
    }

    /** Wait, on finding the download under way. */
    method EnterWait(key: string)
      modifies this`waiting
      ensures waiting == OneMore(old(waiting), key)
    {
      waiting := waiting[key := (if key in waiting then waiting[key] else 0) + 1];
    }

    /** Wait's deferred part. */
    method LeaveWait(key: string)
      modifies this`waiting
      ensures waiting == OneLess(old(waiting), key)
    {
      var amt := if key in waiting then waiting[key] else 0;
      if amt == 1 {
        waiting := waiting - {key};
      } else {
        waiting := waiting[key := amt - 1];
      }
    }
  }

  // ------------------------------------------------------------------
  // The protocol
  // ------------------------------------------------------------------

  datatype Job = Job(thumb: bool, key: string, info: Info)

  /** A push is about to AddDownload, to write its lane, or to call startWorkerIfNeed. */
  datatype Phase = Marking | Inserting | Kicking

  datatype Proc =
    | Fetching
    | Downloading(job: Job)
    | Failed(job: Job)
    | Succeeded(job: Job)
    | Retrying(job: Job, phase: Phase)
    | Pushing(job: Job, phase: Phase)

  /** A Wait call that has found the download under way, or that has been counted. */
  datatype Waiter = Seen(key: string) | Counted(key: string)

  datatype State = State(
    max: nat,
    cur: int,
    jobs: Lanes,
    list: seq<string>,
    downloading: set<string>,
    procs: map<nat, Proc>,
    waiting: map<string, int>,
    waiters: map<nat, Waiter>)

  datatype Step =
    | Begin(pid: nat, domain: string, netdiskID: string, thumb: bool, info: Info)
    | Mark(pid: nat)
    | Insert(pid: nat)
    | Kick(pid: nat, child: nat)
    | Fetch(pid: nat, latest: seq<WaitElem>, key: string, thumb: bool)
    | Report(pid: nat, success: bool)
    | Finish(pid: nat)
    | Notice(wid: nat, key: string)
    | Count(wid: nat)
    | Leave(wid: nat)

  predicate IsWorker(p: Proc) {
    !p.Pushing?
  }

  predicate InPhase(p: Proc, phase: Phase) {
    (p.Retrying? || p.Pushing?) && p.phase == phase
  }

  function AtPhase(p: Proc, phase: Phase): Proc
    requires p.Retrying? || p.Pushing?
  {
    if p.Retrying? then Retrying(p.job, phase) else Pushing(p.job, phase)
  }

  ghost predicate Enabled(s: State, step: Step) {
    match step
    case Begin(pid, _, _, _, _) => pid !in s.procs
    case Mark(pid) => pid in s.procs && InPhase(s.procs[pid], Marking)
    case Insert(pid) => pid in s.procs && InPhase(s.procs[pid], Inserting)
    case Kick(pid, child) => pid in s.procs && InPhase(s.procs[pid], Kicking) && child !in s.procs
    case Fetch(pid, latest, key, thumb) =>
      && pid in s.procs && s.procs[pid].Fetching?
      && IsWaitingList(latest, s.waiting)
      && (!NoJobs(s.jobs) ==> Picks(s.jobs, Walked(s.list, latest), key, thumb))
    case Report(pid, _) => pid in s.procs && s.procs[pid].Downloading?
    case Finish(pid) => pid in s.procs && (s.procs[pid].Failed? || s.procs[pid].Succeeded?)
    case Notice(wid, key) => wid !in s.waiters && key in s.downloading
    case Count(wid) => wid in s.waiters && s.waiters[wid].Seen?
    case Leave(wid) => wid in s.waiters && s.waiters[wid].Counted?
  }

  ghost function Apply(s: State, step: Step): State
    requires Enabled(s, step)
  {
    match step
    case Begin(pid, domain, netdiskID, thumb, info) =>
      s.(procs := s.procs[pid := Pushing(Job(thumb, BuildKey(domain, netdiskID), info), Marking)])
    case Mark(pid) =>
      s.(downloading := s.downloading + {s.procs[pid].job.key},
         procs := s.procs[pid := AtPhase(s.procs[pid], Inserting)])
    case Insert(pid) =>
      var job := s.procs[pid].job;
      s.(jobs := WithLane(s.jobs, job.thumb, Lane(s.jobs, job.thumb)[job.key := job.info]),
         procs := s.procs[pid := AtPhase(s.procs[pid], Kicking)])
    case Kick(pid, child) =>
      var procs := if s.procs[pid].Retrying? then s.procs[pid := Fetching] else s.procs - {pid};
      if s.cur >= s.max then s.(procs := procs)
      else s.(cur := s.cur + 1, procs := procs[child := Fetching])
    case Fetch(pid, latest, key, thumb) =>
      var s' := s.(list := ListAfter(s.jobs, Walked(s.list, latest)));
      if NoJobs(s.jobs) then s'.(cur := s.cur - 1, procs := s.procs - {pid})
      else s'.(jobs := WithLane(s.jobs, thumb, Lane(s.jobs, thumb) - {key}),
               procs := s.procs[pid := Downloading(Job(thumb, key, Lane(s.jobs, thumb)[key]))])
    case Report(pid, success) =>
      var job := s.procs[pid].job;
      s.(procs := s.procs[pid := if success then Succeeded(job) else Failed(job)])
    case Finish(pid) =>
      var job := s.procs[pid].job;
      var (domain, netdiskID, _) := SplitKey(job.key);
      var next := if s.procs[pid].Failed? && Durable(job.info)
                  then Retrying(job.(key := BuildKey(domain, netdiskID)), Marking) else Fetching;
      s.(downloading := s.downloading - {job.key}, procs := s.procs[pid := next])
    case Notice(wid, key) => s.(waiters := s.waiters[wid := Seen(key)])
    case Count(wid) =>
      var key := s.waiters[wid].key;
      s.(waiting := OneMore(s.waiting, key), waiters := s.waiters[wid := Counted(key)])
    case Leave(wid) =>
      var key := s.waiters[wid].key;
      s.(waiting := OneLess(s.waiting, key), waiters := s.waiters - {wid})
  }

  function Init(max: nat): State {
    State(max, 0, Lanes(map[], map[]), [], {}, map[], map[], map[])
  }

  /** The states of a run: states[i + 1] comes from states[i] by steps[i]. */
  ghost predicate IsRun(states: seq<State>, steps: seq<Step>) {
    && |states| == |steps| + 1
    && forall i :: 0 <= i < |steps| ==> Enabled(states[i], steps[i]) && states[i + 1] == Apply(states[i], steps[i])
  }

  ghost predicate Goes(s: State, step: Step, s': State) {
    Enabled(s, step) && s' == Apply(s, step)
  }

  // ------------------------------------------------------------------
  // Invariants
  // ------------------------------------------------------------------

  function Workers(procs: map<nat, Proc>): set<nat> {
    set p | p in procs && IsWorker(procs[p])
  }

  function CountedFor(waiters: map<nat, Waiter>, key: string): set<nat> {
    set w | w in waiters && waiters[w] == Counted(key)
  }

  /** The counter is the number of live workers, and stays within the limit. */
  ghost predicate CountsWorkers(s: State) {
    s.cur == |Workers(s.procs)| <= s.max
  }

  /** The waiting map holds the number of counted waiters, and no key without one. */
  ghost predicate CountsWaiters(s: State) {
    forall k :: WaitsAgree(s.waiting, s.waiters, k)
  }

  ghost predicate HasWorker(procs: map<nat, Proc>) {
    exists p :: p in procs && IsWorker(procs[p])
  }

  ghost predicate HasKick(procs: map<nat, Proc>) {
    exists p :: p in procs && InPhase(procs[p], Kicking)
  }

  /** A job in a lane has a live worker, or a push that has yet to call startWorkerIfNeed. */
  ghost predicate NotStranded(s: State) {
    !NoJobs(s.jobs) ==> HasWorker(s.procs) || HasKick(s.procs)
  }

  ghost predicate KeysHaveSlash(s: State) {
    && (forall k :: Queued(s.jobs, k) ==> '/' in k)
    && (forall p :: p in s.procs && !s.procs[p].Fetching? ==> '/' in s.procs[p].job.key)
  }

  ghost predicate Inv(s: State) {
    s.max >= 1 && CountsWorkers(s) && CountsWaiters(s) && NotStranded(s) && KeysHaveSlash(s)
  }

  lemma SetProc(procs: map<nat, Proc>, pid: nat, p: Proc)
    ensures Workers(procs[pid := p]) == if IsWorker(p) then Workers(procs) + {pid} else Workers(procs) - {pid}
  {
  }

  lemma DropProc(procs: map<nat, Proc>, pid: nat)
    ensures Workers(procs - {pid}) == Workers(procs) - {pid}
  {
  }

  /** A process that has kicked is still the worker it was, if any; a child adds one. */
  lemma KickProcs(procs: map<nat, Proc>, pid: nat, child: nat)
    requires pid in procs && child !in procs && (procs[pid].Retrying? || procs[pid].Pushing?)
    ensures var rest := if procs[pid].Retrying? then procs[pid := Fetching] else procs - {pid};
            && Workers(rest) == Workers(procs)
            && |Workers(rest[child := Fetching])| == |Workers(procs)| + 1
  {
    var rest := if procs[pid].Retrying? then procs[pid := Fetching] else procs - {pid};
    SetProc(procs, pid, Fetching);
    DropProc(procs, pid);
    assert child !in Workers(procs);
    SetProc(rest, child, Fetching);
  }

  /** Workers come and go only by a kick below the limit and a fetch from empty lanes. */
  /** Steps that neither start nor end a worker. */
  lemma StepKeepsWorkers(s: State, step: Step)
    requires Enabled(s, step) && !step.Kick? && !step.Notice? && !step.Count? && !step.Leave?
    requires step.Fetch? ==> !NoJobs(s.jobs)
    ensures Workers(Apply(s, step).procs) == Workers(s.procs) && Apply(s, step).cur == s.cur && Apply(s, step).max == s.max
  {
    SetProc(s.procs, step.pid, Apply(s, step).procs[step.pid]);
  }

  lemma StepCountsWorkers(s: State, step: Step)
    requires CountsWorkers(s) && Enabled(s, step)
    ensures CountsWorkers(Apply(s, step))
  {
    if step.Kick? {
      KickProcs(s.procs, step.pid, step.child);
    } else if step.Fetch? && NoJobs(s.jobs) {
      DropProc(s.procs, step.pid);
    } else if !step.Notice? && !step.Count? && !step.Leave? {
      StepKeepsWorkers(s, step);
    }
  }

  ghost predicate WaitsAgree(waiting: map<string, int>, waiters: map<nat, Waiter>, k: string) {
    && Waits(waiting, k) == |CountedFor(waiters, k)|
    && (k in waiting <==> Waits(waiting, k) > 0)
  }

  lemma CountAgrees(waiting: map<string, int>, waiters: map<nat, Waiter>, wid: nat, key: string, k: string)
    requires wid in waiters && waiters[wid] == Seen(key) && WaitsAgree(waiting, waiters, k)
    ensures WaitsAgree(OneMore(waiting, key), waiters[wid := Counted(key)], k)
  {
    var was := CountedFor(waiters, k);
    assert wid !in was;
    if key == k {
      assert CountedFor(waiters[wid := Counted(key)], k) == was + {wid};
    } else {
      assert CountedFor(waiters[wid := Counted(key)], k) == was;
    }
  }

  lemma LeaveAgrees(waiting: map<string, int>, waiters: map<nat, Waiter>, wid: nat, key: string, k: string)
    requires wid in waiters && waiters[wid] == Counted(key) && WaitsAgree(waiting, waiters, k)
    ensures WaitsAgree(OneLess(waiting, key), waiters - {wid}, k)
  {
    var was := CountedFor(waiters, k);
    assert wid in CountedFor(waiters, key);
    assert CountedFor(waiters - {wid}, k) == if key == k then was - {wid} else was;
  }

  lemma StepCountsWaiters(s: State, step: Step)
    requires CountsWaiters(s) && Enabled(s, step)
    ensures CountsWaiters(Apply(s, step))
  {
    var s' := Apply(s, step);
    forall k
      ensures WaitsAgree(s'.waiting, s'.waiters, k)
    {
      assert WaitsAgree(s.waiting, s.waiters, k);
      match step
      case Count(wid) => CountAgrees(s.waiting, s.waiters, wid, s.waiters[wid].key, k);
      case Leave(wid) => LeaveAgrees(s.waiting, s.waiters, wid, s.waiters[wid].key, k);
      case Notice(wid, key) => assert CountedFor(s'.waiters, k) == CountedFor(s.waiters, k);
      case _ =>
    }
  }

  lemma StepNotStranded(s: State, step: Step)
    requires s.max >= 1 && CountsWorkers(s) && NotStranded(s) && Enabled(s, step)
    ensures NotStranded(Apply(s, step))
  {
    var s' := Apply(s, step);
    if step.Kick? && s.cur >= s.max {
      assert Workers(s.procs) != {};
      var w :| w in Workers(s.procs);
      assert w in s'.procs && IsWorker(s'.procs[w]);
    } else if step.Kick? {
      assert IsWorker(s'.procs[step.child]);
    } else if step.Fetch? {
      assert !NoJobs(s.jobs) ==> IsWorker(s'.procs[step.pid]);
    } else if step.Insert? {
      assert InPhase(s'.procs[step.pid], Kicking);
    } else if !NoJobs(s.jobs) {
      if p :| p in s.procs && IsWorker(s.procs[p]) {
        assert p in s'.procs && IsWorker(s'.procs[p]);
      } else {
        var p :| p in s.procs && InPhase(s.procs[p], Kicking);
        assert p in s'.procs && InPhase(s'.procs[p], Kicking);
      }
    }
  }

  lemma StepKeysHaveSlash(s: State, step: Step)
    requires KeysHaveSlash(s) && Enabled(s, step)
    ensures KeysHaveSlash(Apply(s, step))
  {
    if step.Begin? {
      assert BuildKey(step.domain, step.netdiskID)[|step.domain|] == '/';
    } else if step.Finish? {
      BuildAfterSplit(s.procs[step.pid].job.key);
    }
  }

  lemma StepInv(s: State, step: Step)
    requires Inv(s) && Enabled(s, step)
    ensures Inv(Apply(s, step))
  {
    StepCountsWorkers(s, step);
    StepCountsWaiters(s, step);
    StepNotStranded(s, step);
    StepKeysHaveSlash(s, step);
  }

  /** In every interleaving and every state of it: worker count, waiter counts and no stranded job. */
  lemma {:induction false} RunInv(states: seq<State>, steps: seq<Step>, n: nat)
    requires IsRun(states, steps) && Inv(states[0]) && n < |states|
    ensures Inv(states[n])
  {
    if n > 0 {
      RunInv(states, steps, n - 1);
      StepInv(states[n - 1], steps[n - 1]);
    }
  }

  lemma InitInv(max: nat)
    requires max >= 1
    ensures Inv(Init(max))
  {
    assert Workers(Init(max).procs) == {};
    assert forall k :: CountedFor(Init(max).waiters, k) == {};
  }

  /** When every push has returned and every worker has left, nothing is waiting to be downloaded. */
  lemma QuietMeansDone(states: seq<State>, steps: seq<Step>, max: nat, n: nat)
    requires max >= 1 && IsRun(states, steps) && states[0] == Init(max) && n < |states|
    requires states[n].procs == map[]
    ensures NoJobs(states[n].jobs) && states[n].cur == 0
  {
    InitInv(max);
    RunInv(states, steps, n);
    assert Workers(states[n].procs) == {};
  }

  // ------------------------------------------------------------------
  // Left alone, the pool drains
  // ------------------------------------------------------------------

  /** A step of the pool's own work: no new push, no failed download, no waiter. */
  predicate Working(step: Step) {
    match step
    case Begin(_, _, _, _, _) => false
    case Report(_, success) => success
    case Notice(_, _) => false
    case Count(_) => false
    case Leave(_) => false
    case _ => true
  }

  /** How much a process still has to do, counting the job it will queue and the worker it may start. */
  function Weight(p: Proc): nat {
    match p
    case Fetching => 1
    case Succeeded(_) => 2
    case Downloading(_) => 3
    case Failed(_) => 9
    case Retrying(_, phase) => (match phase case Kicking => 3 case Inserting => 7 case Marking => 8)
    case Pushing(_, phase) => (match phase case Kicking => 2 case Inserting => 6 case Marking => 7)
  }

  /** As many elements as the processes' weights add up to. */
  function Units(procs: map<nat, Proc>): set<(nat, nat)> {
    set p, i: nat | p in procs && i < Weight(procs[p]) :: (p, i)
  }

  function Backlog(q: Lanes): nat {
    |q.thumbnails| + |q.downloads|
  }

  function Potential(s: State): nat {
    3 * Backlog(s.jobs) + |Units(s.procs)|
  }

  lemma {:induction false} RangeSize(p: nat, w: nat)
    ensures |set i: nat | i < w :: (p, i)| == w
  {
    var range := set i: nat | i < w :: (p, i);
    if w == 0 {
      assert range == {};
    } else {
      RangeSize(p, w - 1);
      assert range == (set i: nat | i < w - 1 :: (p, i)) + {(p, w - 1)};
    }
  }

  lemma UnitsOfOne(procs: map<nat, Proc>, pid: nat)
    requires pid in procs
    ensures |Units(procs)| == |Units(procs - {pid})| + Weight(procs[pid])
  {
    var own := set i: nat | i < Weight(procs[pid]) :: (pid, i);
    RangeSize(pid, Weight(procs[pid]));
    assert Units(procs) == Units(procs - {pid}) + own;
    assert Units(procs - {pid}) !! own;
  }

  lemma UnitsSet(procs: map<nat, Proc>, pid: nat, p: Proc)
    ensures |Units(procs[pid := p])| == |Units(procs - {pid})| + Weight(p)
  {
    UnitsOfOne(procs[pid := p], pid);
    assert procs[pid := p] - {pid} == procs - {pid};
  }

  lemma KickUnits(procs: map<nat, Proc>, pid: nat, child: nat)
    requires pid in procs && child !in procs && InPhase(procs[pid], Kicking)
    ensures var rest := if procs[pid].Retrying? then procs[pid := Fetching] else procs - {pid};
            |Units(rest)| < |Units(procs)| && |Units(rest[child := Fetching])| < |Units(procs)|
  {
    var rest := if procs[pid].Retrying? then procs[pid := Fetching] else procs - {pid};
    UnitsOfOne(procs, pid);
    UnitsSet(procs, pid, Fetching);
    UnitsSet(rest, child, Fetching);
    assert rest - {child} == rest;
  }

  lemma FetchShrinks(q: Lanes, thumb: bool, key: string)
    requires key in Lane(q, thumb)
    ensures Backlog(WithLane(q, thumb, Lane(q, thumb) - {key})) == Backlog(q) - 1
  {
    assert (Lane(q, thumb) - {key}).Keys == Lane(q, thumb).Keys - {key};
    assert |(Lane(q, thumb) - {key}).Keys| == |Lane(q, thumb).Keys| - 1;
  }

  lemma InsertGrows(q: Lanes, thumb: bool, key: string, info: Info)
    ensures Backlog(WithLane(q, thumb, Lane(q, thumb)[key := info])) <= Backlog(q) + 1
  {
    var lane := Lane(q, thumb);
    assert |lane[key := info]| <= |lane| + 1 by {
      assert lane[key := info].Keys == lane.Keys + {key};
      assert lane.Keys + {key} == lane.Keys + ({key} - lane.Keys);
    }
  }

  lemma UnitsMove(procs: map<nat, Proc>, pid: nat, p: Proc)
    requires pid in procs
    ensures |Units(procs[pid := p])| == |Units(procs)| - Weight(procs[pid]) + Weight(p)
  {
    UnitsOfOne(procs, pid);
    UnitsSet(procs, pid, p);
  }

  lemma FetchDescends(s: State, step: Step)
    requires step.Fetch? && Enabled(s, step)
    ensures Potential(Apply(s, step)) < Potential(s)
  {
    if NoJobs(s.jobs) {
      UnitsOfOne(s.procs, step.pid);
      assert Apply(s, step).procs == s.procs - {step.pid};
    } else {
      UnitsMove(s.procs, step.pid, Apply(s, step).procs[step.pid]);
      FetchShrinks(s.jobs, step.thumb, step.key);
    }
  }

  lemma InsertDescends(s: State, pid: nat)
    requires Enabled(s, Insert(pid))
    ensures Potential(Apply(s, Insert(pid))) < Potential(s)
  {
    var job := s.procs[pid].job;
    UnitsMove(s.procs, pid, AtPhase(s.procs[pid], Kicking));
    InsertGrows(s.jobs, job.thumb, job.key, job.info);
  }

  lemma StepDescends(s: State, step: Step)
    requires Enabled(s, step) && Working(step)
    ensures Potential(Apply(s, step)) < Potential(s)
  {
    if step.Kick? {
      KickUnits(s.procs, step.pid, step.child);
    } else if step.Fetch? {
      FetchDescends(s, step);
    } else if step.Insert? {
      InsertDescends(s, step.pid);
    } else {
      UnitsMove(s.procs, step.pid, Apply(s, step).procs[step.pid]);
    }
  }

  /** Without new pushes and failures a run of the pool is no longer than its potential. */
  lemma {:induction false} DrainsWithin(states: seq<State>, steps: seq<Step>, n: nat)
    requires IsRun(states, steps) && n < |states|
    requires forall i :: 0 <= i < n ==> Working(steps[i])
    ensures Potential(states[n]) + n <= Potential(states[0])
  {
    if n > 0 {
      DrainsWithin(states, steps, n - 1);
      StepDescends(states[n - 1], steps[n - 1]);
    }
  }

  lemma {:induction false} WaitingListExists(waiting: map<string, int>, left: set<string>) returns (list: seq<WaitElem>)
    requires left <= waiting.Keys
    ensures Ascending(list)
    ensures forall x :: x in list <==> x.key in left && x.amt == waiting[x.key]
    decreases left
  {
    list := [];
    if left != {} {
      var key :| key in left;
      var rest := WaitingListExists(waiting, left - {key});
      assert forall i :: 0 <= i < |rest| ==> rest[i] in rest;
      var k := 0;
      while k < |rest| && rest[k].amt <= waiting[key]
        invariant 0 <= k <= |rest| && forall i :: 0 <= i < k ==> rest[i].amt <= waiting[key]
      {
        k := k + 1;
      }
      InsertAscending(rest, k, WaitElem(key, waiting[key]));
      list := rest[..k] + [WaitElem(key, waiting[key])] + rest[k..];
    }
  }

  lemma SomeFetch(s: State, pid: nat) returns (step: Step)
    requires pid in s.procs && s.procs[pid].Fetching?
    ensures Enabled(s, step) && Working(step)
  {
    var latest := WaitingListExists(s.waiting, s.waiting.Keys);
    assert forall i :: 0 <= i < |latest| ==> latest[i] in latest;
    assert IsWaitingList(latest, s.waiting);
    var walked := Walked(s.list, latest);
    var i := FirstQueued(s.jobs, walked);
    var key, thumb := "", s.jobs.thumbnails != map[];
    if i < |walked| {
      key, thumb := walked[i], walked[i] in s.jobs.thumbnails;
    } else if !NoJobs(s.jobs) {
      key :| key in Lane(s.jobs, thumb);
    }
    step := Fetch(pid, latest, key, thumb);
  }

  lemma {:induction false} UnusedPid(pids: set<nat>) returns (pid: nat)
    ensures forall p :: p in pids ==> p < pid
  {
    pid := 0;
    if pids != {} {
      var p :| p in pids;
      var q := UnusedPid(pids - {p});
      pid := if p < q then q else p + 1;
      assert forall r :: r in pids ==> r == p || r in pids - {p};
    }
  }

  /** No deadlock: as long as a push or a worker is there, one of them can go on. */
  lemma CanWork(s: State) returns (step: Step)
    requires s.procs != map[]
    ensures Enabled(s, step) && Working(step)
  {
    var pid :| pid in s.procs;
    match s.procs[pid]
    case Fetching => step := SomeFetch(s, pid);
    case Downloading(_) => step := Report(pid, true);
    case Failed(_) => step := Finish(pid);
    case Succeeded(_) => step := Finish(pid);
    case Retrying(_, phase) => step := PushStep(s, pid, phase);
    case Pushing(_, phase) => step := PushStep(s, pid, phase);
  }

  lemma PushStep(s: State, pid: nat, phase: Phase) returns (step: Step)
    requires pid in s.procs && InPhase(s.procs[pid], phase)
    ensures Enabled(s, step) && Working(step)
  {
    match phase
    case Marking => step := Mark(pid);
    case Inserting => step := Insert(pid);
    case Kicking =>
      var child := UnusedPid(s.procs.Keys);
      assert child !in s.procs;
      step := Kick(pid, child);
  }

  /**
   Hence from every reachable state, once pushes and failures stop, the pool's own steps come to
   an end, and they cannot come to an end before both lanes are empty.
   */
  lemma DrainsCompletely(states: seq<State>, steps: seq<Step>)
    requires IsRun(states, steps) && Inv(states[0]) && forall i :: 0 <= i < |steps| ==> Working(steps[i])
    ensures |steps| <= Potential(states[0])
    ensures (forall step :: Working(step) ==> !Enabled(states[|steps|], step)) ==>
              NoJobs(states[|steps|].jobs) && states[|steps|].cur == 0
  {
    var n := |steps|;
    DrainsWithin(states, steps, n);
    RunInv(states, steps, n);
    if states[n].procs != map[] {
      var step := CanWork(states[n]);
      assert Working(step) && Enabled(states[n], step);
    } else {
      assert Workers(states[n].procs) == {};
    }
  }

  // ------------------------------------------------------------------
  // Where jobs, marks and waiters come from
  // ------------------------------------------------------------------

  /** The job is one that some push was begun with. */
  ghost predicate Begun(steps: seq<Step>, n: nat, job: Job)
    requires n <= |steps|
  {
    exists i :: 0 <= i < n && BeginsJob(steps[i], job)
  }

  predicate BeginsJob(step: Step, job: Job) {
    step.Begin? && job == Job(step.thumb, BuildKey(step.domain, step.netdiskID), step.info)
  }

  ghost predicate AllBegun(s: State, steps: seq<Step>, n: nat)
    requires n <= |steps|
  {
    && (forall thumb, k :: k in Lane(s.jobs, thumb) ==> Begun(steps, n, Job(thumb, k, Lane(s.jobs, thumb)[k])))
    && (forall p :: p in s.procs && !s.procs[p].Fetching? ==> Begun(steps, n, s.procs[p].job))
  }

  lemma BegunStays(steps: seq<Step>, n: nat, job: Job)
    requires n < |steps| && Begun(steps, n, job)
    ensures Begun(steps, n + 1, job)
  {
  }

  /** A process has the job it had, but for a push that begins and a worker that fetches. */
  lemma StepKeepsJob(s: State, step: Step, p: nat)
    requires KeysHaveSlash(s) && Enabled(s, step) && p in Apply(s, step).procs && !Apply(s, step).procs[p].Fetching?
    requires !(step.Begin? && step.pid == p) && !(step.Fetch? && step.pid == p)
    ensures p in s.procs && !s.procs[p].Fetching? && s.procs[p].job == Apply(s, step).procs[p].job
  {
    if step.Finish? && step.pid == p {
      BuildAfterSplit(s.procs[p].job.key);
    }
  }

  lemma StepProcsBegun(s: State, steps: seq<Step>, n: nat, p: nat)
    requires n < |steps| && AllBegun(s, steps, n) && KeysHaveSlash(s) && Enabled(s, steps[n])
    requires p in Apply(s, steps[n]).procs && !Apply(s, steps[n]).procs[p].Fetching?
    ensures Begun(steps, n + 1, Apply(s, steps[n]).procs[p].job)
  {
    var step, job := steps[n], Apply(s, steps[n]).procs[p].job;
    if step.Begin? && step.pid == p {
      assert BeginsJob(steps[n], job);
    } else if step.Fetch? && step.pid == p {
      assert job == Job(step.thumb, step.key, Lane(s.jobs, step.thumb)[step.key]);
      BegunStays(steps, n, job);
    } else {
      StepKeepsJob(s, step, p);
      BegunStays(steps, n, job);
    }
  }

  lemma StepLanesBegun(s: State, steps: seq<Step>, n: nat, thumb: bool, k: string)
    requires n < |steps| && AllBegun(s, steps, n) && Enabled(s, steps[n])
    requires k in Lane(Apply(s, steps[n]).jobs, thumb)
    ensures Begun(steps, n + 1, Job(thumb, k, Lane(Apply(s, steps[n]).jobs, thumb)[k]))
  {
    var step, lane := steps[n], Lane(Apply(s, steps[n]).jobs, thumb);
    if step.Insert? && s.procs[step.pid].job.thumb == thumb && s.procs[step.pid].job.key == k {
      assert Job(thumb, k, lane[k]) == s.procs[step.pid].job;
      BegunStays(steps, n, s.procs[step.pid].job);
    } else {
      assert k in Lane(s.jobs, thumb) && Lane(s.jobs, thumb)[k] == lane[k];
      BegunStays(steps, n, Job(thumb, k, lane[k]));
    }
  }

  /** Nothing is made up: every job queued or in hand, on every run, has lane, key and event as some push gave them. */
  lemma {:induction false} RunAllBegun(states: seq<State>, steps: seq<Step>, max: nat, n: nat)
    requires max >= 1 && IsRun(states, steps) && states[0] == Init(max) && n <= |steps|
    ensures AllBegun(states[n], steps, n)
  {
    if n > 0 {
      var s := states[n - 1];
      RunAllBegun(states, steps, max, n - 1);
      InitInv(max);
      RunInv(states, steps, n - 1);
      forall p | p in states[n].procs && !states[n].procs[p].Fetching?
        ensures Begun(steps, n, states[n].procs[p].job)
      {
        StepProcsBegun(s, steps, n - 1, p);
      }
      forall thumb, k | k in Lane(states[n].jobs, thumb)
        ensures Begun(steps, n, Job(thumb, k, Lane(states[n].jobs, thumb)[k]))
      {
        StepLanesBegun(s, steps, n - 1, thumb, k);
      }
    }
  }

  /** A worker that fetches with a new list takes a job for which the fewest wait, if anybody waits for a queued one. */
  lemma FetchServesFewest(s: State, step: Step, k: string)
    requires step.Fetch? && Enabled(s, step) && s.list == [] && k in s.waiting && Queued(s.jobs, k)
    ensures var p := Apply(s, step).procs[step.pid];
            p.Downloading? && p.job.key in s.waiting && s.waiting[p.job.key] <= s.waiting[k]
  {
    FewestWaitersFirst(s.jobs, step.latest, s.waiting, step.key, step.thumb, k);
  }

  /** A failed download is pushed again, under the same key, exactly when the job has both a room and an event id. */
  lemma RetriedIff(s: State, pid: nat)
    requires Enabled(s, Finish(pid)) && KeysHaveSlash(s)
    ensures var p, p' := s.procs[pid], Apply(s, Finish(pid)).procs[pid];
            p' == if p.Failed? && p.job.info.roomID != "" && p.job.info.eventID != "" then Retrying(p.job, Marking) else Fetching
  {
    BuildAfterSplit(s.procs[pid].job.key);
  }

  /** What a step means for the mark that a key is being downloaded. */
  function MarkEffect(s: State, step: Step, key: string): Effect {
    if step.Mark? && step.pid in s.procs && !s.procs[step.pid].Fetching? && s.procs[step.pid].job.key == key then Adds
    else if step.Finish? && step.pid in s.procs && !s.procs[step.pid].Fetching? && s.procs[step.pid].job.key == key then Removes
    else Neutral
  }

  function MarkLog(states: seq<State>, steps: seq<Step>, n: nat, key: string): (log: seq<Effect>)
    requires |states| == |steps| + 1 && n <= |steps|
    ensures |log| == n
  {
    seq(n, i requires 0 <= i < n => MarkEffect(states[i], steps[i], key))
  }

  lemma {:induction false} MarksReplay(states: seq<State>, steps: seq<Step>, n: nat, key: string)
    requires IsRun(states, steps) && states[0].downloading == {} && n <= |steps|
    ensures key in states[n].downloading <==> Present(MarkLog(states, steps, n, key))
  {
    if n > 0 {
      MarksReplay(states, steps, n - 1, key);
      assert MarkLog(states, steps, n, key)[..n - 1] == MarkLog(states, steps, n - 1, key);
      assert Enabled(states[n - 1], steps[n - 1]);
    }
  }

  /** A key is marked as being downloaded exactly when some push of it has marked it and no download of it has finished since. */
  lemma MarksMatchHistory(states: seq<State>, steps: seq<Step>, n: nat, key: string)
    requires IsRun(states, steps) && states[0].downloading == {} && n <= |steps|
    ensures key in states[n].downloading <==> AddedAndKept(MarkLog(states, steps, n, key))
  {
    MarksReplay(states, steps, n, key);
    PresentIff(MarkLog(states, steps, n, key));
  }

  /** Whoever waits has seen the key being downloaded. */
  lemma {:induction false} WaiterSawDownload(states: seq<State>, steps: seq<Step>, n: nat, wid: nat) returns (i: nat)
    requires IsRun(states, steps) && states[0].waiters == map[] && n <= |steps| && wid in states[n].waiters
    ensures i < n && steps[i] == Notice(wid, states[n].waiters[wid].key) && states[n].waiters[wid].key in states[i].downloading
  {
    var before, step := states[n - 1], steps[n - 1];
    assert Enabled(before, step);
    if step.Notice? && step.wid == wid {
      i := n - 1;
    } else {
      assert wid in before.waiters && before.waiters[wid].key == states[n].waiters[wid].key;
      i := WaiterSawDownload(states, steps, n - 1, wid);
    }
  }

  // ------------------------------------------------------------------
  // Conservation
  // ------------------------------------------------------------------

  /** The row of media_download that an event's job marks. */
  function RowOf(info: Info): (string, string) {
    (info.roomID, info.eventID)
  }

  /** The jobs for one key in one lane: of any event, or of the event with the row `who`. */
  datatype Subject = Subject(thumb: bool, key: string, who: Option<(string, string)>)

  function AnyEvent(thumb: bool, key: string): Subject {
    Subject(thumb, key, None)
  }

  predicate Matches(j: Subject, info: Info) {
    Durable(info) && (j.who.Some? ==> j.who.value == RowOf(info))
  }

  predicate IsCopy(job: Job, j: Subject) {
    job.thumb == j.thumb && job.key == j.key && Matches(j, job.info)
  }

  /** The process has the job in hand: not yet in its lane, or taken out of it and not yet downloaded. */
  predicate InHand(p: Proc, j: Subject) {
    && (p.Downloading? || p.Failed? || ((p.Retrying? || p.Pushing?) && p.phase != Kicking))
    && IsCopy(p.job, j)
  }

  predicate InLane(q: Lanes, j: Subject) {
    j.key in Lane(q, j.thumb) && Matches(j, Lane(q, j.thumb)[j.key])
  }

  ghost predicate Held(s: State, j: Subject, but: set<nat>) {
    exists p :: p in s.procs && p !in but && InHand(s.procs[p], j)
  }

  /** Such a job is queued or in flight. */
  ghost predicate Pending(s: State, j: Subject) {
    InLane(s.jobs, j) || Held(s, j, {})
  }

  /** A download for the job succeeds, and no other copy of it is around. */
  ghost predicate Completes(s: State, step: Step, j: Subject)
    requires Enabled(s, step)
  {
    && step.Report? && step.success && IsCopy(s.procs[step.pid].job, j)
    && !InLane(s.jobs, j) && !Held(s, j, {step.pid})
  }

  /** Another job, without room and event id or of another event, is written over the only copy, which was still in its lane. */
  ghost predicate Overwrites(s: State, step: Step, j: Subject)
    requires Enabled(s, step)
  {
    && step.Insert?
    && (var job := s.procs[step.pid].job; job.thumb == j.thumb && job.key == j.key && !Matches(j, job.info))
    && !Held(s, j, {})
  }

  lemma HeldCarries(s: State, s': State, j: Subject, pid: nat)
    requires forall p :: p in s.procs && p != pid ==> p in s'.procs && s'.procs[p] == s.procs[p]
    requires Held(s, j, {pid})
    ensures Held(s', j, {pid}) && Held(s', j, {})
  {
    var p :| p in s.procs && p !in {pid} && InHand(s.procs[p], j);
    assert p in s'.procs && InHand(s'.procs[p], j);
  }

  lemma HeldSplits(s: State, j: Subject, pid: nat)
    ensures Held(s, j, {}) <==>
              Held(s, j, {pid}) || (pid in s.procs && InHand(s.procs[pid], j))
  {
  }

  /**
   A pushed job stays queued or in flight in its lane, step by step, exactly until a download of it
   succeeds or it is overwritten in the lane: by a request without room and event id, and if it is one
   event's own job that is followed, also by another event with the same medium.
   */
  lemma StepKeepsPendingIff(s: State, step: Step, j: Subject)
    requires KeysHaveSlash(s) && Enabled(s, step) && Pending(s, j)
    ensures Pending(Apply(s, step), j) <==> !Completes(s, step, j) && !Overwrites(s, step, j)
  {
    if step.Notice? || step.Count? || step.Leave? {
      assert Apply(s, step).procs == s.procs;
    } else {
      ProcStepKeepsPendingIff(s, step, j);
    }
  }

  /** The job is in its lane or in this process's hands. */
  predicate Here(s: State, pid: nat, j: Subject) {
    InLane(s.jobs, j) || (pid in s.procs && InHand(s.procs[pid], j))
  }

  /** Between its lane and one process, a job is lost only by success or by being overwritten. */
  lemma ActorKeeps(s: State, step: Step, j: Subject)
    requires Enabled(s, step) && !step.Notice? && !step.Count? && !step.Leave?
    requires '/' in j.key && Here(s, step.pid, j)
    ensures var over := step.Insert? && s.procs[step.pid].job.thumb == j.thumb && s.procs[step.pid].job.key == j.key
                        && !Matches(j, s.procs[step.pid].job.info);
            var wins := step.Report? && step.success && IsCopy(s.procs[step.pid].job, j);
            Here(Apply(s, step), step.pid, j) <==> !over && !(wins && !InLane(s.jobs, j))
  {
    if step.Fetch? {
      FetchKeeps(s, step, j);
    } else if step.Finish? {
      FinishKeeps(s, step.pid, j);
    } else if step.Insert? {
      InsertKeeps(s, step.pid, j);
    }
  }

  lemma FinishKeeps(s: State, pid: nat, j: Subject)
    requires Enabled(s, Finish(pid)) && '/' in j.key && Here(s, pid, j)
    ensures Here(Apply(s, Finish(pid)), pid, j)
  {
    BuildAfterSplit(s.procs[pid].job.key);
  }

  lemma FetchKeeps(s: State, step: Step, j: Subject)
    requires step.Fetch? && Enabled(s, step) && Here(s, step.pid, j)
    ensures Here(Apply(s, step), step.pid, j)
  {
    assert !NoJobs(s.jobs);
    assert InLane(s.jobs, j);
    if step.thumb == j.thumb && step.key == j.key {
      assert InHand(Apply(s, step).procs[step.pid], j);
    } else {
      assert InLane(Apply(s, step).jobs, j);
    }
  }

  lemma InsertKeeps(s: State, pid: nat, j: Subject)
    requires Enabled(s, Insert(pid)) && Here(s, pid, j)
    ensures var job := s.procs[pid].job;
            Here(Apply(s, Insert(pid)), pid, j) <==>
              !(job.thumb == j.thumb && job.key == j.key && !Matches(j, job.info))
  {
    var job, s' := s.procs[pid].job, Apply(s, Insert(pid));
    if job.thumb == j.thumb && job.key == j.key {
      assert Lane(s'.jobs, j.thumb)[j.key] == job.info;
    } else {
      assert InLane(s.jobs, j);
      assert InLane(s'.jobs, j);
    }
  }

  lemma PendingHasSlash(s: State, j: Subject)
    requires KeysHaveSlash(s) && Pending(s, j)
    ensures '/' in j.key
  {
    if InLane(s.jobs, j) {
      assert Queued(s.jobs, j.key);
    }
  }

  lemma ProcStepKeepsPendingIff(s: State, step: Step, j: Subject)
    requires KeysHaveSlash(s) && Enabled(s, step) && Pending(s, j)
    requires !step.Notice? && !step.Count? && !step.Leave?
    ensures Pending(Apply(s, step), j) <==> !Completes(s, step, j) && !Overwrites(s, step, j)
  {
    if Held(s, j, {step.pid}) {
      ElsewhereKeeps(s, step, j);
    } else {
      HereKeeps(s, step, j);
    }
  }

  lemma ElsewhereKeeps(s: State, step: Step, j: Subject)
    requires Enabled(s, step) && !step.Notice? && !step.Count? && !step.Leave?
    requires Held(s, j, {step.pid})
    ensures Pending(Apply(s, step), j)
    ensures !Completes(s, step, j) && !Overwrites(s, step, j)
  {
    HeldSplits(s, j, step.pid);
    HeldCarries(s, Apply(s, step), j, step.pid);
  }

  lemma HereKeeps(s: State, step: Step, j: Subject)
    requires KeysHaveSlash(s) && Enabled(s, step) && Pending(s, j)
    requires !step.Notice? && !step.Count? && !step.Leave?
    requires !Held(s, j, {step.pid})
    ensures Pending(Apply(s, step), j) <==> !Completes(s, step, j) && !Overwrites(s, step, j)
  {
    var s' := Apply(s, step);
    HeldSplits(s, j, step.pid);
    HeldSplits(s', j, step.pid);
    assert Here(s, step.pid, j);
    PendingHasSlash(s, j);
    assert !Held(s', j, {step.pid}) by { NotHeldElsewhere(s, step, j); }
    assert Pending(s', j) <==> Here(s', step.pid, j);
    ActorKeeps(s, step, j);
  }

  /** A step puts a durable job only into its own actor's hands. */
  lemma NotHeldElsewhere(s: State, step: Step, j: Subject)
    requires Enabled(s, step) && !step.Notice? && !step.Count? && !step.Leave?
    requires !Held(s, j, {step.pid})
    ensures !Held(Apply(s, step), j, {step.pid})
  {
    var s', pid := Apply(s, step), step.pid;
    forall p | p in s'.procs && p !in {pid}
      ensures !InHand(s'.procs[p], j)
    {
      if p in s.procs {
        assert s'.procs[p] == s.procs[p];
      }
    }
  }

  /** No step of the run finishes the job or overwrites it. */
  ghost predicate Undone(states: seq<State>, steps: seq<Step>, n: nat, j: Subject)
    requires IsRun(states, steps) && n <= |steps|
  {
    forall i :: 0 <= i < n ==> !Completes(states[i], steps[i], j) && !Overwrites(states[i], steps[i], j)
  }

  /** Over whole runs: failures, retries and repeated pushes never lose a durable job. */
  lemma {:induction false} RunKeepsPending(states: seq<State>, steps: seq<Step>, n: nat, j: Subject)
    requires IsRun(states, steps) && n < |states|
    requires Inv(states[0]) && Pending(states[0], j)
    requires Undone(states, steps, n, j)
    ensures Pending(states[n], j)
  {
    if n > 0 {
      RunKeepsPending(states, steps, n - 1, j);
      RunInv(states, steps, n - 1);
      StepKeepsPendingIff(states[n - 1], steps[n - 1], j);
    }
  }

  /** Every job of the lane, queued or in hand, has a room and an event id. */
  ghost predicate LaneDurable(s: State, thumb: bool) {
    && (forall k :: k in Lane(s.jobs, thumb) ==> Durable(Lane(s.jobs, thumb)[k]))
    && (forall p :: p in s.procs && !s.procs[p].Fetching? && s.procs[p].job.thumb == thumb ==> Durable(s.procs[p].job.info))
  }

  lemma StepLaneDurable(s: State, step: Step, thumb: bool)
    requires Enabled(s, step) && LaneDurable(s, thumb)
    requires step.Begin? && step.thumb == thumb ==> Durable(step.info)
    ensures LaneDurable(Apply(s, step), thumb)
    ensures forall key :: !Overwrites(s, step, AnyEvent(thumb, key))
  {
    var s' := Apply(s, step);
    forall p | p in s'.procs && !s'.procs[p].Fetching? && s'.procs[p].job.thumb == thumb
      ensures Durable(s'.procs[p].job.info)
    {
      if p in s.procs && s'.procs[p] != s.procs[p] {
        assert step.Fetch? || s'.procs[p].job.info == s.procs[p].job.info;
      }
    }
    forall k | k in Lane(s'.jobs, thumb)
      ensures Durable(Lane(s'.jobs, thumb)[k])
    {
      if step.Insert? && s.procs[step.pid].job.thumb == thumb && s.procs[step.pid].job.key == k {
        assert Lane(s'.jobs, thumb)[k] == s.procs[step.pid].job.info;
      } else {
        assert k in Lane(s.jobs, thumb) && Lane(s'.jobs, thumb)[k] == Lane(s.jobs, thumb)[k];
      }
    }
  }

  /**
   A lane into which only events push, as the thumbnail lane is, loses a job in no other way
   than by downloading it.
   */
  lemma {:induction false} EventLaneKeeps(states: seq<State>, steps: seq<Step>, n: nat, thumb: bool, key: string)
    requires IsRun(states, steps) && n < |states|
    requires Inv(states[0]) && LaneDurable(states[0], thumb) && Pending(states[0], AnyEvent(thumb, key))
    requires forall i :: 0 <= i < n && steps[i].Begin? && steps[i].thumb == thumb ==> Durable(steps[i].info)
    requires forall i :: 0 <= i < n ==> !Completes(states[i], steps[i], AnyEvent(thumb, key))
    ensures LaneDurable(states[n], thumb) && Pending(states[n], AnyEvent(thumb, key))
  {
    if n > 0 {
      EventLaneKeeps(states, steps, n - 1, thumb, key);
      RunInv(states, steps, n - 1);
      StepLaneDurable(states[n - 1], steps[n - 1], thumb);
      StepKeepsPendingIff(states[n - 1], steps[n - 1], AnyEvent(thumb, key));
    }
  }

  /** In the download lane AddReq can lose one: its insert over a queued job, of which there is no other copy, leaves nothing durable. */
  lemma AddReqOverwrites(s: State, pid: nat, key: string)
    requires KeysHaveSlash(s) && InLane(s.jobs, AnyEvent(false, key)) && !Held(s, AnyEvent(false, key), {})
    requires pid in s.procs && s.procs[pid] == Pushing(Job(false, key, ADD_REQ), Inserting)
    ensures Enabled(s, Insert(pid)) && !Pending(Apply(s, Insert(pid)), AnyEvent(false, key))
  {
    StepKeepsPendingIff(s, Insert(pid), AnyEvent(false, key));
  }

  // ------------------------------------------------------------------
  // When an event's row is marked as downloaded
  // ------------------------------------------------------------------

  /** The worker comes to UpdateMediaDownload for the row. */
  predicate MarksRow(s: State, step: Step, row: (string, string)) {
    && step.Finish? && step.pid in s.procs && s.procs[step.pid].Succeeded?
    && Durable(s.procs[step.pid].job.info) && RowOf(s.procs[step.pid].job.info) == row
  }

  /** A worker whose download has succeeded does not go away without finishing. */
  lemma {:induction false} SucceededFinishes(states: seq<State>, steps: seq<Step>, m: nat, pid: nat, row: (string, string))
    returns (i: nat)
    requires IsRun(states, steps) && m <= |steps| && states[|steps|].procs == map[]
    requires pid in states[m].procs && states[m].procs[pid].Succeeded?
    requires Durable(states[m].procs[pid].job.info) && RowOf(states[m].procs[pid].job.info) == row
    ensures m <= i < |steps| && MarksRow(states[i], steps[i], row)
    decreases |steps| - m
  {
    assert m < |steps| && Enabled(states[m], steps[m]);
    if steps[m] == Finish(pid) {
      i := m;
    } else {
      assert pid in states[m + 1].procs && states[m + 1].procs[pid] == states[m].procs[pid];
      i := SucceededFinishes(states, steps, m + 1, pid, row);
    }
  }

  /**
   On every run that comes to rest, an event whose job is queued or in flight at some point has its own row
   marked afterwards, unless another job takes the place of the last copy in the lane.
   */
  lemma {:induction false} OwnRowMarked(states: seq<State>, steps: seq<Step>, m: nat, thumb: bool, key: string, row: (string, string))
    returns (i: nat)
    requires IsRun(states, steps) && Inv(states[0]) && m <= |steps|
    requires states[|steps|].procs == map[]
    requires Pending(states[m], Subject(thumb, key, Some(row)))
    requires forall k :: m <= k < |steps| ==> !Overwrites(states[k], steps[k], Subject(thumb, key, Some(row)))
    ensures m <= i < |steps| && MarksRow(states[i], steps[i], row)
    decreases |steps| - m
  {
    var j := Subject(thumb, key, Some(row));
    RunInv(states, steps, m);
    if m == |steps| {
      assert false;
    } else {
      StepKeepsPendingIff(states[m], steps[m], j);
      if Completes(states[m], steps[m], j) {
        assert states[m + 1].procs[steps[m].pid] == Succeeded(states[m].procs[steps[m].pid].job);
        i := SucceededFinishes(states, steps, m + 1, steps[m].pid, row);
      } else {
        i := OwnRowMarked(states, steps, m + 1, thumb, key, row);
      }
    }
  }

  // ------------------------------------------------------------------
  // Jobs that are lost
  // ------------------------------------------------------------------

  /** One worker at most, nobody waiting, no thumbnails. */
  function Pool(jobs: map<string, Info>, cur: int, downloading: set<string>, procs: map<nat, Proc>): State {
    State(1, cur, Lanes(map[], jobs), [], downloading, procs, map[], map[])
  }

  /** A stretch of a run. */
  datatype Leg = Leg(states: seq<State>, steps: seq<Step>)

  /** All downloads of the stretch end the same way, and the row is not marked. */
  ghost predicate IsLeg(l: Leg, from: State, to: State, row: (string, string), success: bool) {
    && IsRun(l.states, l.steps) && l.states[0] == from && l.states[|l.steps|] == to
    && forall i :: 0 <= i < |l.steps| ==> Spares(l.states[i], l.steps[i], row, success)
  }

  predicate Spares(s: State, step: Step, row: (string, string), success: bool) {
    (step.Report? ==> step.success == success) && !MarksRow(s, step, row)
  }

  lemma Three(s0: State, t0: Step, s1: State, t1: Step, s2: State, t2: Step, s3: State, row: (string, string), success: bool)
    returns (l: Leg)
    requires Goes(s0, t0, s1) && Goes(s1, t1, s2) && Goes(s2, t2, s3)
    requires Spares(s0, t0, row, success) && Spares(s1, t1, row, success) && Spares(s2, t2, row, success)
    ensures IsLeg(l, s0, s3, row, success) && |l.steps| == 3
  {
    l := Leg([s0, s1, s2, s3], [t0, t1, t2]);
  }

  lemma Joined(l: Leg, m: Leg, from: State, mid: State, to: State, row: (string, string), success: bool) returns (j: Leg)
    requires IsLeg(l, from, mid, row, success) && IsLeg(m, mid, to, row, success)
    ensures IsLeg(j, from, to, row, success)
    ensures |j.steps| == |l.steps| + |m.steps| && j.states[|l.steps|] == mid
  {
    j := Leg(l.states + m.states[1..], l.steps + m.steps);
    var n := |l.steps|;
    forall i | 0 <= i < |j.steps|
      ensures Enabled(j.states[i], j.steps[i]) && j.states[i + 1] == Apply(j.states[i], j.steps[i])
      ensures Spares(j.states[i], j.steps[i], row, success)
    {
      if i < n {
        assert Enabled(l.states[i], l.steps[i]);
      } else {
        assert Enabled(m.states[i - n], m.steps[i - n]);
      }
    }
  }

  /** An event's job is in its lane, and its push about to start a worker. */
  function Waiting(key: string, info: Info): State {
    Pool(map[key := info], 0, {key}, map[0 := Pushing(Job(false, key, info), Kicking)])
  }

  /** Another job for the same medium has taken its place there. */
  function Replaced(key: string, info: Info, other: Info): State {
    Pool(map[key := other], 0, {key},
         map[0 := Pushing(Job(false, key, info), Kicking), 1 := Pushing(Job(false, key, other), Kicking)])
  }

  /** The first worker has fetched the other job and tried it. */
  function Tried(key: string, other: Info, success: bool): State {
    var b := Job(false, key, other);
    Pool(map[], 1, {key}, map[1 := Pushing(b, Kicking), 2 := if success then Succeeded(b) else Failed(b)])
  }

  lemma LossPushesJob(domain: string, netdiskID: string, info: Info, row: (string, string), success: bool) returns (l: Leg)
    ensures IsLeg(l, Init(1), Waiting(BuildKey(domain, netdiskID), info), row, success) && |l.steps| == 3
  {
    var key := BuildKey(domain, netdiskID);
    var a := Job(false, key, info);
    l := Three(Init(1), Begin(0, domain, netdiskID, false, info),
               Pool(map[], 0, {}, map[0 := Pushing(a, Marking)]), Mark(0),
               Pool(map[], 0, {key}, map[0 := Pushing(a, Inserting)]), Insert(0),
               Waiting(key, info), row, success);
  }

  lemma LossPushesOther(domain: string, netdiskID: string, info: Info, other: Info, row: (string, string), success: bool) returns (l: Leg)
    ensures var key := BuildKey(domain, netdiskID); IsLeg(l, Waiting(key, info), Replaced(key, info, other), row, success)
  {
    var key := BuildKey(domain, netdiskID);
    var p, b := Pushing(Job(false, key, info), Kicking), Job(false, key, other);
    var s4 := Pool(map[key := info], 0, {key}, map[0 := p, 1 := Pushing(b, Marking)]);
    var s5 := Pool(map[key := info], 0, {key}, map[0 := p, 1 := Pushing(b, Inserting)]);
    assert map[key := info][key := other] == map[key := other];
    assert {key} + {key} == {key};
    assert Goes(s4, Mark(1), s5);
    assert Goes(s5, Insert(1), Replaced(key, info, other));
    l := Three(Waiting(key, info), Begin(1, domain, netdiskID, false, other), s4, Mark(1), s5, Insert(1), Replaced(key, info, other), row, success);
  }

  lemma LossFetches(key: string, info: Info, other: Info, row: (string, string), success: bool) returns (l: Leg)
    ensures IsLeg(l, Replaced(key, info, other), Tried(key, other, success), row, success)
  {
    var b := Job(false, key, other);
    var s6 := Replaced(key, info, other);
    var s7 := Pool(map[key := other], 1, {key}, map[1 := Pushing(b, Kicking), 2 := Fetching]);
    var s8 := Pool(map[], 1, {key}, map[1 := Pushing(b, Kicking), 2 := Downloading(b)]);
    assert s6.procs - {0} == map[1 := Pushing(b, Kicking)];
    assert Goes(s6, Kick(0, 2), s7);
    assert Goes(s7, Fetch(2, [], key, false), s8) by {
      assert IsWaitingList([], s7.waiting);
      assert Lane(s7.jobs, false) - {key} == map[];
    }
    l := Three(s6, Kick(0, 2), s7, Fetch(2, [], key, false), s8, Report(2, success), Tried(key, other, success), row, success);
  }

  /** Nothing is pushed again; the other push finds the one worker there, which finds nothing and leaves. */
  lemma LossComesToRest(key: string, other: Info, row: (string, string), success: bool) returns (l: Leg)
    requires (success || !Durable(other)) && RowOf(other) != row
    ensures IsLeg(l, Tried(key, other, success), Pool(map[], 0, {}, map[]), row, success)
  {
    var b := Job(false, key, other);
    var s9 := Tried(key, other, success);
    var s10 := Pool(map[], 1, {}, map[1 := Pushing(b, Kicking), 2 := Fetching]);
    var s11 := Pool(map[], 1, {}, map[2 := Fetching]);
    assert Goes(s9, Finish(2), s10);
    assert Goes(s10, Kick(1, 3), s11) by { assert s10.procs - {1} == s11.procs; }
    assert Goes(s11, Fetch(2, [], key, false), Pool(map[], 0, {}, map[])) by {
      assert IsWaitingList([], s11.waiting);
      assert s11.procs - {2} == map[];
    }
    l := Three(s9, Finish(2), s10, Kick(1, 3), s11, Fetch(2, [], key, false), Pool(map[], 0, {}, map[]), row, success);
  }

  /** The whole run: an event's job is queued, another takes its place, is tried once, and everything comes to rest. */
  lemma LossRun(domain: string, netdiskID: string, info: Info, other: Info, success: bool) returns (l: Leg)
    requires (success || !Durable(other)) && RowOf(other) != RowOf(info)
    ensures IsLeg(l, Init(1), Pool(map[], 0, {}, map[]), RowOf(info), success)
    ensures |l.steps| >= 3 && l.states[3] == Waiting(BuildKey(domain, netdiskID), info)
  {
    var key, row := BuildKey(domain, netdiskID), RowOf(info);
    var waiting, replaced, tried, rest := Waiting(key, info), Replaced(key, info, other), Tried(key, other, success), Pool(map[], 0, {}, map[]);
    var l1 := LossPushesJob(domain, netdiskID, info, row, success);
    var l2 := LossPushesOther(domain, netdiskID, info, other, row, success);
    var l3 := LossFetches(key, info, other, row, success);
    var l4 := LossComesToRest(key, other, row, success);
    l3 := Joined(l3, l4, replaced, tried, rest, row, success);
    l2 := Joined(l2, l3, waiting, replaced, rest, row, success);
    l := Joined(l1, l2, Init(1), waiting, rest, row, success);
  }

  /**
   The loss as a whole run from the start, for every medium and every event: the job is pending at
   one point, no download ever succeeds, and yet the run comes to rest with empty lanes, no process
   and the key no longer marked as downloading.
   */
  lemma AddReqLosesQueuedJob(domain: string, netdiskID: string, info: Info) returns (states: seq<State>, steps: seq<Step>, n: nat)
    requires Durable(info)
    ensures IsRun(states, steps) && states[0] == Init(1) && n < |states|
    ensures forall i :: 0 <= i < |steps| && steps[i].Report? ==> !steps[i].success
    ensures var key, end := BuildKey(domain, netdiskID), states[|steps|];
            && Pending(states[n], AnyEvent(false, key))
            && !Pending(end, AnyEvent(false, key)) && NoJobs(end.jobs) && key !in end.downloading && end.procs == map[]
  {
    var l := LossRun(domain, netdiskID, info, ADD_REQ, false);
    states, steps, n := l.states, l.steps, 3;
    assert InLane(states[3].jobs, AnyEvent(false, BuildKey(domain, netdiskID)));
    assert forall i :: 0 <= i < |steps| ==> Spares(states[i], steps[i], RowOf(info), false);
  }

  /**
   And for every two events with the same medium: the second takes the first one's place in the lane, the
   download succeeds, everything comes to rest, and the row of the first event is never marked.
   */
  lemma SecondEventHidesFirst(domain: string, netdiskID: string, first: Info, second: Info)
    returns (states: seq<State>, steps: seq<Step>, n: nat)
    requires Durable(first) && Durable(second) && RowOf(first) != RowOf(second)
    ensures IsRun(states, steps) && states[0] == Init(1) && n < |states|
    ensures forall i :: 0 <= i < |steps| ==> (steps[i].Report? ==> steps[i].success) && !MarksRow(states[i], steps[i], RowOf(first))
    ensures Pending(states[n], Subject(false, BuildKey(domain, netdiskID), Some(RowOf(first))))
    ensures NoJobs(states[|steps|].jobs) && states[|steps|].procs == map[]
  {
    var l := LossRun(domain, netdiskID, first, second, true);
    states, steps, n := l.states, l.steps, 3;
    assert InLane(states[3].jobs, Subject(false, BuildKey(domain, netdiskID), Some(RowOf(first))));
    assert forall i :: 0 <= i < |steps| ==> Spares(states[i], steps[i], RowOf(first), true);
  }
}
