# Ligase: state machines and indexes, modelled and proved in Dafny

Ligase is a Matrix homeserver. This project models the parts of it whose correctness is a
statement about whole runs, all inputs or all interleavings, and proves those statements.
`dafny verify dfyconfig.toml` checks everything.

| file | what it models |
|---|---|
| TimingWheel.dfy, LocalCache.dfy | the in-process cache with its sixteen-slot timing wheel |
| Snowflake.dfy | the 64-bit id generator |
| DeviceIndex.dfy | the Redis hashes that index devices and their encryption keys, event by event |
| KeyCommands.dfy | the key hashes under sets and deletes that interleave command by command |
| TokenFilter.dfy | the proxy's token filter, and how it meets the index and the id generator |
| DownloadPool.dfy | the media download scheduler with its lanes, workers and waiters |
| LockProtocol.dfy | the Redis lock, for any number of clients |
| ProfileCache.dfy | the cache-aside profile store |
| TxnDedup.dfy | transaction-id deduplication and its background cleaner |
| Framing.dfy | the tracing header on NATS requests |
| FlowCheck.dfy, FedPending.dfy, Sharding.dfy | registration flows, federation counters, instance sharding |
| Text.dfy, History.dfy, Arith.dfy | string operations, replay of a log, division |

Where the source updates state in place, the model is a class whose methods are proved equal to
functions on values; the theorems are about those functions. Concurrency is a sequence of atomic
steps: one for each Redis or database command in KeyCommands, LockProtocol, ProfileCache and
TxnDedup, one for each map write or critical section in DownloadPool. The other modules take whole
calls as steps. Clocks, random tokens, JSON decoding and the room server's verdict are parameters.
Redis and the database are maps; composite Redis names are tuples, so no clash through a separator
is assumed, except in TxnDedup where the concatenation itself is modelled. Redis commands succeed.

## What the proofs found

- A cache entry lives for `duration` ticks, up to one step, whenever it is put, if and only if
  `duration <= 16 * step`. That holds from 210 up, so also for the default of 300. With a shorter
  duration such as 33 an entry can be evicted a whole turn early (`TimingWheel.AlwaysOnTimeIff`). For
  exactly the same durations a hit can bring an eviction forward (`TimingWheel.DatesStandIff`). No
  hit ever postpones one, because `Offset` never leaves -1.
- Ids are distinct exactly when the clock never returns to a millisecond it left and no
  millisecond gets more than 4095 calls per worker id. The wait loop does not enforce the second:
  it can end inside the exhausted millisecond (`Snowflake.WaitMayReissue`).
- The download lane can lose an event's job: a request added without room and event id
  overwrites it in the lane, and is dropped if it fails (`DownloadPool.AddReqLosesQueuedJob`).
- The lock is broken exactly by a DEL sent while the store holds a live token of somebody else,
  and the GET before it does not rule that out (`LockProtocol.RunSafeIff`, `LockProtocol.LateDeleteSteals`).
- Setting a display name for a user without a profile row leaves a default avatar in the cache
  that the new row does not have (`ProfileCache.SetNameCoherentIff`, `ProfileCache.DefaultAvatarOutlives`).
- A getter whose field is dropped between its HEXISTS and its hmget answers with an empty name, which
  the user need never have had (`ProfileCache.VanishedNameIsTold`).
- Two events with the same medium share one place in the download lane. The second takes it, and the
  row of the first is then never marked as downloaded (`DownloadPool.SecondEventHidesFirst`).
- A key set while a delete of its device's keys is under way can end up with a record that no list
  names (`KeyCommands.CrossingOrphansKey`). Records and lists come to rest in agreement exactly when
  no set and delete of a key cross (`KeyCommands.SettlesIff`).
- The cleaner of transaction ids deletes by field, after its scan. A field that is found expired,
  sent again and only then deleted loses an id that the client was just told, and the next repeat
  goes out a second time (`TxnDedup.CleanerErasesFreshID`). An id is safe for its thirty seconds
  exactly when, as it is stored, no cleaner has collected its field and no other send is about to drop
  the field or to store a different text there (`TxnDedup.SurvivesIff`).
- Event type and transaction id are concatenated without a separator, so different pairs that
  run together to the same text count as repeats (`TxnDedup.SwallowedIff`).
- A framed request with an empty carrier, or one that decodes to null, reaches the handler with
  its frame still on (`Framing.FramedRoundTripIff`).
- The waiting list is sorted in ascending order, so the key with the fewest waiters comes first
  (`DownloadPool.GetWaitingList`).

## Model

| member | source | states |
|---|---|---|
| TimingWheel.Slot | cache/local_cache.go:63-66 | the slot of a count is its quotient by the step, modulo sixteen |
| TimingWheel.RunInv | cache/local_cache.go:314-355 | after every run of puts, hits and ticks the sweeper is on schedule (its equality test is never jumped over), every stored key has a bucket entry, and every entry is swept within `duration` |
| TimingWheel.IdleDrains | cache/local_cache.go:314-350 | for every duration, `duration` ticks without a put or hit leave all repos and buckets empty |
| TimingWheel.ExactLifetime | cache/local_cache.go:197-236 | a key put without bucket entries survives every tick before its eviction tick and is removed at exactly that tick, under all traffic when the duration fits one turn |
| TimingWheel.EvictionTickClosedForm | cache/local_cache.go:62-66 | the eviction tick is the sweep of floor((c + duration) / step), or the one sixteen steps earlier if that is still ahead |
| TimingWheel.OnTimeIff | cache/local_cache.go:285-304 | a put at count c lives in (duration - step, duration] exactly when the wheel does not reach its slot a turn early |
| TimingWheel.AlwaysOnTimeIff | cache/local_cache.go:285-304 | every put is on time if and only if duration <= 16 * step |
| TimingWheel.FitsFrom210 | cache/local_cache.go:302-304 | every duration from 210 up fits one turn |
| TimingWheel.NeverPostponed | cache/local_cache.go:255-268 | whatever the duration and the traffic, no hit or put postpones the first scheduled eviction |
| TimingWheel.HastensIff | cache/local_cache.go:255-268 | some hit brings some eviction forward if and only if duration > 16 * step |
| TimingWheel.DatesStandIff | cache/local_cache.go:197-268 | no traffic, from any reachable state, removes a key before the date that its first put gave it, if and only if duration <= 16 * step |
| TimingWheel.RunKeepsItem | cache/local_cache.go:68-76 | after any run, what is stored under a key is what was stored before or what some touch of the key stored; nothing is put in the place of a stored item |
| LocalCache.LocalCacheRepo.constructor | cache/local_cache.go:285-312 | Start: duration 0 means 300, anything below 15 is raised to 15; step, wheel size and first sweep follow |
| LocalCache.LocalCacheRepo.Update | cache/local_cache.go:62-110 | update at any Offset: an Offset of -1 stays -1 and the key is filed once more; otherwise the entry moves to its new slot |
| LocalCache.RefiledMoves | cache/local_cache.go:78-110 | an item at an Offset moves from its old slot to the slot of its target, one at -1 is filed once more, and no other key moves |
| LocalCache.LocalCacheRepo.Hit | cache/local_cache.go:255-262 | with all Offsets at -1, which every method keeps, an update only adds a bucket entry |
| LocalCache.LocalCacheRepo.HitWithRef | cache/local_cache.go:255-268 | a hit touches the item and then the item it is tied to, and both are present afterwards |
| LocalCache.LocalCacheRepo.Put | cache/local_cache.go:197-236 | overwrites in place or stores a new item at Offset -1; refuses a repo out of range; changes no other value |
| LocalCache.LocalCacheRepo.Get | cache/local_cache.go:242-272 | answers exactly for stored keys with their value; a miss changes nothing |
| LocalCache.LocalCacheRepo.Tie | cache/local_cache.go:164-179 | sets the reference of the stored item only, and keeps the cache valid |
| LocalCache.LocalCacheRepo.Sweep | cache/local_cache.go:330-347 | removes from the repo exactly the keys of one slot, and empties the slot |
| LocalCache.LocalCacheRepo.TickOnce | cache/local_cache.go:318-351 | one second of the sweeper is one tick of the wheel |
| Snowflake.UidGenerator.constructor | common/uid/snowflake.go:73-86 | a fresh generator on the given worker range |
| Snowflake.UidGenerator.Next | common/uid/snowflake.go:92-128 | settles on the millisecond its clock readings lead to, advances the state for it, and returns that state's id |
| Snowflake.SettlesOn | common/uid/snowflake.go:96-115 | a first reading past the last id stands; one before it gives way to the reading after the sleep; at the last id's millisecond the call stays while ids are left, and else takes the first nanosecond reading past that millisecond's start |
| Snowflake.SettleNotEarlier | common/uid/snowflake.go:96-100 | a call goes back behind the last id iff neither of its readings has caught up |
| Snowflake.FieldsAreDisjoint | common/uid/snowflake.go:126 | on 64-bit words the shifted fields may be or-ed or added alike |
| Snowflake.Decode | common/uid/snowflake.go:27-39 | within 41 bits of milliseconds nothing overflows, and timestamp, sequence and worker decode |
| Snowflake.PackWraps | common/uid/snowflake.go:126 | on any timestamp the id is an int64 equal to the sum of the shifted fields modulo 2^64 |
| Snowflake.DecodeWorker | common/uid/snowflake.go:27-39 | the worker decodes whatever the timestamp |
| Snowflake.RankAt | common/uid/snowflake.go:102-123 | the i-th id of a run has the rank of its position within the millisecond, modulo 4095 per worker id |
| Snowflake.UniqueIff | common/uid/snowflake.go:92-128 | all ids of a run are distinct if and only if the clock never returns to a millisecond it left and no millisecond exceeds the capacity |
| Snowflake.UniqueIffNotOverdrawn | common/uid/snowflake.go:96-115 | when every re-read after a skew sleep has caught up, ids are distinct if and only if no millisecond is settled on more than 4095 * (idEnd - idStart + 1) times |
| Snowflake.WaitMayReissue | common/uid/snowflake.go:108-117 | the wait loop can end inside the exhausted millisecond and start it over |
| Snowflake.SkewMayReissue | common/uid/snowflake.go:97-100 | with a re-read that has not caught up three calls produce a duplicate |
| Snowflake.LaterIsLarger | common/uid/snowflake.go:126 | ids of later milliseconds are larger |
| Snowflake.StrictlyIncreasing | common/uid/snowflake.go:102-127 | with one worker id, a clock that does not go back and at most 4095 calls per millisecond, ids strictly increase |
| Snowflake.DisjointWorkersNeverCollide | common/uid/snowflake.go:73-86 | generators with disjoint worker ranges never issue the same id, whatever their clocks do |
| DeviceIndex.DeviceCache.DeleteListedDeviceKeys | cache/redis_cache.go:646-668 | deletes the record and the list entry of every listed device key, and nothing else |
| DeviceIndex.DeviceCache.DeleteListedOneTimeKeys | cache/redis_cache.go:610-632 | the same for one-time keys |
| DeviceIndex.DeviceCache.OnDeviceInsert | cachewriter/consumers/device_dbev_consumer.go:101-206 | purges every sibling of the mac, in any order, and then records the device |
| DeviceIndex.DeviceCache.OnDeviceRecover | cachewriter/consumers/device_dbev_consumer.go:208-232 | records the device without evicting |
| DeviceIndex.DeviceCache.OnDeviceDelete | cachewriter/consumers/device_dbev_consumer.go:248-324 | purges one device |
| DeviceIndex.DeviceCache.OnKeyInsert | cachewriter/consumers/e2e_dbev_consumer.go:97-138 | writes a key record and its list entry |
| DeviceIndex.DeviceCache.OnOneTimeKeyDelete | cachewriter/consumers/e2e_dbev_consumer.go:140-158 | removes a one-time key record and its list entry |
| DeviceIndex.DeviceCache.OnAlgorithmInsert | cachewriter/consumers/e2e_dbev_consumer.go:160-173 | writes the algorithms of a device |
| DeviceIndex.DeviceCache.DeleteDeviceOneTimeKey | cache/redis_cache.go:606-635 | drops all one-time keys of a device |
| DeviceIndex.DeviceCache.DeleteDeviceKey | cache/redis_cache.go:637-671 | drops the algorithms and all device keys of a device |
| DeviceIndex.PurgedOneMore | cachewriter/consumers/device_dbev_consumer.go:119-187 | purging devices one at a time purges the whole set |
| DeviceIndex.HandleAgrees | cachewriter/consumers/device_dbev_consumer.go:101-324 | every event keeps the six indexed hashes in agreement; the algorithm hash has no index |
| DeviceIndex.RunAgrees | cachewriter/consumers/device_dbev_consumer.go:101-324 | over every sequence of events: a device is listed iff it has a record iff its mac list names it, and a key has a record iff its list names it |
| DeviceIndex.InsertEvicts | cachewriter/consumers/device_dbev_consumer.go:119-203 | after an insert the mac list is exactly the new device, each listed sibling is gone with its algorithms and keys, the new device has the algorithms and keys it had, and every other device, unlisted ones of the mac included, is as it was |
| DeviceIndex.DeleteErases | cachewriter/consumers/device_dbev_consumer.go:248-324 | a delete leaves nothing of its device and changes no other |
| DeviceIndex.IndexMatchesHistory | cachewriter/consumers/device_dbev_consumer.go:101-324 | a device is indexed iff some insert or recover of it is followed by no delete of it and no insert of another device with its mac |
| DeviceIndex.KeysMatchHistory | cachewriter/consumers/e2e_dbev_consumer.go:97-158 | a key has a record iff some insert of it is followed by no delete of it, no drop of its kind for its device, no delete of its device, and no insert of another device with the mac while its own is indexed |
| DeviceIndex.AlgorithmsMatchHistory | cachewriter/consumers/e2e_dbev_consumer.go:160-173 | the same for the algorithms of a device, which are dropped with its device keys |
| DeviceIndex.LastAlgorithms | cachewriter/consumers/e2e_dbev_consumer.go:160-173 | algorithms that are present after a run are those of the last insert of them |
| DeviceIndex.LastKey | cachewriter/consumers/e2e_dbev_consumer.go:97-138 | a key record that is present is that of the last insert of the key |
| DeviceIndex.LastDevice | cachewriter/consumers/device_dbev_consumer.go:190-232 | a device record that is present is that of the last insert or recover of the device |
| KeyCommands.StepOrderedIff | cache/redis_cache.go:606-744 | a command keeps sets and deletes of every key in order iff it does not begin a set of a key whose delete is under way, nor a delete of a key whose set is |
| KeyCommands.RunOrderedIff | cache/redis_cache.go:606-744 | in every interleaving all states are in order iff no command is one of these |
| KeyCommands.OrderedAtRest | cachewriter/consumers/device_dbev_consumer.go:125-170 | with no call under way, order is the agreement of key records and key lists |
| KeyCommands.SettlesIff | cache/redis_cache.go:606-744 | however the calls under way go on, key records and key lists are in agreement once they are through, iff the calls are in order now |
| KeyCommands.SetAlone | cache/redis_cache.go:704-742 | the two commands of a set, with nothing between, are the whole set |
| KeyCommands.DropAlone | cache/redis_cache.go:606-671 | the commands of a drop of a device's keys of one kind, with nothing between, are the whole drop |
| KeyCommands.DeleteOneAlone | cache/redis_cache.go:673-689 | the same for the delete of a single one-time key |
| KeyCommands.CrossingOrphansKey | cache/redis_cache.go:646-722 | for every key a run from the empty store that ends with a record which no list names |
| Text.MacOfTagged | common/util.go:336-342 | the mac of a device id tagged with ':' and a colon-free tag is the untagged id |
| Text.MacOfUntagged | common/util.go:336-342 | an id is its own mac iff it has no colon |
| Text.ParseReads | cache/txnid.go:40 | digits parse with or without a sign, leading zeros included, iff the number is an int64 |
| Text.ParseRejects | cache/txnid.go:40 | nothing else parses |
| TokenFilter.SimpleFilter.InsertDevice | common/filter/SimpleFilterMng.go:73-94 | adds the device, and for a mac other than "virtual" leaves only it |
| TokenFilter.SimpleFilter.DeleteDevice | common/filter/SimpleFilterMng.go:96-109 | removes the device alone |
| TokenFilter.SimpleFilter.Lookup | common/filter/SimpleFilterMng.go:111-131 | passes everything before loading, and the held devices afterwards |
| TokenFilter.FilterMatchesHistory | common/filter/SimpleFilterMng.go:73-131 | a loaded filter passes a device iff some insert of it has no later delete of it and, unless its mac is "virtual", no later insert of another device with its mac |
| TokenFilter.FilterAgreesWithIndex | common/filter/SimpleFilterMng.go:73-131 | fed the same logins and logouts, the filter passes what the device index holds, and for non-virtual macs nothing more |
| TokenFilter.BuiltMac | common/util.go:178-204 | a generated device id has the device name, or "virtual", as its mac |
| TokenFilter.BuiltDevice | common/util.go:178-204 | a name is kept as it is unless a new device is asked for; the type is bot iff not human, else virtual iff unnamed, else actual |
| TokenFilter.AtMostOnePasses | common/filter/SimpleFilterMng.go:73-131 | in every state of every run at most one device of a user and a mac other than "virtual" passes |
| TokenFilter.NewestLoginOnly | common/util.go:178-204 | over every run of logins and logouts, through any number of instances with disjoint worker ids and generators within their limits, the device of a login under a non-virtual name passes iff no later login of the user has that name and no later logout names the device |
| TokenFilter.ShutOutUntilReinserted | common/filter/SimpleFilterMng.go:73-94 | whatever else happens, a device is shut out from the insert of another with its non-virtual mac until it is inserted again |
| TokenFilter.VirtualDevicesIndependent | common/filter/SimpleFilterMng.go:73-109 | a virtual device passes iff some insert of it has no later delete of it |
| DownloadPool.BuildAfterSplit | content/repos/downloadStateRepo.go:39-49 | splitting succeeds iff the key has a slash, and exactly then building gives the key back |
| DownloadPool.SplitAfterBuild | content/repos/downloadStateRepo.go:39-49 | domain and id come back from their key iff the domain has no slash |
| DownloadPool.GetWaitingList | content/repos/downloadStateRepo.go:130-139 | one element per waited-for key with its count, in ascending order of counts |
| DownloadPool.DownloadStateRepo.EnterWait | content/repos/downloadStateRepo.go:77-79 | counts one waiter more |
| DownloadPool.DownloadStateRepo.LeaveWait | content/repos/downloadStateRepo.go:80-89 | counts one less, and drops the key with the last |
| DownloadPool.DownloadConsumer.GetInQue | content/download/consumer.go:252-268 | takes the key from the thumbnail lane if it is there, else from the download lane |
| DownloadPool.DownloadConsumer.GetOne | content/download/consumer.go:198-237 | fails only on empty lanes; otherwise takes out exactly one job: the first queued key of the waiting list, else a thumbnail, else a download |
| DownloadPool.FewestWaitersFirst | content/download/consumer.go:199-211 | with a new waiting list the key taken is waited for, by no more than any other queued key, and the others stay on the list |
| DownloadPool.RestInOrder | content/download/consumer.go:205-207 | what is left of the list has the fewest waiters first, none fewer than the key taken |
| DownloadPool.ThumbnailsFirst | content/download/consumer.go:213-236 | a key in both lanes comes out of the thumbnails, a download nobody on the list waits for only when there are no thumbnails, and a cached list is served in its order |
| DownloadPool.FetchServesFewest | content/download/consumer.go:166-177 | a worker that fetches with a new list downloads a key for which the fewest wait |
| DownloadPool.DownloadConsumer.StartWorkerIfNeed | content/download/consumer.go:147-155 | starts and counts a worker exactly below the limit |
| DownloadPool.DownloadConsumer.FetchOrLeave | content/download/consumer.go:166-177 | a worker leaves, and is discounted, only when both lanes are empty |
| DownloadPool.DownloadConsumer.Enqueue | content/download/consumer.go:270-282 | writes one lane under the key, replacing what was there |
| DownloadPool.StepCountsWorkers | content/download/consumer.go:147-177 | every step keeps the counter equal to the number of live workers, within the limit |
| DownloadPool.StepCountsWaiters | content/repos/downloadStateRepo.go:73-90 | every step keeps the waiting map equal to the number of waiters per key, without keys at zero |
| DownloadPool.StepNotStranded | content/download/consumer.go:147-237 | every step keeps: a queued job has a live worker, or a push that has yet to call startWorkerIfNeed |
| DownloadPool.RunInv | content/download/consumer.go:147-282 | these hold in every state of every interleaving |
| DownloadPool.RunAllBegun | content/download/consumer.go:178-194 | on every run each job queued or in hand has lane, key, room, user and event as some push gave them |
| DownloadPool.RetriedIff | content/download/consumer.go:178-194 | a finished worker pushes its job again iff the download failed and the job has a room and an event id |
| DownloadPool.MarksMatchHistory | content/repos/downloadStateRepo.go:51-71 | a key is marked as downloading iff some push has marked it and no download of it has finished since |
| DownloadPool.WaiterSawDownload | content/repos/downloadStateRepo.go:73-79 | whoever waits for a key has found it marked as downloading |
| DownloadPool.QuietMeansDone | content/download/consumer.go:147-237 | when no push and no worker is left, both lanes are empty and the counter is zero |
| DownloadPool.CanWork | content/download/consumer.go:157-196 | as long as a push or a worker is left, one of them can take a step |
| DownloadPool.DrainsCompletely | content/download/consumer.go:147-237 | once pushes and failures stop, every interleaving ends within a bound read off the state, and not before both lanes are empty |
| DownloadPool.StepKeepsPendingIff | content/download/consumer.go:165-195 | a job with room and event id, of any event or of a given one, stays queued or in flight in its lane exactly until a download of its last copy succeeds or another job overwrites it: a request without them or, if one event is followed, another event's |
| DownloadPool.RunKeepsPending | content/download/consumer.go:165-195 | over whole runs, failures, retries and repeated pushes never lose such a job |
| DownloadPool.EventLaneKeeps | content/download/consumer.go:270-314 | a lane into which only events push, as the thumbnail lane is, loses a job only by downloading it |
| DownloadPool.AddReqOverwrites | content/download/consumer.go:316-319 | AddReq over the only queued copy of an event's job leaves nothing that a failure would push again |
| DownloadPool.AddReqLosesQueuedJob | content/download/consumer.go:165-319 | for every medium and event a run from the start in which the job is pending, no download succeeds, and everything comes to rest with empty lanes |
| DownloadPool.OwnRowMarked | content/download/consumer.go:178-194 | on every run that comes to rest, an event whose job is pending at some point has its own row marked later, unless another job overwrites the last copy of it |
| DownloadPool.SecondEventHidesFirst | content/download/consumer.go:178-314 | for every medium and two events with it, a run from the start in which every download succeeds, everything comes to rest, and the first event's row is never marked |
| LockProtocol.Lock | cache/lock.go:27-60 | succeeds at the first free attempt within the wait: one attempt, no limit, or a deadline |
| LockProtocol.WaitModes | cache/lock.go:31-53 | a negative wait allows one attempt, zero any number, a positive one those up to and including the deadline; the first free one succeeds |
| LockProtocol.LockKey.DoLock | cache/lock.go:62-78 | takes the key iff it is not held and the expiry is positive |
| LockProtocol.GrantedFor | cache/lock.go:66 | a granted lock is live for exactly the seconds asked for, under the token that asked |
| LockProtocol.GrantLasts | cache/lock.go:62-78 | on every run, until a deletion or another grant, a further attempt is granted iff as many seconds have passed as the last grant asked for |
| LockProtocol.NotGrantedAgain | cache/lock.go:62-78 | on every run without a deletion the lock is not granted again within those seconds |
| LockProtocol.RefusedLeavesNoTrace | cache/lock.go:27-60 | a client that is refused and gives up leaves nothing but its token drawn |
| LockProtocol.ReleaseAlone | cache/lock.go:84-101 | GET and DEL with nothing between remove the caller's own live token and leave any other entry |
| LockProtocol.LockKey.UnLock | cache/lock.go:80-102 | removes the entry iff forced or the caller's token is the live one; says whether it expired or belongs to another |
| LockProtocol.RunConsistent | cache/lock.go:62-102 | in every run, thefts or not, tokens stay unique and a live entry belongs to a client that has it as its lease |
| LockProtocol.StealsIff | cache/lock.go:84-101 | a deletion takes the lock from another holder iff the store has a live token that is not the caller's |
| LockProtocol.StepSafeIff | cache/lock.go:62-102 | a step keeps "who holds the lock is who the store says" iff it is not such a deletion |
| LockProtocol.RunSafeIff | cache/lock.go:27-102 | in every run from the start, all states have this iff no step is such a deletion |
| LockProtocol.TimelyDeletesOwn | cache/lock.go:84-101 | a DEL before the caller's lease runs out finds and removes the caller's own token |
| LockProtocol.RunExclusive | cache/lock.go:27-102 | over every run with unique tokens, without force and with timely DELs, at most one client holds the lock |
| LockProtocol.StealingBreaks | cache/lock.go:80-102 | after any deletion of a foreign live token one more client makes two holders |
| LockProtocol.LateDeleteSteals | cache/lock.go:84-101 | an unforced run from the start gets to a theft |
| ProfileCache.ComplexCache.StoreProfile | common/complexCache.go:66-85 | writes the row and drops the hash |
| ProfileCache.ComplexCache.StoreAvatarURL | common/complexCache.go:87-107 | writes the avatar column and drops the cached avatar only |
| ProfileCache.ComplexCache.StoreDisplayName | common/complexCache.go:109-128 | writes the name column and drops the cached name only |
| ProfileCache.ComplexCache.Load | common/complexCache.go:143-159 | reads the row or makes up a default one, and caches it whole |
| ProfileCache.ComplexCache.GetProfileByUserID | common/complexCache.go:130-160 | on a coherent store returns what the database says and keeps coherence; fails iff it misses and there is no row |
| ProfileCache.ComplexCache.GetAvatarURL | common/complexCache.go:162-192 | the same for the avatar |
| ProfileCache.ComplexCache.GetDisplayName | common/complexCache.go:194-224 | the same for the name |
| ProfileCache.SetsWrite | common/complexCache.go:66-128 | each set leaves the user with exactly the given columns and the other one as it was, and every other user alone |
| ProfileCache.SetsDrop | cache/redis_cache.go:869-901 | each set drops from the cache the fields it set and no others, an expiry the whole hash |
| ProfileCache.FillCoherentIff | common/complexCache.go:153-157 | caching a row keeps coherence iff the row is still the current one |
| ProfileCache.SetAvatarCoherent | common/complexCache.go:92-98 | setting an avatar keeps coherence, row or no row |
| ProfileCache.SetNameCoherentIff | common/complexCache.go:114-120 | setting a name keeps coherence iff the user has a row, the default avatar is empty, or no avatar is cached |
| ProfileCache.SetAlone | common/complexCache.go:66-128 | the upsert and the drop of a set, with nothing between, are the whole set |
| ProfileCache.StepSoundIff | common/complexCache.go:66-224 | a command keeps "whatever is cached agrees with the database or is about to be dropped, and every read in flight is current" iff it is no upsert that changes a user who is being read, and no name upsert for a rowless user whose cached default avatar nothing is about to drop |
| ProfileCache.RunSoundIff | common/complexCache.go:66-224 | in every interleaving of upserts, drops, lookups, reads, fills and expiries, all states have this iff no step is one of these two |
| ProfileCache.QuietIsCoherent | common/complexCache.go:66-224 | with no drop and no fill outstanding, it is coherence |
| ProfileCache.SettlesIff | common/complexCache.go:72-157 | with every cached field accounted for, the cache is coherent once the calls under way are through, on every interleaving, iff every read in flight is current |
| ProfileCache.AnswerIsCurrent | cache/redis_cache.go:410-464 | on every clean interleaving a hit is told what the database says, if the field was there at its HEXISTS and no set of it was or came under way until its hmget |
| ProfileCache.LastSetDecides | common/complexCache.go:66-128 | on every run the last set of a column decides what the database says of it |
| ProfileCache.UnsetColumn | common/complexCache.go:66-128 | without one the column is as it was, or empty if another set made the row |
| ProfileCache.FetchHasAsked | cache/redis_cache.go:410-464 | a getter comes to its hmget only with every wanted field found by an HEXISTS of its own |
| ProfileCache.HitReadsLastSet | common/complexCache.go:130-138 | on every clean run a hit is told what the last set of the column gave, if that set was done when the getter asked |
| ProfileCache.MissReadsLastSet | common/complexCache.go:143-159 | a miss reads, caches and answers what the last set of the column gave |
| ProfileCache.HitIff | cache/redis_cache.go:410-464 | a hit takes a user id that is not empty and every wanted field |
| ProfileCache.LookupAlone | cache/redis_cache.go:432-464 | the commands of a lookup of one field, with nothing between, answer iff it is a hit, and then with what is cached |
| ProfileCache.BothLookupAlone | cache/redis_cache.go:410-430 | the same for both fields |
| ProfileCache.VanishedNameIsTold | cache/redis_cache.go:449-464 | a clean run in which the user always has one of two names and the getter is told the empty one |
| ProfileCache.OverlapStaleIff | common/complexCache.go:66-157 | for any of the three sets, row or no row, with its upsert between a getter's read and its fill: if the drop comes before the fill the cache ends coherent iff the set changed nothing, if after it iff it is no name set for a rowless user with a default avatar |
| ProfileCache.DefaultAvatarOutlives | common/complexCache.go:109-157 | a run of a read, a fill and a whole name set, with any non-empty default avatar, leaves that avatar cached beside a row without one |
| FlowCheck.CheckFlows | clientapi/routing/register.go:655-686 | true iff the required stages are contained in the completed ones as multisets |
| FlowCheck.CheckFlowCompleted | clientapi/routing/register.go:691-702 | true iff some allowed flow is covered |
| FlowCheck.SortedCopy | clientapi/routing/register.go:660-667 | a sorted permutation of the stages |
| FlowCheck.PassOver | clientapi/routing/register.go:679-683 | on sorted lists a completed stage that is not the next required one can be passed over |
| FlowCheck.OrderFreeAndMonotone | clientapi/routing/register.go:688-690 | the order of stages does not matter, and extra stages never undo a flow |
| Framing.Uint32RoundTrip | common/rpc.go:173-181 | four big-endian bytes decode to the number they encode |
| Framing.FrameFields | common/rpc.go:201-218 | a frame is the bytes F0 F0 F0 F0, the carrier's length in four big-endian bytes, the carrier and the payload |
| Framing.Send | common/rpc.go:184-218 | frames the payload iff there is a carrier of at most 1024 bytes |
| Framing.Buffer.Read | common/rpc.go:227-251 | reads what is there, up to the length asked for, and fails only at the end |
| Framing.ParseNatsData | common/rpc.go:226-260 | on any input: a frame whose carrier decodes yields its payload and header, anything else comes back as it is |
| Framing.Unwrap | common/rpc.go:300-308 | the handler sees the payload of a frame with a header, and any other data unchanged |
| Framing.FrameUnique | common/rpc.go:226-260 | a frame has one carrier and one payload |
| Framing.FramedRoundTripIff | common/rpc.go:184-260 | the handler gets the sent payload iff the carrier is not empty and decodes to a header that is not null; else it gets the whole frame |
| Framing.BareRoundTripIff | common/rpc.go:189-199 | a bare payload arrives unchanged iff it does not itself look like a frame with a header |
| Framing.NoMagicPassesThrough | common/rpc.go:229-236 | data without the magic number passes through unchanged |
| TxnDedup.DecodeEncode | cache/txnid.go:34-54 | a stored value reads back as the same time and event id, colons included |
| TxnDedup.DecodeText | cache/txnid.go:34-50 | on any text the number before the first colon is the time and all after it the event id; without a colon or a number it is malformed |
| TxnDedup.CleanPageIff | cache/txnid.go:34-47 | a look takes a field away iff it is malformed or more than thirty seconds old, and touches no other field |
| TxnDedup.TxnServer.GetTxnID | cache/txnid.go:28-50 | answers with the event id for thirty seconds, and deletes what is malformed or older |
| TxnDedup.TxnServer.PutTxnID | cache/txnid.go:52-55 | stores time and event id under the field |
| TxnDedup.TxnServer.CollectExpired | bgmgr/txnmgr/txnmgr.go:74-97 | collects exactly the fields found malformed or expired on some page |
| TxnDedup.TxnServer.HDelMulti | cache/base.go:171-178 | deletes exactly the fields of the batch |
| TxnDedup.TxnServer.CleanExpireTxnID | bgmgr/txnmgr/txnmgr.go:71-105 | with nothing between scan and deletion, leaves the hash as if each page had been cleaned on its own |
| TxnDedup.TxnServer.PostEvent | clientapi/routing/postevent.go:62-147 | replies with a remembered event id without sending; otherwise sends, and remembers what was accepted |
| TxnDedup.CleanedIsBatch | bgmgr/txnmgr/txnmgr.go:74-104 | deleting page by page and deleting one batch at the end come to the same |
| TxnDedup.CleanerIsInvisible | bgmgr/txnmgr/txnmgr.go:71-105 | a pass without a store in between changes no answer of any later run of lookups, stores and cleaning, on any store contents |
| TxnDedup.SendAlone | clientapi/routing/postevent.go:62-147 | lookup, drop, input and store, taken one after the other, add up to the whole send and its reply |
| TxnDedup.SweepAlone | bgmgr/txnmgr/txnmgr.go:71-105 | scans and deletions, taken one after the other, add up to the whole pass |
| TxnDedup.RunRemembersIff | cache/txnid.go:28-55 | over every interleaving an id stays exactly as long as no step deletes its field or stores something else there |
| TxnDedup.SurvivesIff | cache/txnid.go:28-55 | no interleaving whose lookups and scans fall within thirty seconds loses a stored id, iff now no cleaner has its field in a batch, no send is about to drop the field as expired, and no send that the room server accepts or will accept is on its way to store a different text there |
| TxnDedup.KeptUnlessErased | bgmgr/txnmgr/txnmgr.go:98-104 | with no other send of the field under way, a stored id stays through thirty seconds iff no cleaner deletes the field, by a batch old or new |
| TxnDedup.CleanerErasesFreshID | bgmgr/txnmgr/txnmgr.go:71-105 | for any three accepted sends of one transaction id, the first expired at the second and the third within thirty seconds of the second, a run from the start in which all three are input |
| TxnDedup.OverlappingSendsBothInput | clientapi/routing/postevent.go:68-147 | two sends of one transaction id that both look before either stores are both input |
| TxnDedup.EraseInvisibleIff | bgmgr/txnmgr/txnmgr.go:98-104 | deleting a field changes no later answer iff the field is absent or expired |
| TxnDedup.SweepsAreInvisible | bgmgr/txnmgr/txnmgr.go:71-105 | in every interleaving in which no send stores into a field that a cleaner has collected, no deletion changes a later answer |
| TxnDedup.RepeatIsDeduplicated | clientapi/routing/postevent.go:68-147 | under every interleaving in which no other send of the field is under way at the store and no cleaner deletes the field afterwards, the same send within thirty seconds is told the first event id and nothing is input again |
| TxnDedup.ForgottenAfterDuration | cache/txnid.go:44-46 | a repeat is input again exactly when more than thirty seconds have passed |
| TxnDedup.SwallowedIff | clientapi/routing/postevent.go:68-69 | another send in the room is answered from the memory iff its type and transaction id concatenate to the same text; all others are unaffected |
| FedPending.FedCache.IncrFedRoomPending | cache/redis_cache.go:1183-1199 | names the pair as pending, and adds to its record if there is one |
| FedPending.FedCache.IncrFedRoomDomainOffset | cache/redis_cache.go:1201-1221 | moves the offset, takes off the pending size, unlists the pair at zero, counts the send; without a record nothing |
| FedPending.RunBalances | cache/redis_cache.go:1183-1221 | over every run each record's size is the initial one plus increments less decrements, and its send count the initial one plus the advances |
| FedPending.LastAdvanceDecides | cache/redis_cache.go:1207 | offset and event id of a record are those of its last advance |
| FedPending.PendingMatchesHistory | cache/redis_cache.go:1183-1221 | a pair is named as pending iff some increment of it, record or no record, is followed by no advance that left its record with nothing |
| FedPending.Negated32Cancels | cache/redis_cache.go:1219 | the decrement is negated as an int32: it cancels modulo 2^32, and the smallest one stays |
| FedPending.StepVisibleIff | cache/redis_cache.go:1183-1221 | a step keeps every pair with something pending in the pending set, except exactly an advance of an unlisted pair whose size comes out positive, which takes a negative decrement |
| FedPending.RunVisible | cache/redis_cache.go:1183-1221 | over every run with non-negative decrements no such pair is missing from the set |
| FedPending.AdvanceSettles | cache/redis_cache.go:1208-1211 | after an advance the pair is listed exactly when something is left |
| Sharding.OneAccepts | common/util.go:344-347 | without multi-write exactly one instance accepts a key |
| Sharding.TwoAcceptIff | common/util.go:344-356 | with multi-write exactly two accept, except with one instance, and at the largest hash when the total divides 2^32 - 1; then one does |
| Sharding.PathsAgreeIff | common/util.go:344-372 | the direct test agrees with the one through GetSyncInstance on every instance, except at the largest hash with multi-write, where it does iff the total divides 2^32 |

## Left out

- Registration of repo names in the local cache: a name table, and repo capacities above sixteen, which index past the slots the source allocates.
- The int32 wrap of the cache tick counter, and the mutexes around single map operations: each operation is one step.
- LocalCache.LocalCacheRepo.Put: the panic on a nil value is not modelled, because values are strings.
- Panics inside a download and the restart of a worker after one, crash recovery at start-up, and the wake-ups of waiting requests: only the counts of waiters are modelled.
- Go-level data races on the lane maps: each map write is one atomic step.
- Device events that interleave command by command: one consumer handles them one after the other. Only the key hashes have writers elsewhere, and those are in KeyCommands.
- DownloadPool.GetWaitingList: the order among keys with equal counts is left open, as the library sort leaves it.
- The lock's error texts and its TTL query, and clocks that run differently at client and server.
- TxnDedup.TxnServer.PostEvent: everything else the handler does to an event.
- TxnDedup.TxnServer.GetTxnID: the age is computed on unbounded integers, so an int64 overflow of the difference is not modelled.
- Errors of Redis and of the database, except for a missing profile row; the length of the profile expiry.
- FedPending.FedCache.IncrFedRoomPending: the 64-bit limit of HINCRBY is not modelled.
- The FNV hash, JSON, macaroons and token text: opaque inputs.
- The push index, room state and its authorisation rules, HTTP routing, and the Kafka and NATS transports: no deep state of their own, or decided in code outside these files.
