/**
 The Redis hashes that describe devices and their keys, as the cache writer keeps them
 (cachewriter/consumers/device_dbev_consumer.go, cachewriter/consumers/e2e_dbev_consumer.go,
 cache/redis_cache.go).

 A record hash is a map entry. A list hash, whose fields equal their values, is the set of
 tuples (key parts, field): a hash with no fields does not exist, which is how Redis has it.
 Composite Redis names are tuples, so no two of them are taken to clash through a ':'.
 The key consumer skips events that are not recoveries; those it does handle, and the
 cache's own setters and deleters, are the key events here.
 */
module DeviceIndex {
  import opened Text
  import opened History

  datatype DeviceRecord = DeviceRecord(did: string, createdTs: int, displayName: string, deviceType: string, identifier: string)

  datatype KeyRecord = KeyRecord(keyInfo: string, signature: string)

  /** The name of a key record: device_key:user:device:algorithm or one_time_key:user:device:key:algorithm. */
  datatype KeyName =
    | DeviceKey(user: string, device: string, algorithm: string)
    | OneTimeKey(user: string, device: string, keyID: string, algorithm: string)

  datatype Store = Store(
    device: map<(string, string), DeviceRecord>,
    deviceList: set<(string, string)>,
    macList: set<(string, string, string)>,
    algorithm: map<(string, string), string>,
    keys: map<KeyName, KeyRecord>,
    deviceKeyList: set<(string, string, KeyName)>,
    oneTimeKeyList: set<(string, string, KeyName)>)

  const EMPTY := Store(map[], {}, {}, map[], map[], {}, {})

  datatype Event =
    | DeviceInsert(user: string, record: DeviceRecord)
    | DeviceRecover(user: string, record: DeviceRecord)
    | DeviceDelete(user: string, did: string)
    | KeyInsert(name: KeyName, key: KeyRecord)
    | OneTimeKeyDelete(user: string, did: string, keyID: string, algorithm: string)
    | AlgorithmInsert(user: string, did: string, algorithms: string)
    | DropDeviceKeys(user: string, did: string)
    | DropOneTimeKeys(user: string, did: string)

  // ------------------------------------------------------------------
  // What each handler does, on values
  // ------------------------------------------------------------------

  function Siblings(s: Store, u: string, mac: string): set<string> {
    set e | e in s.macList && e.0 == u && e.1 == mac :: e.2
  }

  function ListedIn(list: set<(string, string, KeyName)>, u: string, dids: set<string>): set<KeyName> {
    set e | e in list && e.0 == u && e.1 in dids :: e.2
  }

  function Unlisted(list: set<(string, string, KeyName)>, u: string, dids: set<string>): set<(string, string, KeyName)> {
    set e | e in list && !(e.0 == u && e.1 in dids)
  }

  function WithoutDeviceKeys(s: Store, u: string, dids: set<string>): Store {
    s.(keys := s.keys - ListedIn(s.deviceKeyList, u, dids),
       deviceKeyList := Unlisted(s.deviceKeyList, u, dids))
  }

  function WithoutOneTimeKeys(s: Store, u: string, dids: set<string>): Store {
    s.(keys := s.keys - ListedIn(s.oneTimeKeyList, u, dids),
       oneTimeKeyList := Unlisted(s.oneTimeKeyList, u, dids))
  }

  function Pairs(u: string, dids: set<string>): set<(string, string)> {
    set d | d in dids :: (u, d)
  }

  function MacEntries(u: string, mac: string, dids: set<string>): set<(string, string, string)> {
    set d | d in dids :: (u, mac, d)
  }

  /** Everything of these devices goes: algorithm, keys, record and both index entries. */
  function Purged(s: Store, u: string, mac: string, dids: set<string>): Store {
    var s := WithoutOneTimeKeys(WithoutDeviceKeys(s, u, dids), u, dids);
    s.(algorithm := s.algorithm - Pairs(u, dids),
       device := s.device - Pairs(u, dids),
       deviceList := s.deviceList - Pairs(u, dids),
       macList := s.macList - MacEntries(u, mac, dids))
  }

  function Recorded(s: Store, u: string, record: DeviceRecord): Store {
    var did := record.did;
    s.(device := s.device[(u, did) := record],
       deviceList := s.deviceList + {(u, did)},
       macList := s.macList + {(u, DeviceMac(did), did)})
  }

  function WithKey(s: Store, name: KeyName, key: KeyRecord): Store {
    var s := s.(keys := s.keys[name := key]);
    var entry := (name.user, name.device, name);
    if name.DeviceKey? then s.(deviceKeyList := s.deviceKeyList + {entry})
    else s.(oneTimeKeyList := s.oneTimeKeyList + {entry})
  }

  function WithoutKey(s: Store, name: KeyName): Store {
    s.(keys := s.keys - {name},
       oneTimeKeyList := s.oneTimeKeyList - {(name.user, name.device, name)})
  }

  function Handle(s: Store, ev: Event): Store {
    match ev
    case DeviceInsert(u, record) =>
      var mac := DeviceMac(record.did);
      Recorded(Purged(s, u, mac, Siblings(s, u, mac) - {record.did}), u, record)
    case DeviceRecover(u, record) => Recorded(s, u, record)
    case DeviceDelete(u, did) => Purged(s, u, DeviceMac(did), {did})
    case KeyInsert(name, key) => WithKey(s, name, key)
    case OneTimeKeyDelete(u, did, keyID, al) => WithoutKey(s, OneTimeKey(u, did, keyID, al))
    case AlgorithmInsert(u, did, als) => s.(algorithm := s.algorithm[(u, did) := als])
    case DropDeviceKeys(u, did) =>
      WithoutDeviceKeys(s.(algorithm := s.algorithm - {(u, did)}), u, {did})
    case DropOneTimeKeys(u, did) => WithoutOneTimeKeys(s, u, {did})
  }

  function Run(s: Store, events: seq<Event>): Store
    decreases |events|
  {
    if events == [] then s else Handle(Run(s, events[..|events| - 1]), events[|events| - 1])
  }

  // ------------------------------------------------------------------
  // The handlers, command by command
  // ------------------------------------------------------------------

  class DeviceCache {
    var device: map<(string, string), DeviceRecord>
    var deviceList: set<(string, string)>
    var macList: set<(string, string, string)>
    var algorithm: map<(string, string), string>
    var keys: map<KeyName, KeyRecord>
    var deviceKeyList: set<(string, string, KeyName)>
    var oneTimeKeyList: set<(string, string, KeyName)>

    ghost function Abs(): Store
      reads this
    {
      Store(device, deviceList, macList, algorithm, keys, deviceKeyList, oneTimeKeyList)
    }

    constructor ()
      ensures Abs() == EMPTY
    {
      device, deviceList, macList, algorithm := map[], {}, {}, map[];
      keys, deviceKeyList, oneTimeKeyList := map[], {}, {};
    }

    /** hgetall on device_key_list, then del and hdel for each key found. */
    method DeleteListedDeviceKeys(u: string, did: string)
      modifies this`keys, this`deviceKeyList
      ensures Abs() == WithoutDeviceKeys(old(Abs()), u, {did})
    {
      var keyMap := ListedIn(deviceKeyList, u, {did});
      ghost var found := keyMap;
      while keyMap != {}
        invariant keyMap <= found
        invariant keys == old(keys) - (found - keyMap)
        invariant deviceKeyList == old(deviceKeyList) - set k | k in found - keyMap :: (u, did, k)
        decreases keyMap
      {
        var keyID :| keyID in keyMap;
        keys := keys - {keyID};
        deviceKeyList := deviceKeyList - {(u, did, keyID)};
        assert found - (keyMap - {keyID}) == (found - keyMap) + {keyID};
        keyMap := keyMap - {keyID};
      }
    }

    /** The same on one_time_key_list. */
    method DeleteListedOneTimeKeys(u: string, did: string)
      modifies this`keys, this`oneTimeKeyList
      ensures Abs() == WithoutOneTimeKeys(old(Abs()), u, {did})
    {
      var keyMap := ListedIn(oneTimeKeyList, u, {did});
      ghost var found := keyMap;
      while keyMap != {}
        invariant keyMap <= found
        invariant keys == old(keys) - (found - keyMap)
        invariant oneTimeKeyList == old(oneTimeKeyList) - set k | k in found - keyMap :: (u, did, k)
        decreases keyMap
      {
        var keyID :| keyID in keyMap;
        keys := keys - {keyID};
        oneTimeKeyList := oneTimeKeyList - {(u, did, keyID)};
        assert found - (keyMap - {keyID}) == (found - keyMap) + {keyID};
        keyMap := keyMap - {keyID};
      }
    }

    /** The commands sent for one device that has to go. */
    method Purge(u: string, mac: string, did: string)
      modifies this
      ensures Abs() == Purged(old(Abs()), u, mac, {did})
    {
      algorithm := algorithm - {(u, did)};
      DeleteListedDeviceKeys(u, did);
      DeleteListedOneTimeKeys(u, did);
      device := device - {(u, did)};
      deviceList := deviceList - {(u, did)};
      macList := macList - {(u, mac, did)};
      assert Pairs(u, {did}) == {(u, did)} && MacEntries(u, mac, {did}) == {(u, mac, did)};
    }

    method Record(u: string, record: DeviceRecord)
      modifies this`device, this`deviceList, this`macList
      ensures Abs() == Recorded(old(Abs()), u, record)
    {
      var mac := DeviceMac(record.did);
      device := device[(u, record.did) := record];
      deviceList := deviceList + {(u, record.did)};
      macList := macList + {(u, mac, record.did)};
    }

    /** onDeviceInsert: evicts every other device of the same mac, one after the other. */
    method OnDeviceInsert(u: string, record: DeviceRecord)
      modifies this
      ensures Abs() == Handle(old(Abs()), DeviceInsert(u, record))
    {
      PurgeSiblings(u, DeviceMac(record.did), record.did);
      Record(u, record);
    }

    /** The eviction loop. */
    method PurgeSiblings(u: string, mac: string, keep: string)
      modifies this
      ensures Abs() == Purged(old(Abs()), u, mac, Siblings(old(Abs()), u, mac) - {keep})
    {
      var deviceMap := set e | e in macList && e.0 == u && e.1 == mac :: e.2;
      ghost var siblings := deviceMap - {keep};
      var left := deviceMap;
      PurgedNone(Abs(), u, mac);
      while left != {}
        invariant left <= deviceMap
        invariant Abs() == Purged(old(Abs()), u, mac, siblings - left)
        decreases left
      {
        var did :| did in left;
        if did != keep {
          Purge(u, mac, did);
          PurgedOneMore(old(Abs()), u, mac, siblings - left, did);
          assert siblings - (left - {did}) == (siblings - left) + {did};
        } else {
          assert siblings - (left - {did}) == siblings - left;
        }
        left := left - {did};
      }
      assert siblings - {} == siblings;
    }

    method OnDeviceRecover(u: string, record: DeviceRecord)
      modifies this
      ensures Abs() == Handle(old(Abs()), DeviceRecover(u, record))
    {
      Record(u, record);
    }

    method OnDeviceDelete(u: string, did: string)
      modifies this
      ensures Abs() == Handle(old(Abs()), DeviceDelete(u, did))
    {
      Purge(u, DeviceMac(did), did);
    }

    /** onDeviceKeyInsert, onOneTimeKeyInsert, SetDeviceKey and SetOneTimeKey. */
    method OnKeyInsert(name: KeyName, key: KeyRecord)
      modifies this`keys, this`deviceKeyList, this`oneTimeKeyList
      ensures Abs() == Handle(old(Abs()), KeyInsert(name, key))
    {
      keys := keys[name := key];
      if name.DeviceKey? {
        deviceKeyList := deviceKeyList + {(name.user, name.device, name)};
      } else {
        oneTimeKeyList := oneTimeKeyList + {(name.user, name.device, name)};
      }
    }

    method OnOneTimeKeyDelete(u: string, did: string, keyID: string, al: string)
      modifies this`keys, this`oneTimeKeyList
      ensures Abs() == Handle(old(Abs()), OneTimeKeyDelete(u, did, keyID, al))
    {
      var keyKey := OneTimeKey(u, did, keyID, al);
      keys := keys - {keyKey};
      oneTimeKeyList := oneTimeKeyList - {(u, did, keyKey)};
    }

    /** onAlInsert and SetDeviceAlgorithm. */
    method OnAlgorithmInsert(u: string, did: string, algorithms: string)
      modifies this`algorithm
      ensures Abs() == Handle(old(Abs()), AlgorithmInsert(u, did, algorithms))
    {
      algorithm := algorithm[(u, did) := algorithms];
    }

    method DeleteDeviceOneTimeKey(u: string, did: string)
      modifies this`keys, this`oneTimeKeyList
      ensures Abs() == Handle(old(Abs()), DropOneTimeKeys(u, did))
    {
      DeleteListedOneTimeKeys(u, did);
    }

    method DeleteDeviceKey(u: string, did: string)
      modifies this`algorithm, this`keys, this`deviceKeyList
      ensures Abs() == Handle(old(Abs()), DropDeviceKeys(u, did))
    {
      algorithm := algorithm - {(u, did)};
      DeleteListedDeviceKeys(u, did);
    }
  }

  lemma PurgedNone(s: Store, u: string, mac: string)
    ensures Purged(s, u, mac, {}) == s
  {
    assert s.keys - {} == s.keys;
    assert s.algorithm - {} == s.algorithm;
    assert s.device - {} == s.device;
  }

  /** Purging devices one at a time purges the whole set, in any order. */
  lemma PurgedOneMore(s: Store, u: string, mac: string, dids: set<string>, d: string)
    requires d !in dids
    ensures Purged(Purged(s, u, mac, dids), u, mac, {d}) == Purged(s, u, mac, dids + {d})
  {
    var one, two, all := Purged(s, u, mac, dids), Purged(Purged(s, u, mac, dids), u, mac, {d}), Purged(s, u, mac, dids + {d});
    assert two.deviceKeyList == all.deviceKeyList;
    assert two.oneTimeKeyList == all.oneTimeKeyList;
    assert ListedIn(one.deviceKeyList, u, {d}) == ListedIn(s.deviceKeyList, u, {d});
    assert ListedIn(one.oneTimeKeyList, u, {d}) == ListedIn(s.oneTimeKeyList, u, {d});
    assert ListedIn(s.deviceKeyList, u, dids + {d}) == ListedIn(s.deviceKeyList, u, dids) + ListedIn(s.deviceKeyList, u, {d});
    assert ListedIn(s.oneTimeKeyList, u, dids + {d}) == ListedIn(s.oneTimeKeyList, u, dids) + ListedIn(s.oneTimeKeyList, u, {d});
    assert two.keys == all.keys;
    assert Pairs(u, dids + {d}) == Pairs(u, dids) + Pairs(u, {d});
    assert two.macList == all.macList;
  }

  // ------------------------------------------------------------------
  // Agreement of the indexes
  // ------------------------------------------------------------------

  /** The three places that know a device name the same devices, each under its own id and mac. */
  ghost predicate DevicesAgree(s: Store) {
    && s.deviceList == s.device.Keys
    && s.macList == (set e | e in s.device.Keys :: (e.0, DeviceMac(e.1), e.1))
    && (forall e :: e in s.device ==> s.device[e].did == e.1)
  }

  /** A key has a record exactly when the list of its device names it. */
  ghost predicate KeysAgree(s: Store) {
    && s.deviceKeyList == (set k | k in s.keys.Keys && k.DeviceKey? :: (k.user, k.device, k))
    && s.oneTimeKeyList == (set k | k in s.keys.Keys && k.OneTimeKey? :: (k.user, k.device, k))
  }

  ghost predicate Agree(s: Store) {
    DevicesAgree(s) && KeysAgree(s)
  }

  lemma PurgedDevicesAgree(s: Store, u: string, mac: string, dids: set<string>)
    requires DevicesAgree(s) && forall d :: d in dids ==> DeviceMac(d) == mac
    ensures DevicesAgree(Purged(s, u, mac, dids))
  {
  }

  lemma PurgedKeysAgree(s: Store, u: string, mac: string, dids: set<string>)
    requires KeysAgree(s)
    ensures KeysAgree(Purged(s, u, mac, dids))
  {
    DroppedKeysAgree(s, u, dids);
    DroppedKeysAgree(WithoutDeviceKeys(s, u, dids), u, dids);
  }

  lemma DroppedKeysAgree(s: Store, u: string, dids: set<string>)
    requires KeysAgree(s)
    ensures KeysAgree(WithoutDeviceKeys(s, u, dids)) && KeysAgree(WithoutOneTimeKeys(s, u, dids))
  {
  }

  lemma SiblingsShareMac(s: Store, u: string, mac: string)
    requires DevicesAgree(s)
    ensures forall d :: d in Siblings(s, u, mac) <==> (u, d) in s.device && DeviceMac(d) == mac
  {
    forall d | (u, d) in s.device && DeviceMac(d) == mac
      ensures d in Siblings(s, u, mac)
    {
      assert (u, mac, d) in s.macList;
    }
  }

  /** Every handler, the evicting insert included, keeps the six indexed hashes in agreement. The algorithm hash has no index. */
  lemma HandleAgrees(s: Store, ev: Event)
    requires Agree(s)
    ensures Agree(Handle(s, ev))
  {
    match ev
    case DeviceInsert(u, record) =>
      var mac := DeviceMac(record.did);
      var dids := Siblings(s, u, mac) - {record.did};
      SiblingsShareMac(s, u, mac);
      PurgedDevicesAgree(s, u, mac, dids);
      PurgedKeysAgree(s, u, mac, dids);
      RecordedAgrees(Purged(s, u, mac, dids), u, record);
    case DeviceRecover(u, record) => RecordedAgrees(s, u, record);
    case DeviceDelete(u, did) =>
      PurgedDevicesAgree(s, u, DeviceMac(did), {did});
      PurgedKeysAgree(s, u, DeviceMac(did), {did});
    case KeyInsert(name, key) => KeyInsertAgrees(s, name, key);
    case OneTimeKeyDelete(u, did, keyID, al) => KeyDeleteAgrees(s, OneTimeKey(u, did, keyID, al));
    case AlgorithmInsert(u, did, als) =>
    case DropDeviceKeys(u, did) => DroppedKeysAgree(s.(algorithm := s.algorithm - {(u, did)}), u, {did});
    case DropOneTimeKeys(u, did) => DroppedKeysAgree(s, u, {did});
  }

  lemma KeyInsertAgrees(s: Store, name: KeyName, key: KeyRecord)
    requires KeysAgree(s)
    ensures KeysAgree(WithKey(s, name, key))
  {
  }

  lemma KeyDeleteAgrees(s: Store, name: KeyName)
    requires KeysAgree(s) && name.OneTimeKey?
    ensures KeysAgree(WithoutKey(s, name))
  {
  }

  lemma RecordedAgrees(s: Store, u: string, record: DeviceRecord)
    requires Agree(s)
    ensures Agree(Recorded(s, u, record))
  {
  }

  /** Agreement over every sequence of device and key events. */
  lemma {:induction false} RunAgrees(events: seq<Event>)
    ensures Agree(Run(EMPTY, events))
    decreases |events|
  {
    if events != [] {
      RunAgrees(events[..|events| - 1]);
      HandleAgrees(Run(EMPTY, events[..|events| - 1]), events[|events| - 1]);
    }
  }

  // ------------------------------------------------------------------
  // What an insert evicts, and what it leaves
  // ------------------------------------------------------------------

  /** Nothing of the device is left anywhere. */
  ghost predicate Gone(s: Store, u: string, d: string) {
    && (u, d) !in s.device && (u, d) !in s.deviceList && (u, DeviceMac(d), d) !in s.macList
    && (u, d) !in s.algorithm
    && (forall k :: k in s.keys ==> !(k.user == u && k.device == d))
    && (forall e :: e in s.deviceKeyList + s.oneTimeKeyList ==> !(e.0 == u && e.1 == d))
  }

  /** Everything of the device is as it was. */
  ghost predicate Same(s: Store, s': Store, u: string, d: string) {
    && SameSecrets(s, s', u, d)
    && ((u, d) in s.device <==> (u, d) in s'.device)
    && ((u, d) in s.device ==> s.device[(u, d)] == s'.device[(u, d)])
    && ((u, d) in s.deviceList <==> (u, d) in s'.deviceList)
    && ((u, DeviceMac(d), d) in s.macList <==> (u, DeviceMac(d), d) in s'.macList)
  }

  /** Its algorithms and keys are. */
  ghost predicate SameSecrets(s: Store, s': Store, u: string, d: string) {
    && ((u, d) in s.algorithm <==> (u, d) in s'.algorithm)
    && ((u, d) in s.algorithm ==> s.algorithm[(u, d)] == s'.algorithm[(u, d)])
    && (forall k: KeyName :: k.user == u && k.device == d ==>
          (k in s.keys <==> k in s'.keys) && (k in s.keys ==> s.keys[k] == s'.keys[k]))
  }

  /**
   After an insert the mac list is exactly the new device. The devices the mac list named before are
   gone with their algorithms and keys. The new device has the algorithms and keys it had. Of no
   other device, of this mac or any, is anything changed.
   */
  lemma InsertEvicts(s: Store, u: string, record: DeviceRecord)
    requires Agree(s)
    ensures var s', mac := Handle(s, DeviceInsert(u, record)), DeviceMac(record.did);
            && Siblings(s', u, mac) == {record.did}
            && (u, record.did) in s'.device && s'.device[(u, record.did)] == record
            && SameSecrets(s, s', u, record.did)
            && (forall d :: d in Siblings(s, u, mac) && d != record.did ==> Gone(s', u, d))
            && (forall v, d :: (v, d) != (u, record.did) && !(v == u && d in Siblings(s, u, mac)) ==> Same(s, s', v, d))
  {
    var s', mac := Handle(s, DeviceInsert(u, record)), DeviceMac(record.did);
    var dids := Siblings(s, u, mac) - {record.did};
    SiblingsShareMac(s, u, mac);
    HandleAgrees(s, DeviceInsert(u, record));
    SiblingsShareMac(s', u, mac);
    PurgedSame(s, u, mac, dids, u, record.did);
    forall d | d in dids
      ensures Gone(s', u, d)
    {
      PurgedGone(s, u, mac, dids, d);
    }
    forall v, d | (v, d) != (u, record.did) && !(v == u && d in Siblings(s, u, mac))
      ensures Same(s, s', v, d)
    {
      PurgedSame(s, u, mac, dids, v, d);
      RecordedSame(Purged(s, u, mac, dids), u, record, v, d);
    }
  }

  lemma RecordedSame(s: Store, u: string, record: DeviceRecord, v: string, d: string)
    requires (v, d) != (u, record.did)
    ensures Same(s, Recorded(s, u, record), v, d)
  {
  }

  lemma PurgedGone(s: Store, u: string, mac: string, dids: set<string>, d: string)
    requires Agree(s) && d in dids && DeviceMac(d) == mac
    ensures Gone(Purged(s, u, mac, dids), u, d)
  {
    var s' := Purged(s, u, mac, dids);
    forall k | k in s'.keys
      ensures !(k.user == u && k.device == d)
    {
      assert k in s.keys;
      assert (k.user, k.device, k) in s.deviceKeyList + s.oneTimeKeyList;
    }
  }

  lemma PurgedSame(s: Store, u: string, mac: string, dids: set<string>, v: string, d: string)
    requires Agree(s) && !(v == u && d in dids)
    ensures Same(s, Purged(s, u, mac, dids), v, d)
  {
  }

  /** A delete does the same to one device, whether or not it was known. */
  lemma DeleteErases(s: Store, u: string, did: string)
    requires Agree(s)
    ensures var s' := Handle(s, DeviceDelete(u, did));
            Gone(s', u, did) && forall v, d :: (v, d) != (u, did) ==> Same(s, s', v, d)
  {
    PurgedGone(s, u, DeviceMac(did), {did}, did);
    forall v, d | (v, d) != (u, did)
      ensures Same(s, Handle(s, DeviceDelete(u, did)), v, d)
    {
      PurgedSame(s, u, DeviceMac(did), {did}, v, d);
    }
  }

  // ------------------------------------------------------------------
  // The index against its history
  // ------------------------------------------------------------------

  /** What an event means for the device (u, d). */
  function EffectOn(ev: Event, u: string, d: string): Effect {
    match ev
    case DeviceInsert(v, record) =>
      if v != u then Neutral
      else if record.did == d then Adds
      else if DeviceMac(record.did) == DeviceMac(d) then Removes
      else Neutral
    case DeviceRecover(v, record) => if v == u && record.did == d then Adds else Neutral
    case DeviceDelete(v, did) => if v == u && did == d then Removes else Neutral
    case _ => Neutral
  }

  function Log(events: seq<Event>, u: string, d: string): (log: seq<Effect>)
    ensures |log| == |events|
  {
    seq(|events|, i requires 0 <= i < |events| => EffectOn(events[i], u, d))
  }

  /** Whether something is there after an event with the effect. */
  predicate Outcome(effect: Effect, before: bool) {
    match effect
    case Adds => true
    case Removes => false
    case Neutral => before
  }

  /** One event does to a device what its effect says. */
  lemma HandleHasEffect(s: Store, ev: Event, u: string, d: string)
    requires DevicesAgree(s)
    ensures ((u, d) in Handle(s, ev).device) == Outcome(EffectOn(ev, u, d), (u, d) in s.device)
  {
    if ev.DeviceInsert? {
      SiblingsShareMac(s, u, DeviceMac(ev.record.did));
    }
  }

  lemma {:induction false} RunIsReplay(events: seq<Event>, u: string, d: string)
    ensures (u, d) in Run(EMPTY, events).device <==> Present(Log(events, u, d))
    decreases |events|
  {
    if events != [] {
      var n := |events| - 1;
      RunIsReplay(events[..n], u, d);
      RunAgrees(events[..n]);
      assert Log(events, u, d)[..n] == Log(events[..n], u, d);
      HandleHasEffect(Run(EMPTY, events[..n]), events[n], u, d);
    }
  }

  /**
   Over every run, a device is in the index exactly when some insert or recover of it is
   followed by no delete of it and no insert of another device with the same mac.
   */
  lemma IndexMatchesHistory(events: seq<Event>, u: string, d: string)
    ensures (u, d) in Run(EMPTY, events).device <==> AddedAndKept(Log(events, u, d))
  {
    RunIsReplay(events, u, d);
    PresentIff(Log(events, u, d));
  }

  // ------------------------------------------------------------------
  // Keys and algorithms against their history
  // ------------------------------------------------------------------

  /** The event evicts device (u, d), given whether the device is indexed at that moment. */
  predicate Evicts(ev: Event, u: string, d: string, indexed: bool) {
    && ev.DeviceInsert? && ev.user == u && ev.record.did != d
    && DeviceMac(ev.record.did) == DeviceMac(d) && indexed
  }

  /** What an event means for one key. */
  function KeyEffect(ev: Event, k: KeyName, indexed: bool): Effect {
    match ev
    case KeyInsert(name, _) => if name == k then Adds else Neutral
    case OneTimeKeyDelete(u, did, keyID, al) => if k == OneTimeKey(u, did, keyID, al) then Removes else Neutral
    case DropDeviceKeys(u, did) => if k.DeviceKey? && k.user == u && k.device == did then Removes else Neutral
    case DropOneTimeKeys(u, did) => if k.OneTimeKey? && k.user == u && k.device == did then Removes else Neutral
    case DeviceDelete(u, did) => if k.user == u && k.device == did then Removes else Neutral
    case DeviceInsert(_, _) => if Evicts(ev, k.user, k.device, indexed) then Removes else Neutral
    case _ => Neutral
  }

  /** What an event means for the algorithms of one device. */
  function AlgorithmEffect(ev: Event, u: string, d: string, indexed: bool): Effect {
    match ev
    case AlgorithmInsert(v, did, _) => if v == u && did == d then Adds else Neutral
    case DropDeviceKeys(v, did) => if v == u && did == d then Removes else Neutral
    case DeviceDelete(v, did) => if v == u && did == d then Removes else Neutral
    case DeviceInsert(_, _) => if Evicts(ev, u, d, indexed) then Removes else Neutral
    case _ => Neutral
  }

  /** Whether the device is indexed before event i, by the events before it. */
  ghost predicate IndexedBefore(events: seq<Event>, i: nat, u: string, d: string)
    requires i <= |events|
  {
    AddedAndKept(Log(events[..i], u, d))
  }

  ghost function KeyLog(events: seq<Event>, k: KeyName): (log: seq<Effect>)
    ensures |log| == |events|
  {
    seq(|events|, i requires 0 <= i < |events| => KeyEffect(events[i], k, IndexedBefore(events, i, k.user, k.device)))
  }

  ghost function AlgorithmLog(events: seq<Event>, u: string, d: string): (log: seq<Effect>)
    ensures |log| == |events|
  {
    seq(|events|, i requires 0 <= i < |events| => AlgorithmEffect(events[i], u, d, IndexedBefore(events, i, u, d)))
  }

  /** The keys a purge takes are those whose device it names. */
  lemma PurgedKeys(s: Store, u: string, mac: string, dids: set<string>, k: KeyName)
    requires KeysAgree(s)
    ensures k in Purged(s, u, mac, dids).keys <==> k in s.keys && !(k.user == u && k.device in dids)
  {
    if k in s.keys && k.user == u && k.device in dids {
      assert (k.user, k.device, k) in s.deviceKeyList + s.oneTimeKeyList;
    }
  }

  lemma HandleHasKeyEffect(s: Store, ev: Event, k: KeyName)
    requires Agree(s)
    ensures (k in Handle(s, ev).keys) == Outcome(KeyEffect(ev, k, (k.user, k.device) in s.device), k in s.keys)
  {
    match ev
    case DeviceInsert(u, record) =>
      var mac := DeviceMac(record.did);
      SiblingsShareMac(s, u, mac);
      PurgedKeys(s, u, mac, Siblings(s, u, mac) - {record.did}, k);
    case DeviceDelete(u, did) => PurgedKeys(s, u, DeviceMac(did), {did}, k);
    case DropDeviceKeys(u, did) => DroppedKeys(s.(algorithm := s.algorithm - {(u, did)}), u, did, k);
    case DropOneTimeKeys(u, did) => DroppedKeys(s, u, did, k);
    case _ =>
  }

  lemma DroppedKeys(s: Store, u: string, did: string, k: KeyName)
    requires KeysAgree(s)
    ensures k in WithoutDeviceKeys(s, u, {did}).keys <==> k in s.keys && !(k.DeviceKey? && k.user == u && k.device == did)
    ensures k in WithoutOneTimeKeys(s, u, {did}).keys <==> k in s.keys && !(k.OneTimeKey? && k.user == u && k.device == did)
  {
    if k in s.keys && k.user == u && k.device == did {
      assert (u, did, k) in s.deviceKeyList + s.oneTimeKeyList;
    }
  }

  lemma HandleHasAlgorithmEffect(s: Store, ev: Event, u: string, d: string)
    requires Agree(s)
    ensures ((u, d) in Handle(s, ev).algorithm) ==
              Outcome(AlgorithmEffect(ev, u, d, (u, d) in s.device), (u, d) in s.algorithm)
  {
    if ev.DeviceInsert? {
      SiblingsShareMac(s, u, DeviceMac(ev.record.did));
    }
  }

  lemma KeyLogGrows(events: seq<Event>, n: nat, k: KeyName)
    requires |events| == n + 1
    ensures KeyLog(events, k)[..n] == KeyLog(events[..n], k)
  {
    assert forall i :: 0 <= i < n ==> events[..n][..i] == events[..i];
  }

  /** One more event does to the key what the log says of it. */
  lemma RunHasKeyEffect(events: seq<Event>, n: nat, k: KeyName)
    requires |events| == n + 1
    ensures (k in Run(EMPTY, events).keys) == Outcome(KeyLog(events, k)[n], k in Run(EMPTY, events[..n]).keys)
  {
    RunAgrees(events[..n]);
    IndexMatchesHistory(events[..n], k.user, k.device);
    HandleHasKeyEffect(Run(EMPTY, events[..n]), events[n], k);
  }

  lemma {:induction false} RunIsKeyReplay(events: seq<Event>, k: KeyName)
    ensures k in Run(EMPTY, events).keys <==> Present(KeyLog(events, k))
    decreases |events|
  {
    if events != [] {
      var n := |events| - 1;
      RunIsKeyReplay(events[..n], k);
      RunHasKeyEffect(events, n, k);
      KeyLogGrows(events, n, k);
    }
  }

  lemma AlgorithmLogGrows(events: seq<Event>, n: nat, u: string, d: string)
    requires |events| == n + 1
    ensures AlgorithmLog(events, u, d)[..n] == AlgorithmLog(events[..n], u, d)
  {
    assert forall i :: 0 <= i < n ==> events[..n][..i] == events[..i];
  }

  lemma RunHasAlgorithmEffect(events: seq<Event>, n: nat, u: string, d: string)
    requires |events| == n + 1
    ensures ((u, d) in Run(EMPTY, events).algorithm) ==
              Outcome(AlgorithmLog(events, u, d)[n], (u, d) in Run(EMPTY, events[..n]).algorithm)
  {
    RunAgrees(events[..n]);
    IndexMatchesHistory(events[..n], u, d);
    HandleHasAlgorithmEffect(Run(EMPTY, events[..n]), events[n], u, d);
  }

  lemma {:induction false} RunIsAlgorithmReplay(events: seq<Event>, u: string, d: string)
    ensures (u, d) in Run(EMPTY, events).algorithm <==> Present(AlgorithmLog(events, u, d))
    decreases |events|
  {
    if events != [] {
      var n := |events| - 1;
      RunIsAlgorithmReplay(events[..n], u, d);
      RunHasAlgorithmEffect(events, n, u, d);
      AlgorithmLogGrows(events, n, u, d);
    }
  }

  /**
   Over every run, a key has a record exactly when some insert of it is followed by no delete of it,
   no drop of its kind for its device, no delete of its device, and no insert of another device with
   the same mac at a moment when its own device is indexed.
   */
  lemma KeysMatchHistory(events: seq<Event>, k: KeyName)
    ensures k in Run(EMPTY, events).keys <==> AddedAndKept(KeyLog(events, k))
  {
    RunIsKeyReplay(events, k);
    PresentIff(KeyLog(events, k));
  }

  /** The same for the algorithms of a device, which go with its device keys. */
  lemma AlgorithmsMatchHistory(events: seq<Event>, u: string, d: string)
    ensures (u, d) in Run(EMPTY, events).algorithm <==> AddedAndKept(AlgorithmLog(events, u, d))
  {
    RunIsAlgorithmReplay(events, u, d);
    PresentIff(AlgorithmLog(events, u, d));
  }

  // ------------------------------------------------------------------
  // Values against their history
  // ------------------------------------------------------------------

  predicate SetsAlgorithm(ev: Event, u: string, d: string) {
    ev.AlgorithmInsert? && ev.user == u && ev.did == d
  }

  predicate SetsKey(ev: Event, k: KeyName) {
    ev.KeyInsert? && ev.name == k
  }

  predicate SetsDevice(ev: Event, u: string, d: string) {
    (ev.DeviceInsert? || ev.DeviceRecover?) && ev.user == u && ev.record.did == d
  }

  /** An event that writes a value writes the given one, and no other event changes a value that stays. */
  lemma HandleHasAlgorithmValue(s: Store, s': Store, ev: Event, u: string, d: string)
    requires s' == Handle(s, ev) && (u, d) in s'.algorithm
    ensures if SetsAlgorithm(ev, u, d) then s'.algorithm[(u, d)] == ev.algorithms
            else (u, d) in s.algorithm && s'.algorithm[(u, d)] == s.algorithm[(u, d)]
  {
  }

  lemma HandleHasKeyValue(s: Store, s': Store, ev: Event, k: KeyName)
    requires s' == Handle(s, ev) && k in s'.keys
    ensures if SetsKey(ev, k) then s'.keys[k] == ev.key else k in s.keys && s'.keys[k] == s.keys[k]
  {
  }

  lemma HandleHasDeviceValue(s: Store, s': Store, ev: Event, u: string, d: string)
    requires s' == Handle(s, ev) && (u, d) in s'.device
    ensures if SetsDevice(ev, u, d) then s'.device[(u, d)] == ev.record
            else (u, d) in s.device && s'.device[(u, d)] == s.device[(u, d)]
  {
  }

  /** Over every run, the algorithms of a device, if any, are those of the last insert of them. */
  lemma {:induction false} LastAlgorithms(events: seq<Event>, s: Store, u: string, d: string) returns (i: nat)
    requires s == Run(EMPTY, events) && (u, d) in s.algorithm
    ensures i < |events| && SetsAlgorithm(events[i], u, d) && s.algorithm[(u, d)] == events[i].algorithms
    ensures forall j :: i < j < |events| ==> !SetsAlgorithm(events[j], u, d)
    decreases |events|
  {
    var n := |events| - 1;
    var before := Run(EMPTY, events[..n]);
    HandleHasAlgorithmValue(before, s, events[n], u, d);
    if SetsAlgorithm(events[n], u, d) {
      i := n;
    } else {
      i := LastAlgorithms(events[..n], before, u, d);
      assert forall j :: 0 <= j < n ==> events[..n][j] == events[j];
    }
  }

  /** The record of a key, if any, is that of the last insert of it. */
  lemma {:induction false} LastKey(events: seq<Event>, s: Store, k: KeyName) returns (i: nat)
    requires s == Run(EMPTY, events) && k in s.keys
    ensures i < |events| && SetsKey(events[i], k) && s.keys[k] == events[i].key
    ensures forall j :: i < j < |events| ==> !SetsKey(events[j], k)
    decreases |events|
  {
    var n := |events| - 1;
    var before := Run(EMPTY, events[..n]);
    HandleHasKeyValue(before, s, events[n], k);
    if SetsKey(events[n], k) {
      i := n;
    } else {
      i := LastKey(events[..n], before, k);
      assert forall j :: 0 <= j < n ==> events[..n][j] == events[j];
    }
  }

  /** The record of a device, if any, is that of the last insert or recover of it. */
  lemma {:induction false} LastDevice(events: seq<Event>, s: Store, u: string, d: string) returns (i: nat)
    requires s == Run(EMPTY, events) && (u, d) in s.device
    ensures i < |events| && SetsDevice(events[i], u, d) && s.device[(u, d)] == events[i].record
    ensures forall j :: i < j < |events| ==> !SetsDevice(events[j], u, d)
    decreases |events|
  {
    var n := |events| - 1;
    var before := Run(EMPTY, events[..n]);
    HandleHasDeviceValue(before, s, events[n], u, d);
    if SetsDevice(events[n], u, d) {
      i := n;
    } else {
      i := LastDevice(events[..n], before, u, d);
      assert forall j :: 0 <= j < n ==> events[..n][j] == events[j];
    }
  }
}
