/**
 LocalCacheRepo (cache/local_cache.go) as it updates its maps in place.

 The slot-moving branch of `update` is modelled with the rest of it, for items at any
 Offset. No item ever gets there: `update` leaves an Offset of -1 at -1, `Put` creates
 items at -1, and so every method keeps `Valid()`, which says all Offsets are -1. What a
 method does to the wheel is then `TimingWheel.Touch` and `TimingWheel.Tick`.
 */
module LocalCache {
  import opened TimingWheel
  import opened Arith

  class CacheItem {
    const key: string
    const repo: int
    var val: string
    var offset: int
    var ref: CacheItem?

    constructor (key: string, val: string, repo: int)
      ensures this.key == key && this.repo == repo
      ensures this.val == val && offset == -1 && ref == null
    {
      this.key, this.val, this.repo := key, val, repo;
      offset, ref := -1, null;
    }
  }

  /** (n % cap) / step with Go's operators, which truncate toward zero. */
  function GoSlot(n: int, cap: nat, step: nat): int
    requires cap > 0 && step > 0
  {
    if n >= 0 then (n % cap) / step else -((-n % cap) / step)
  }

  function Stored(repos: seq<map<string, CacheItem>>, item: CacheItem): seq<map<string, CacheItem>>
    requires 0 <= item.repo < |repos|
  {
    if item.key in repos[item.repo] then repos
    else repos[item.repo := repos[item.repo][item.key := item]]
  }

  /** What `update` does to the slots of one repo, for an item whose Offset was `was`. */
  function Refiled(row: seq<set<string>>, key: string, was: int, target: nat, step: nat): seq<set<string>>
    requires |row| == BUCKETS && step > 0 && was >= -1
  {
    var filed := row[Slot(target, step) := row[Slot(target, step)] + {key}];
    if was == -1 then filed
    else if Slot(was, step) == Slot(target, step) then row
    else filed[Slot(was, step) := filed[Slot(was, step)] - {key}]
  }

  /** The key moves to the slot of its target, and no other key moves. An item that was never moved keeps its old entries. */
  lemma RefiledMoves(row: seq<set<string>>, key: string, was: int, target: nat, step: nat, t: nat, k: string)
    requires |row| == BUCKETS && step > 0 && was >= -1 && t < BUCKETS
    ensures var filed, slot := Refiled(row, key, was, target, step), (target / step) % 16;
            && |filed| == BUCKETS
            && (k != key ==> (k in filed[t] <==> k in row[t]))
            && (was == -1 ==> (key in filed[t] <==> t == slot || key in row[t]))
            && (was >= 0 && (was / step) % 16 == slot ==> filed == row)
            && (was >= 0 && (was / step) % 16 != slot ==> (key in filed[t] <==> t == slot || (t != (was / step) % 16 && key in row[t])))
  {
  }

  class LocalCacheRepo {
    var repos: seq<map<string, CacheItem>>
    var cap: nat
    var cnt: nat
    var duration: nat
    var cleanIdx: nat
    var cleanStep: nat
    var cleanCap: nat
    var cleanItems: seq<seq<set<string>>>
    ghost var items: set<CacheItem>

    ghost function Abs(): Wheel<CacheItem>
      reads this
    {
      Wheel(duration, cleanStep, cnt, cleanIdx, repos, cleanItems)
    }

    ghost predicate Sized()
      reads this
    {
      Shaped(Abs()) && |repos| == cap && cleanCap == BUCKETS * cleanStep
    }

    ghost predicate Tracks(item: CacheItem)
      reads this, item
    {
      item.offset == -1 && 0 <= item.repo < cap && (item.ref != null ==> item.ref in items)
    }

    ghost predicate Valid()
      reads this, items
    {
      && Sized()
      && Inv(Abs())
      && (forall r, k :: 0 <= r < |repos| && k in repos[r] ==>
            repos[r][k] in items && repos[r][k].key == k && repos[r][k].repo == r)
      && (forall item :: item in items ==> Tracks(item))
    }

    /** The state is `before` with the item touched, and then the item it is tied to, if any. */
    ghost predicate TouchedWithRef(before: Wheel<CacheItem>, item: CacheItem)
      requires Shaped(before)
      reads this, item, item.ref
    {
      && 0 <= item.repo < |before.repos|
      && var touched := Touch(before, item.repo, item.key, item);
         if item.ref == null then Abs() == touched
         else
           && Shaped(touched)
           && 0 <= item.ref.repo < |before.repos|
           && Abs() == Touch(touched, item.ref.repo, item.ref.key, item.ref)
    }

    /** Start: the requested duration is raised to 15, and 0 asks for the default of 300. */
    constructor (cap: nat, duration: int)
      requires cap <= BUCKETS
      ensures Valid() && items == {}
      ensures Abs() == Start(cap, if duration == 0 then 300 else if duration < 15 then 15 else duration)
    {
      var d: nat := 300;
      if duration != 0 {
        d := if duration < BUCKETS - 1 then BUCKETS - 1 else duration;
      }
      this.cap, this.duration, cnt := cap, d, 0;
      repos := seq(cap, i => map[]);
      cleanStep := d / (BUCKETS - 1);
      cleanCap := BUCKETS * (d / (BUCKETS - 1));
      cleanIdx := (BUCKETS - 1) * (d / (BUCKETS - 1));
      cleanItems := seq(cap, i => seq(BUCKETS, j => {}));
      items := {};
      new;
      StartInv<CacheItem>(cap, this.duration);
    }

    method StoreIfMissing(item: CacheItem)
      requires 0 <= item.repo < |repos|
      modifies this`repos
      ensures repos == Stored(old(repos), item)
    {
      var repo := repos[item.repo];
      if item.key !in repo {
        repos := repos[item.repo := repo[item.key := item]];
      }
    }

    method File(repo: nat, slot: nat, key: string)
      requires Sized() && repo < cap && slot < BUCKETS
      modifies this`cleanItems
      ensures Sized()
      ensures cleanItems == old(cleanItems)[repo := old(cleanItems)[repo][slot := old(cleanItems)[repo][slot] + {key}]]
    {
      var row := cleanItems[repo];
      cleanItems := cleanItems[repo := row[slot := row[slot] + {key}]];
    }

    method Unfile(repo: nat, slot: nat, key: string)
      requires Sized() && repo < cap && slot < BUCKETS
      modifies this`cleanItems
      ensures Sized()
      ensures cleanItems == old(cleanItems)[repo := old(cleanItems)[repo][slot := old(cleanItems)[repo][slot] - {key}]]
    {
      var row := cleanItems[repo];
      cleanItems := cleanItems[repo := row[slot := row[slot] - {key}]];
    }

    /** cleanItem.update, on an item at any Offset. */
    method Update(item: CacheItem, cur: nat, target: nat)
      requires Sized() && 0 <= item.repo < cap && item.offset >= -1
      modifies this`repos, this`cleanItems, item`offset
      ensures Sized()
      ensures item.offset == if old(item.offset) == -1 then -1 else target
      ensures repos == Stored(old(repos), item)
      ensures cleanItems == old(cleanItems)[item.repo :=
                Refiled(old(cleanItems)[item.repo], item.key, old(item.offset), target, cleanStep)]
    {
      var tgtSlot := GoSlot(target, cleanCap, cleanStep);
      assert tgtSlot == Slot(target, cleanStep);
      var was := item.offset;
      var oldSlot := GoSlot(was, cleanCap, cleanStep);
      assert was >= 0 ==> oldSlot == Slot(was, cleanStep);
      var curSlot := GoSlot(cur, cleanCap, cleanStep);
      StoreIfMissing(item);
      if oldSlot == tgtSlot && was != -1 {
        item.offset := target;
        return;
      }
      File(item.repo, tgtSlot, item.key);
      if was == -1 {
        return;
      }
      item.offset := target;
      if curSlot == oldSlot {
        StoreIfMissing(item);
        Unfile(item.repo, curSlot, item.key);
      } else {
        Unfile(item.repo, oldSlot, item.key);
      }
    }

    /** At Offset -1 an update is a Touch. */
    method UpdateFresh(item: CacheItem)
      requires Sized() && 0 <= item.repo < cap && item.offset == -1
      modifies this`repos, this`cleanItems, item`offset
      ensures Sized() && item.offset == -1
      ensures Abs() == Touch(old(Abs()), item.repo, item.key, item)
    {
      Update(item, cnt, cnt + duration);
    }

    method Hit(item: CacheItem)
      requires Valid() && item in items
      modifies this`repos, this`cleanItems, item`offset
      ensures Valid() && item.offset == -1
      ensures Abs() == Touch(old(Abs()), item.repo, item.key, item)
      ensures item.key in repos[item.repo]
    {
      var target := cnt + duration;
      TouchInv(Abs(), item.repo, item.key, item);
      if target != item.offset {
        UpdateFresh(item);
      }
    }

    /** Both the item and the item it is tied to, in that order. */
    method HitWithRef(item: CacheItem)
      requires Valid() && item in items
      modifies this`repos, this`cleanItems, items`offset
      ensures Valid()
      ensures TouchedWithRef(old(Abs()), item)
      ensures item.key in repos[item.repo]
      ensures item.ref != null ==> item.ref.key in repos[item.ref.repo]
    {
      var ref := item.ref;
      Hit(item);
      if ref != null {
        Hit(ref);
      }
    }

    /** The miss path of Put. */
    method PutNew(repoName: nat, key: string, val: string) returns (item: CacheItem)
      requires Valid() && repoName < cap && key !in repos[repoName]
      modifies this`repos, this`cleanItems, this`items
      ensures Valid() && fresh(item) && items == old(items) + {item}
      ensures item.val == val && item.key == key && item.repo == repoName && item.ref == null
      ensures Abs() == Touch(old(Abs()), repoName, key, item)
    {
      ghost var before := Abs();
      item := new CacheItem(key, val, repoName);
      TouchInv(before, repoName, key, item);
      PutFresh(item);
      items := items + {item};
    }

    /** Stores the item, and then files it as an update at Offset -1 does. */
    method PutFresh(item: CacheItem)
      requires Sized() && 0 <= item.repo < cap && item.offset == -1 && item.key !in repos[item.repo]
      modifies this`repos, this`cleanItems, item`offset
      ensures Sized() && item.offset == -1
      ensures Abs() == Touch(old(Abs()), item.repo, item.key, item)
    {
      StoreIfMissing(item);
      UpdateFresh(item);
    }

    /** Put: overwrites in place, or creates an item and files it. */
    method Put(repoName: int, key: string, val: string) returns (item: CacheItem?)
      requires Valid()
      modifies this`repos, this`cleanItems, this`items, items
      ensures Valid() && old(items) <= items && fresh(items - old(items))
      ensures repoName < 0 || repoName >= cap ==> item == null && Abs() == old(Abs()) && items == old(items)
      ensures 0 <= repoName < cap ==>
                && item != null && item in items && item.val == val && item.key == key && item.repo == repoName
                && (if key in old(repos)[repoName]
                    then item == old(repos)[repoName][key] && items == old(items)
                    else items == old(items) + {item} && item.ref == null)
                && TouchedWithRef(old(Abs()), item)
      ensures forall i :: i in old(items) ==> i.ref == old(i.ref) && (i == item || i.val == old(i.val))
    {
      if repoName < 0 || repoName >= cap {
        return null;
      }
      if key in repos[repoName] {
        item := repos[repoName][key];
        item.val := val;
        HitWithRef(item);
      } else {
        item := PutNew(repoName, key, val);
      }
    }

    /** Get: a hit files the item (and its ref) again and returns the stored value; a miss changes nothing. */
    method Get(repoName: int, key: string) returns (val: string, ok: bool)
      requires Valid()
      modifies this`repos, this`cleanItems, items`offset
      ensures Valid()
      ensures ok <==> 0 <= repoName < cap && key in old(repos)[repoName]
      ensures !ok ==> Abs() == old(Abs())
      ensures ok ==> var item := old(repos)[repoName][key];
                     && val == item.val
                     && key in repos[repoName]
                     && (item.ref != null ==> item.ref.key in repos[item.ref.repo])
                     && TouchedWithRef(old(Abs()), item)
    {
      if repoName < 0 || repoName >= cap {
        return "", false;
      }
      if key in repos[repoName] {
        var item := repos[repoName][key];
        HitWithRef(item);
        return item.val, true;
      }
      return "", false;
    }

    /** Tie: at most one level of reference, as the source insists. */
    method Tie(repoName: int, key: string, ref: CacheItem)
      requires Valid() && ref in items
      requires 0 <= repoName < cap ==> ref.ref == null
      modifies items`ref
      ensures Valid()
      ensures forall i :: i in items ==>
                i.ref == if 0 <= repoName < cap && key in repos[repoName] && i == repos[repoName][key]
                         then ref else old(i.ref)
    {
      if repoName < 0 || repoName >= cap {
        return;
      }
      if key in repos[repoName] {
        repos[repoName][key].ref := ref;
      }
    }

    /** Empties one slot of one repo, deleting each of its keys from the repo. */
    method Sweep(i: nat, slot: nat)
      requires Sized() && i < cap && slot < BUCKETS
      modifies this`repos, this`cleanItems
      ensures Sized()
      ensures repos == old(repos)[i := old(repos)[i] - old(cleanItems)[i][slot]]
      ensures cleanItems == old(cleanItems)[i := old(cleanItems)[i][slot := {}]]
    {
      ghost var bucket := cleanItems[i][slot];
      assert repos[i] - (bucket - bucket) == repos[i];
      while cleanItems[i][slot] != {}
        invariant Sized() && cleanItems[i][slot] <= bucket
        invariant |repos| == |old(repos)| && |cleanItems| == |old(cleanItems)|
        invariant repos[i] == old(repos)[i] - (bucket - cleanItems[i][slot])
        invariant cleanItems[i] == old(cleanItems)[i][slot := cleanItems[i][slot]]
        invariant forall j :: 0 <= j < cap && j != i ==> repos[j] == old(repos)[j] && cleanItems[j] == old(cleanItems)[j]
        decreases cleanItems[i][slot]
      {
        var key :| key in cleanItems[i][slot];
        ghost var left := cleanItems[i][slot];
        repos := repos[i := repos[i] - {key}];
        Unfile(i, slot, key);
        assert bucket - cleanItems[i][slot] == (bucket - left) + {key};
        assert repos[i] == old(repos)[i] - (bucket - cleanItems[i][slot]);
      }
      assert bucket - {} == bucket;
    }

    method SweepAll(slot: nat)
      requires Sized() && slot < BUCKETS
      modifies this`repos, this`cleanItems
      ensures Sized()
      ensures repos == SweptRepos(old(repos), old(cleanItems), slot)
      ensures cleanItems == SweptBuckets(old(cleanItems), slot)
    {
      for i := 0 to cap
        invariant Sized() && |repos| == |old(repos)| && |cleanItems| == |old(cleanItems)|
        invariant forall j :: 0 <= j < i ==>
                    repos[j] == old(repos)[j] - old(cleanItems)[j][slot] && cleanItems[j] == old(cleanItems)[j][slot := {}]
        invariant forall j :: i <= j < cap ==> repos[j] == old(repos)[j] && cleanItems[j] == old(cleanItems)[j]
      {
        Sweep(i, slot);
      }
    }

    /** One second of `clean`. */
    method TickOnce()
      requires Valid()
      modifies this`cnt, this`cleanIdx, this`repos, this`cleanItems
      ensures Valid() && Abs() == Tick(old(Abs()))
    {
      TickInv(Abs());
      cnt := cnt + 1;
      if cnt == cleanIdx {
        var slot := GoSlot(cnt, cleanCap, cleanStep);
        assert slot == Slot(cnt, cleanStep);
        SweepAll(slot);
        cleanIdx := cleanIdx + cleanStep;
      }
      assert Abs() == Tick(old(Abs()));
    }
  }
}
