/**
 Which instance answers for a key (common/util.go): the uint32 arithmetic of IsRelatedRequest,
 IsRelatedSyncRequest and GetSyncInstance, with the FNV hash of the key as a number.
 */
module Sharding {
  import opened Arith

  const TWO32 := 0x1_0000_0000

  /** uint32 addition of one. */
  function Succ32(n: nat): nat {
    (n + 1) % TWO32
  }

  predicate IsRelatedRequest(h: nat, instance: nat, total: nat, multiWrite: bool)
    requires total >= 1
  {
    instance == h % total || (multiWrite && instance == Succ32(h) % total)
  }

  predicate IsRelatedSyncRequest(reqInstance: nat, curInstance: nat, total: nat, multiWrite: bool)
    requires total >= 1
  {
    reqInstance == curInstance || (multiWrite && Succ32(reqInstance) % total == curInstance)
  }

  function GetSyncInstance(h: nat, total: nat): nat
    requires total >= 1
  {
    h % total
  }

  function Accepting(h: nat, total: nat, multiWrite: bool): set<nat>
    requires total >= 1
  {
    set i: nat | i < total && IsRelatedRequest(h, i, total, multiWrite)
  }

  predicate Divides(d: nat, n: nat) {
    d > 0 && n % d == 0
  }

  lemma SuccMod(h: nat, total: nat)
    requires total >= 1
    ensures (h + 1) % total == if h % total + 1 == total then 0 else h % total + 1
  {
    var q, r := h / total, h % total;
    if r + 1 == total {
      assert h + 1 == (q + 1) * total + 0;
      DivModUnique(h + 1, total, q + 1, 0);
    } else {
      assert h + 1 == q * total + (r + 1);
      DivModUnique(h + 1, total, q, r + 1);
    }
  }

  lemma SmallMod(r: nat, total: nat)
    requires r < total
    ensures r % total == r
  {
  }

  /** The second instance of a multi-write. */
  lemma SecondInstance(h: nat, total: nat)
    requires h < TWO32 && 1 <= total
    ensures Succ32(h) % total ==
              if h == TWO32 - 1 || h % total + 1 == total then 0 else h % total + 1
  {
    if h == TWO32 - 1 {
      assert Succ32(h) == 0;
      SmallMod(0, total);
    } else {
      assert Succ32(h) == h + 1;
      SuccMod(h, total);
    }
  }

  /** Without multi-write exactly one instance accepts a key, for every hash. */
  lemma OneAccepts(h: nat, total: nat)
    requires 1 <= total < 0x1_0000_0000
    ensures Accepting(h, total, false) == {h % total}
  {
  }

  /**
   With multi-write exactly two do, on every hash and every number of instances, but for a single
   instance and for the largest hash where the number of instances divides 2^32 - 1.
   */
  lemma TwoAcceptIff(h: nat, total: nat)
    requires h < 0x1_0000_0000 && 1 <= total < 0x1_0000_0000
    ensures |Accepting(h, total, true)| == 2 <==>
              total >= 2 && !(h == 0xFFFF_FFFF && Divides(total, 0xFFFF_FFFF))
    ensures |Accepting(h, total, true)| != 2 ==> |Accepting(h, total, true)| == 1
  {
    var first, second := h % total, Succ32(h) % total;
    SecondInstance(h, total);
    AcceptingPair(h, total);
    assert |{first, second}| == if first == second then 1 else 2;
  }

  lemma AcceptingPair(h: nat, total: nat)
    requires 1 <= total
    ensures Accepting(h, total, true) == {h % total, Succ32(h) % total}
  {
  }

  ghost predicate PathsAgree(h: nat, total: nat, multiWrite: bool)
    requires 1 <= total < TWO32
  {
    forall i: nat :: i < total ==>
      (IsRelatedRequest(h, i, total, multiWrite) <==>
       IsRelatedSyncRequest(GetSyncInstance(h, total), i, total, multiWrite))
  }

  /**
   The direct test and the one through GetSyncInstance agree on every instance, except with
   multi-write at the largest hash, where they agree exactly when the total divides 2^32.
   */
  lemma PathsAgreeIff(h: nat, total: nat, multiWrite: bool)
    requires h < 0x1_0000_0000 && 1 <= total < 0x1_0000_0000
    ensures PathsAgree(h, total, multiWrite) <==>
              !multiWrite || h < 0xFFFF_FFFF || Divides(total, 0x1_0000_0000)
  {
    var r := h % total;
    SecondInstance(h, total);
    SyncSecond(r, total);
    if multiWrite && h == TWO32 - 1 {
      SuccMod(h, total);
      if r + 1 != total {
        assert IsRelatedSyncRequest(r, r + 1, total, true);
        assert !IsRelatedRequest(h, r + 1, total, true);
      }
    }
  }

  lemma SyncSecond(r: nat, total: nat)
    requires r < total < TWO32
    ensures Succ32(r) % total == if r + 1 == total then 0 else r + 1
  {
    assert Succ32(r) == r + 1;
    if r + 1 == total {
      DivModUnique(r + 1, total, 1, 0);
    } else {
      SmallMod(r + 1, total);
    }
  }
}
