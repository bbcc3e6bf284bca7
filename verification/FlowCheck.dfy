/**
 Whether a user has completed a registration flow (clientapi/routing/register.go): checkFlows
 sorts copies of both stage lists and walks them with two indices.
 */
module FlowCheck {

  /** Go's order on strings. */
  predicate Leq(a: string, b: string) {
    a == [] || (b != [] && (a[0] < b[0] || (a[0] == b[0] && Leq(a[1..], b[1..]))))
  }

  lemma {:induction false} LeqTotal(a: string, b: string)
    ensures Leq(a, b) || Leq(b, a)
  {
    if a != [] && b != [] && a[0] == b[0] {
      LeqTotal(a[1..], b[1..]);
    }
  }

  lemma {:induction false} LeqAntisymmetric(a: string, b: string)
    requires Leq(a, b) && Leq(b, a)
    ensures a == b
  {
    if a != [] {
      LeqAntisymmetric(a[1..], b[1..]);
      assert a == [a[0]] + a[1..] && b == [b[0]] + b[1..];
    }
  }

  lemma {:induction false} LeqTransitive(a: string, b: string, c: string)
    requires Leq(a, b) && Leq(b, c)
    ensures Leq(a, c)
  {
    if a != [] && a[0] == b[0] == c[0] {
      LeqTransitive(a[1..], b[1..], c[1..]);
    }
  }

  predicate Sorted(s: seq<string>) {
    forall i, j :: 0 <= i <= j < |s| ==> Leq(s[i], s[j])
  }

  /** Position i of s with x put in at k. */
  function InsertedAt(s: seq<string>, k: nat, x: string, i: nat): string
    requires k <= |s| && i <= |s|
  {
    if i < k then s[i] else if i == k then x else s[i - 1]
  }

  lemma InsertedInOrder(s: seq<string>, k: nat, x: string, i: nat, j: nat)
    requires Sorted(s) && k <= |s| && i <= j <= |s|
    requires forall i :: 0 <= i < k ==> Leq(s[i], x)
    requires k < |s| ==> Leq(x, s[k])
    ensures Leq(InsertedAt(s, k, x, i), InsertedAt(s, k, x, j))
  {
    if i == k && j > k {
      LeqTransitive(x, s[k], s[j - 1]);
    } else if i == j == k {
      LeqTotal(x, x);
    }
  }

  function Inserted(s: seq<string>, k: nat, x: string): seq<string>
    requires k <= |s|
  {
    seq(|s| + 1, i requires 0 <= i < |s| + 1 => InsertedAt(s, k, x, i))
  }

  lemma InsertedHolds(s: seq<string>, k: nat, x: string)
    requires k <= |s|
    ensures multiset(s[..k] + [x] + s[k..]) == multiset(s) + multiset{x}
  {
    assert s == s[..k] + s[k..];
  }

  lemma InsertedIsSorted(s: seq<string>, k: nat, x: string)
    requires Sorted(s) && k <= |s|
    requires forall i :: 0 <= i < k ==> Leq(s[i], x)
    requires k < |s| ==> Leq(x, s[k])
    ensures Sorted(s[..k] + [x] + s[k..])
    ensures multiset(s[..k] + [x] + s[k..]) == multiset(s) + multiset{x}
  {
    var r := Inserted(s, k, x);
    assert r == s[..k] + [x] + s[k..];
    forall i, j | 0 <= i <= j < |r|
      ensures Leq(r[i], r[j])
    {
      InsertedInOrder(s, k, x, i, j);
    }
    InsertedHolds(s, k, x);
  }

  method Insert(s: seq<string>, x: string) returns (r: seq<string>)
    requires Sorted(s)
    ensures Sorted(r) && multiset(r) == multiset(s) + multiset{x}
  {
    var k := 0;
    while k < |s| && Leq(s[k], x)
      invariant 0 <= k <= |s| && forall i :: 0 <= i < k ==> Leq(s[i], x)
    {
      k := k + 1;
    }
    if k < |s| {
      LeqTotal(s[k], x);
    }
    InsertedIsSorted(s, k, x);
    r := s[..k] + [x] + s[k..];
  }

  /** A sorted copy; the original is left alone. */
  method SortedCopy(s: seq<string>) returns (r: seq<string>)
    ensures Sorted(r) && multiset(r) == multiset(s)
  {
    r := [];
    for n := 0 to |s|
      invariant Sorted(r) && multiset(r) == multiset(s[..n])
    {
      assert s[..n + 1] == s[..n] + [s[n]];
      r := Insert(r, s[n]);
    }
    assert s[..|s|] == s;
  }

  predicate Covers(completed: seq<string>, required: seq<string>) {
    multiset(required) <= multiset(completed)
  }

  /** What comes before the first of a sorted list is not in it. */
  lemma BelowFirst(x: string, s: seq<string>)
    requires Sorted(s) && s != [] && Leq(x, s[0]) && x != s[0]
    ensures x !in s
  {
    forall i | 0 <= i < |s|
      ensures s[i] != x
    {
      if s[i] == x {
        LeqAntisymmetric(x, s[0]);
      }
    }
  }

  /** A completed stage that is not the next required one can be passed over. */
  lemma PassOver(c: seq<string>, r: seq<string>)
    requires Sorted(c) && Sorted(r) && c != [] && r != [] && c[0] != r[0]
    ensures Covers(c, r) <==> Covers(c[1..], r)
  {
    assert c == [c[0]] + c[1..];
    if Leq(c[0], r[0]) {
      BelowFirst(c[0], r);
      assert multiset(r)[c[0]] == 0;
    } else {
      LeqTotal(c[0], r[0]);
      BelowFirst(r[0], c);
      assert multiset(r)[r[0]] > 0 && multiset(c)[r[0]] == 0;
    }
  }

  /** A match can be struck from both lists. */
  lemma StrikeOut(c: seq<string>, r: seq<string>)
    requires c != [] && r != [] && c[0] == r[0]
    ensures Covers(c, r) <==> Covers(c[1..], r[1..])
  {
    var one := multiset{c[0]};
    var cs, rs := multiset(c[1..]), multiset(r[1..]);
    assert multiset(c) == one + cs by { assert c == [c[0]] + c[1..]; }
    assert multiset(r) == one + rs by { assert r == [r[0]] + r[1..]; }
    if one + rs <= one + cs {
      forall x
        ensures rs[x] <= cs[x]
      {
        assert (one + rs)[x] <= (one + cs)[x];
      }
    }
  }

  /** checkFlows: every required stage is among the completed ones, as often as it is required. */
  method CheckFlows(completedStages: seq<string>, requiredStages: seq<string>) returns (ok: bool)
    ensures ok <==> Covers(completedStages, requiredStages)
  {
    var completed := SortedCopy(completedStages);
    var required := SortedCopy(requiredStages);
    assert completed[0..] == completed && required[0..] == required;
    var i, j := 0, 0;
    while j < |required|
      invariant 0 <= i <= |completed| && 0 <= j <= |required|
      invariant Covers(completed, required) <==> Covers(completed[i..], required[j..])
      decreases |completed| - i
    {
      if i >= |completed| {
        assert required[j] in required[j..];
        return false;
      }
      assert completed[i..][1..] == completed[i + 1..] && required[j..][1..] == required[j + 1..];
      if completed[i] == required[j] {
        StrikeOut(completed[i..], required[j..]);
        j := j + 1;
      } else {
        PassOver(completed[i..], required[j..]);
      }
      i := i + 1;
    }
    return true;
  }

  /** checkFlowCompleted: some allowed flow is covered. */
  method CheckFlowCompleted(flow: seq<string>, allowedFlows: seq<seq<string>>) returns (ok: bool)
    ensures ok <==> exists k :: 0 <= k < |allowedFlows| && Covers(flow, allowedFlows[k])
  {
    for k := 0 to |allowedFlows|
      invariant forall m :: 0 <= m < k ==> !Covers(flow, allowedFlows[m])
    {
      var covered := CheckFlows(flow, allowedFlows[k]);
      if covered {
        return true;
      }
    }
    return false;
  }

  /** Hence the order of the stages does not matter, and completing more never undoes a flow. */
  lemma OrderFreeAndMonotone(c: seq<string>, c': seq<string>, r: seq<string>, r': seq<string>, extra: seq<string>)
    requires multiset(c) == multiset(c') && multiset(r) == multiset(r') && Covers(c, r)
    ensures Covers(c' + extra, r') && Covers(extra + c', r')
  {
    assert multiset(c' + extra) == multiset(c') + multiset(extra) == multiset(extra + c');
  }
}
