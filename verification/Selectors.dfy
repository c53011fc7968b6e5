/**
 The priority selectors of the back end: `dispatch_selector` (src/backend/dispatch.sv) and `issue_queue_int_selector`
 (src/backend/issue_queue_int.sv). Each output lane takes the lowest request that the lanes before it left.
 */
module Selectors {
  /** The lowest set bit from i on; |b| if there is none. */
  function FirstTrue(b: seq<bool>, i: nat): (k: nat)
    requires i <= |b|
    ensures i <= k <= |b| && (k < |b| ==> b[k]) && forall j :: i <= j < k ==> !b[j]
    decreases |b| - i
  {
    if i == |b| || b[i] then i else FirstTrue(b, i + 1)
  }

  /** The requests that lane i still sees: those not taken by an earlier lane. */
  function Remaining(b: seq<bool>, i: nat): (r: seq<bool>)
    ensures |r| == |b|
  {
    if i == 0 then b else
      var r := Remaining(b, i - 1);
      var k := FirstTrue(r, 0);
      if k < |b| then r[k := false] else r
  }

  /** The request that lane i takes; |b| stands for an invalid selection. */
  function Sel(b: seq<bool>, i: nat): (k: nat)
    ensures k <= |b|
  {
    FirstTrue(Remaining(b, i), 0)
  }

  function CountTrue(b: seq<bool>): (n: nat)
    ensures n <= |b|
  {
    if b == [] then 0 else CountTrue(b[..|b| - 1]) + (if b[|b| - 1] then 1 else 0)
  }

  /** The counting loops of the free list and of the issue queue. */
  method CountBits(b: seq<bool>) returns (n: nat)
    ensures n == CountTrue(b)
  {
    n := 0;
    for i := 0 to |b|
      invariant n == CountTrue(b[..i])
    {
      assert b[..i + 1][..i] == b[..i];
      if b[i] {
        n := n + 1;
      }
    }
    assert b[..|b|] == b;
  }

  lemma {:induction false} CountMonotone(b: seq<bool>, i: nat, j: nat)
    requires i <= j <= |b|
    ensures CountTrue(b[..i]) <= CountTrue(b[..j])
    ensures i < j && b[i] ==> CountTrue(b[..i]) < CountTrue(b[..j])
  {
    if i < j {
      CountMonotone(b, i, j - 1);
      assert b[..j][..j - 1] == b[..j - 1];
    }
  }

  lemma CountWhole(b: seq<bool>, i: nat)
    requires i <= |b|
    ensures CountTrue(b[..i]) <= CountTrue(b)
  {
    CountMonotone(b, i, |b|);
    assert b[..|b|] == b;
  }

  /** Ranks have no gaps. */
  lemma {:induction false} RankWitness(b: seq<bool>, k: nat, i: nat) returns (j: nat)
    requires k <= |b| && CountTrue(b[..k]) > i
    ensures j < k && b[j] && CountTrue(b[..j]) == i
  {
    assert b[..k][..k - 1] == b[..k - 1];
    if b[k - 1] && CountTrue(b[..k - 1]) == i {
      j := k - 1;
    } else {
      j := RankWitness(b, k - 1, i);
    }
  }

  /** Two requests never have the same number of requests below them. */
  lemma RankInjective(b: seq<bool>, j: nat, k: nat)
    requires j < |b| && k < |b| && b[j] && b[k] && CountTrue(b[..j]) == CountTrue(b[..k])
    ensures j == k
  {
    if j < k {
      CountMonotone(b, j, k);
    } else if k < j {
      CountMonotone(b, k, j);
    }
  }

  /** Lane i sees exactly the requests with at least i requests below them, and takes the lowest of these. */
  lemma {:induction false} LaneSees(b: seq<bool>, i: nat)
    ensures forall j :: 0 <= j < |b| ==> (Remaining(b, i)[j] <==> b[j] && CountTrue(b[..j]) >= i)
    ensures Sel(b, i) < |b| ==> b[Sel(b, i)] && CountTrue(b[..Sel(b, i)]) == i
  {
    if i > 0 {
      var k := Sel(b, i - 1);
      LaneSees(b, i - 1);
      forall j | 0 <= j < |b|
        ensures Remaining(b, i)[j] <==> b[j] && CountTrue(b[..j]) >= i
      {
        if b[j] && CountTrue(b[..j]) == i - 1 {
          assert Remaining(b, i - 1)[j];
          RankInjective(b, j, k);
        }
      }
    }
    var k := Sel(b, i);
    if k < |b| && CountTrue(b[..k]) > i {
      var j := RankWitness(b, k, i);
    }
  }

  /** Lane i takes the request with exactly i requests below it: the lanes take distinct requests, in order. */
  lemma LaneTakesRank(b: seq<bool>, i: nat, j: nat)
    requires j < |b|
    ensures Sel(b, i) == j <==> b[j] && CountTrue(b[..j]) == i
  {
    LaneSees(b, i);
    if b[j] && CountTrue(b[..j]) == i {
      assert Remaining(b, i)[j];
      RankInjective(b, j, Sel(b, i));
    }
  }

  /** Lane i takes something exactly if there are more than i requests. */
  lemma LaneValid(b: seq<bool>, i: nat)
    ensures Sel(b, i) < |b| <==> i < CountTrue(b)
  {
    assert b[..|b|] == b;
    LaneSees(b, i);
    if i < CountTrue(b) {
      var j := RankWitness(b, |b|, i);
      LaneTakesRank(b, i, j);
    } else if Sel(b, i) < |b| {
      CountMonotone(b, Sel(b, i), |b|);
    }
  }

  /** The elements whose bit is set, in order. */
  function Filter<T>(us: seq<T>, b: seq<bool>): (r: seq<T>)
    requires |us| == |b|
  {
    if us == [] then [] else
      var n := |us| - 1;
      Filter(us[..n], b[..n]) + (if b[n] then [us[n]] else [])
  }

  lemma {:induction false} FilterByRank<T>(us: seq<T>, b: seq<bool>)
    requires |us| == |b|
    ensures |Filter(us, b)| == CountTrue(b)
    ensures forall j :: 0 <= j < |us| && b[j] ==>
              CountTrue(b[..j]) < CountTrue(b) && Filter(us, b)[CountTrue(b[..j])] == us[j]
  {
    if us != [] {
      var n := |us| - 1;
      FilterByRank(us[..n], b[..n]);
      forall j | 0 <= j < |us| && b[j]
        ensures CountTrue(b[..j]) < CountTrue(b) && Filter(us, b)[CountTrue(b[..j])] == us[j]
      {
        assert j < n ==> b[..n][..j] == b[..j];
      }
    }
  }

  /** What lane i of a selector forwards: the i-th element whose bit is set. */
  lemma LaneForwards<T>(us: seq<T>, b: seq<bool>, i: nat)
    requires |us| == |b|
    ensures |Filter(us, b)| == CountTrue(b)
    ensures Sel(b, i) < |us| <==> i < |Filter(us, b)|
    ensures Sel(b, i) < |us| ==> us[Sel(b, i)] == Filter(us, b)[i] && b[Sel(b, i)]
  {
    LaneValid(b, i);
    FilterByRank(us, b);
    if Sel(b, i) < |us| {
      LaneTakesRank(b, i, Sel(b, i));
    }
  }
}
