/** Facts about numbers, sets and orders that several modules use. */
module Arithmetic {
  lemma TimesIsMonotone(n: nat, a: int, b: int)
    requires a <= b
    ensures n * a <= n * b
  {
  }

  lemma DivisionIs(n: nat, t: int, q: int, r: nat)
    requires n >= 1 && t == n * q + r && r < n
    ensures t / n == q && t % n == r
  {
    var d := t / n - q;
    assert n * d == r - t % n;
    if d >= 1 { TimesIsMonotone(n, 1, d); } else if d <= -1 { TimesIsMonotone(n, d, -1); }
  }

  lemma QuotientIsMonotone(n: nat, a: int, b: int)
    requires n >= 1 && a <= b
    ensures a / n <= b / n
  {
    if a / n > b / n { TimesIsMonotone(n, b / n + 1, a / n); }
  }

  lemma SubsetIsSmaller<T>(a: set<T>, b: set<T>)
    requires a <= b
    ensures |a| <= |b|
  {
    assert b == a + (b - a);
  }

  function Below(n: nat): (s: set<nat>)
    ensures |s| == n && forall i: nat :: i in s <==> i < n
  {
    if n == 0 then {} else Below(n - 1) + {n - 1}
  }

  lemma {:induction false} DistinctCount(place: seq<nat>, k: nat)
    requires k <= |place| && forall i, j :: 0 <= i < j < |place| ==> place[i] != place[j]
    ensures |set i | 0 <= i < k :: place[i]| == k
  {
    if k > 0 {
      DistinctCount(place, k - 1);
      assert (set i | 0 <= i < k :: place[i]) == (set i | 0 <= i < k - 1 :: place[i]) + {place[k - 1]};
    }
  }

  /** n different numbers below n are all of them. */
  lemma {:induction false} DistinctFill(place: seq<nat>, n: nat, p: nat)
    requires |place| == n && (forall i :: 0 <= i < n ==> place[i] < n) && p < n
    requires forall i, j :: 0 <= i < j < n ==> place[i] != place[j]
    ensures p in place
  {
    if p !in place {
      var seen := set i | 0 <= i < n :: place[i];
      DistinctCount(place, n);
      assert seen <= Below(n) - {p};
      SubsetIsSmaller(seen, Below(n) - {p});
    }
  }
}
