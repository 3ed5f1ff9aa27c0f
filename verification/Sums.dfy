/** Sums of natural numbers kept per identifier. */
module Sums {
  import opened Bytes

  function At<K, T>(m: map<K, T>, h: K, default: T): T {
    if h in m then m[h] else default
  }

  ghost function Sum<K>(m: map<K, nat>): nat
    decreases |m|
  {
    if m == map[] then 0
    else
      var h :| h in m;
      m[h] + Sum(m - {h})
  }

  lemma {:induction false} SumWithout<K>(m: map<K, nat>, h: K)
    requires h in m
    ensures Sum(m) == m[h] + Sum(m - {h})
    decreases |m|
  {
    var g :| g in m && Sum(m) == m[g] + Sum(m - {g});
    if g != h {
      SumWithout(m - {g}, h);
      SumWithout(m - {h}, g);
      assert (m - {g}) - {h} == (m - {h}) - {g};
    }
  }

  lemma SumUpdate<K>(m: map<K, nat>, h: K, v: nat)
    ensures Sum(m[h := v]) == Sum(m) - At(m, h, 0) + v
    ensures Sum(m - {h}) == Sum(m) - At(m, h, 0)
  {
    SumWithout(m[h := v], h);
    assert m[h := v] - {h} == m - {h};
    if h in m {
      SumWithout(m, h);
    } else {
      assert m - {h} == m;
    }
  }

  lemma SumLess<K>(before: map<K, nat>, after: map<K, nat>, k: K)
    requires before.Keys == after.Keys && k in before && after[k] < before[k]
    requires forall j :: j in before && j != k ==> after[j] == before[j]
    ensures Sum(after) < Sum(before)
  {
    assert after == before[k := after[k]];
    SumUpdate(before, k, after[k]);
  }

  lemma TimesSucc(n: nat, k: nat)
    ensures n * (k + 1) == n * k + n
  {
  }

  /** Raising every entry of ks by n raises the sum by n times their number. */
  lemma {:induction false} SumRaised<K>(m: map<K, nat>, raised: map<K, nat>, ks: set<K>, n: nat)
    requires ks <= m.Keys && raised.Keys == m.Keys
    requires forall k :: k in m ==> raised[k] == m[k] + if k in ks then n else 0
    ensures Sum(raised) == Sum(m) + n * |ks|
    decreases |ks|
  {
    if ks == {} {
      assert raised == m;
    } else {
      var k :| k in ks;
      var rest := ks - {k};
      SumRaised(m, raised[k := m[k]], rest, n);
      SumUpdate(raised, k, m[k]);
      TimesSucc(n, |rest|);
      assert |ks| == |rest| + 1;
    }
  }
}
