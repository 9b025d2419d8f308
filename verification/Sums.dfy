/** Sums over the values of a map. */
module Sums {

  ghost function Sum<K>(m: map<K, nat>): nat
    decreases |m|
  {
    if m == map[] then 0
    else
      var key :| key in m;
      Smaller(m, key);
      m[key] + Sum(m - {key})
  }

  lemma Smaller<K>(m: map<K, nat>, key: K)
    requires key in m
    ensures |m - {key}| == |m| - 1
  {
    assert m.Keys == (m - {key}).Keys + {key};
  }

  /** Any key may be summed first. */
  lemma {:induction false} SumWithout<K>(m: map<K, nat>, key: K)
    requires key in m
    ensures Sum(m) == m[key] + Sum(m - {key})
    decreases |m|
  {
    var first :| first in m && Sum(m) == m[first] + Sum(m - {first});
    if first != key {
      Smaller(m, first);
      Smaller(m, key);
      SumWithout(m - {first}, key);
      SumWithout(m - {key}, first);
      assert m - {first} - {key} == m - {key} - {first};
    }
  }

  lemma SumSet<K>(m: map<K, nat>, key: K, value: nat)
    ensures Sum(m[key := value]) == Sum(m - {key}) + value
    ensures key in m ==> Sum(m[key := value]) + m[key] == Sum(m) + value
    ensures key !in m ==> Sum(m[key := value]) == Sum(m) + value
  {
    SumWithout(m[key := value], key);
    assert m[key := value] - {key} == m - {key};
    if key in m {
      SumWithout(m, key);
    } else {
      assert m - {key} == m;
    }
  }

  /** A map over fewer keys, with no greater values, has no greater sum. */
  lemma {:induction false} SumWithin<K>(a: map<K, nat>, b: map<K, nat>)
    requires a.Keys <= b.Keys && forall key :: key in a ==> a[key] <= b[key]
    ensures Sum(a) <= Sum(b)
    decreases |b|
  {
    if b != map[] {
      var key :| key in b;
      Smaller(b, key);
      SumWithout(b, key);
      SumWithin(a - {key}, b - {key});
      if key in a {
        SumWithout(a, key);
      } else {
        assert a - {key} == a;
      }
    }
  }

  /** The same amount more for each key is that much more for all. */
  lemma {:induction false} SumPlus<K>(a: map<K, nat>, b: map<K, nat>, each: nat)
    requires a.Keys == b.Keys && forall key :: key in a ==> b[key] == a[key] + each
    ensures Sum(b) == Sum(a) + Product(|a|, each)
    decreases |a|
  {
    if a == map[] {
      assert b == map[];
    } else {
      var key :| key in a;
      Smaller(a, key);
      SumWithout(a, key);
      SumWithout(b, key);
      SumPlus(a - {key}, b - {key}, each);
      OneMore(|a| - 1, each);
    }
  }

  function Product(n: nat, each: nat): nat {
    n * each
  }

  lemma OneMore(n: nat, each: nat)
    ensures Product(n + 1, each) == Product(n, each) + each
  {
  }
}
