/** `sum(d.values())`: the total of a dictionary, whatever its iteration order. */
module Totals {
  import opened Prelude
  import opened Ratios

  ghost function Total<K(!new)>(m: map<K, real>): real
    decreases |m|
  {
    if m == map[] then 0.0
    else
      var k :| k in m;
      assert |(m - {k}).Keys| < |m.Keys|;
      m[k] + Total(m - {k})
  }

  /** Any key may be taken out first: the total does not depend on the order. */
  lemma {:induction false} TotalRemove<K(!new)>(m: map<K, real>, k: K)
    requires k in m
    ensures Total(m) == m[k] + Total(m - {k})
    decreases |m|
  {
    var first :| first in m && Total(m) == m[first] + Total(m - {first});
    if first != k {
      assert |(m - {first}).Keys| < |m.Keys| && |(m - {k}).Keys| < |m.Keys|;
      TotalRemove(m - {first}, k);
      TotalRemove(m - {k}, first);
      assert m - {first} - {k} == m - {k} - {first};
    }
  }

  lemma TotalInsert<K(!new)>(m: map<K, real>, k: K, v: real)
    ensures Total(m[k := v]) == Total(m) - Get(m, k, 0.0) + v
  {
    TotalRemove(m[k := v], k);
    if k in m {
      TotalRemove(m, k);
      assert m[k := v] - {k} == m - {k};
    } else {
      assert m[k := v] - {k} == m;
    }
  }

  function Plus(a: real, b: real): real {
    a + b
  }

  /** A total commutes with every additive function. */
  lemma {:induction false} TotalMapped<K(!new)>(m: map<K, real>, n: map<K, real>, f: real -> real)
    requires f(0.0) == 0.0 && forall a, b {:trigger Plus(a, b)} :: f(Plus(a, b)) == f(a) + f(b)
    requires n.Keys == m.Keys && forall k :: k in m ==> n[k] == f(m[k])
    ensures Total(n) == f(Total(m))
    decreases |m|
  {
    if m == map[] {
      assert n == map[];
    } else {
      var k :| k in m;
      TotalRemove(m, k);
      TotalRemove(n, k);
      assert |(m - {k}).Keys| < |m.Keys|;
      TotalMapped(m - {k}, n - {k}, f);
      assert Total(m) == Plus(m[k], Total(m - {k}));
    }
  }

  function Scaling(c: real): (f: real -> real) {
    x => x * c
  }

  lemma ScalingIsAdditive(c: real)
    ensures Scaling(c)(0.0) == 0.0
    ensures forall a, b {:trigger Plus(a, b)} ::
              Scaling(c)(Plus(a, b)) == Scaling(c)(a) + Scaling(c)(b)
  {
    forall a, b ensures Plus(a, b) * c == a * c + b * c {
    }
  }

  /** Totals are linear. */
  lemma TotalScaled<K(!new)>(m: map<K, real>, n: map<K, real>, c: real)
    requires n.Keys == m.Keys && forall k :: k in m ==> n[k] == Scaling(c)(m[k])
    ensures Total(n) == Scaling(c)(Total(m))
  {
    ScalingIsAdditive(c);
    TotalMapped(m, n, Scaling(c));
  }

  function Over(d: real): (f: real -> real)
    requires d > 0.0
  {
    e => e / d
  }

  lemma OverIsScaling(d: real)
    requires d > 0.0
    ensures forall e: real {:trigger Over(d)(e)} :: Over(d)(e) == Scaling(1.0 / d)(e)
  {
    forall e: real ensures Over(d)(e) == Scaling(1.0 / d)(e) {
      QuotientIsProduct(e, d);
    }
  }

  lemma TotalOver<K(!new)>(m: map<K, real>, n: map<K, real>, d: real)
    requires d > 0.0
    requires n.Keys == m.Keys && forall k :: k in m ==> n[k] == Over(d)(m[k])
    ensures Total(n) == Over(d)(Total(m))
  {
    OverIsScaling(d);
    TotalScaled(m, n, 1.0 / d);
  }

  /** Every entry divided by `d`. */
  function Quotients<K>(m: map<K, real>, d: real): map<K, real>
    requires d > 0.0
  {
    map k | k in m :: m[k] / d
  }

  function ScaledValues<K>(m: map<K, real>, c: real): map<K, real> {
    map k | k in m :: m[k] * c
  }

  /** Dividing every entry divides the total. */
  lemma TotalQuotients<K(!new)>(m: map<K, real>, d: real)
    requires d > 0.0
    ensures Total(Quotients(m, d)) == Total(m) / d
  {
    assert forall k :: k in m ==> Quotients(m, d)[k] == Over(d)(m[k]);
    TotalOver(m, Quotients(m, d), d);
  }

  /** Dividing by `d` and then by the divided total is dividing by the total. */
  lemma Renormalized<K(!new)>(m: map<K, real>, d: real)
    requires d > 0.0 && Total(m) > 0.0
    ensures Total(m) / d > 0.0
    ensures Quotients(Quotients(m, d), Total(m) / d) == Quotients(m, Total(m))
    ensures ScaledValues(Quotients(m, d), 1.0 / (Total(m) / d)) == Quotients(m, Total(m))
  {
    var s := Total(m);
    QuotientSign(s, d);
    var t := s / d;
    var c := 1.0 / t;
    var n := Quotients(m, d);
    forall k | k in m
      ensures Quotients(n, t)[k] == Quotients(m, s)[k]
      ensures ScaledValues(n, c)[k] == Quotients(m, s)[k]
    {
      QuotientOfQuotients(m[k], s, d);
    }
    assert ScaledValues(n, c) == Quotients(m, s);
  }

  /** The loop that divides every entry. */
  method DivideValues<K(==)>(m: map<K, real>, d: real) returns (n: map<K, real>)
    requires d > 0.0
    ensures n == Quotients(m, d)
  {
    n := map[];
    var rest := m.Keys;
    while rest != {}
      invariant rest !! n.Keys && rest + n.Keys == m.Keys
      invariant forall k :: k in n ==> n[k] == m[k] / d
      decreases rest
    {
      var k := Pick(rest);
      n := n[k := m[k] / d];
      rest := rest - {k};
    }
  }

  /** Totals of non-negative entries bound every entry. */
  lemma {:induction false} TotalNonNegative<K(!new)>(m: map<K, real>)
    requires forall k :: k in m ==> m[k] >= 0.0
    ensures Total(m) >= 0.0
    ensures forall k :: k in m ==> m[k] <= Total(m)
    decreases |m|
  {
    forall k | k in m ensures 0.0 <= m[k] <= Total(m) {
      TotalRemove(m, k);
      assert |(m - {k}).Keys| < |m.Keys|;
      TotalNonNegative(m - {k});
    }
  }

  lemma TotalPositive<K(!new)>(m: map<K, real>)
    requires forall k :: k in m ==> m[k] > 0.0
    ensures m != map[] ==> Total(m) > 0.0
  {
    TotalNonNegative(m);
    if m != map[] {
      var k :| k in m;
      assert m[k] <= Total(m);
    }
  }

  /** Entries that are zero may be added to or left out of a total. */
  lemma {:induction false} TotalPadded<K(!new)>(m: map<K, real>, n: map<K, real>)
    requires m.Keys <= n.Keys
    requires forall k :: k in n ==> n[k] == Get(m, k, 0.0)
    ensures Total(n) == Total(m)
    decreases |n|
  {
    if n == map[] {
      assert m == map[];
    } else {
      var k :| k in n;
      TotalRemove(n, k);
      assert |(n - {k}).Keys| < |n.Keys|;
      if k in m {
        TotalRemove(m, k);
        TotalPadded(m - {k}, n - {k});
      } else {
        TotalPadded(m, n - {k});
      }
    }
  }

  /** `{k: c for k in keys}` */
  function ConstantMap<K>(keys: seq<K>, c: real): map<K, real> {
    map k | k in keys :: c
  }

  /** `{k: m.get(k, 0.0) for k in keys}` */
  function PadTo<K>(m: map<K, real>, keys: seq<K>): map<K, real> {
    map k | k in keys :: Get(m, k, 0.0)
  }

  ghost predicate Distinct<K>(keys: seq<K>) {
    forall i, j :: 0 <= i < j < |keys| ==> keys[i] != keys[j]
  }

  lemma {:induction false} TotalOfOnes<K(!new)>(keys: seq<K>)
    requires Distinct(keys)
    ensures Total(ConstantMap(keys, 1.0)) == |keys| as real
  {
    if keys != [] {
      var n := |keys| - 1;
      TotalOfOnes(keys[..n]);
      TotalInsert(ConstantMap(keys[..n], 1.0), keys[n], 1.0);
      assert ConstantMap(keys, 1.0) == ConstantMap(keys[..n], 1.0)[keys[n] := 1.0];
    } else {
      assert ConstantMap(keys, 1.0) == map[];
    }
  }

  /** An even split over distinct keys sums to one. */
  lemma TotalOfEvenSplit<K(!new)>(keys: seq<K>)
    requires Distinct(keys) && keys != []
    ensures Total(ConstantMap(keys, 1.0 / |keys| as real)) == 1.0
  {
    var n := |keys| as real;
    TotalOfOnes(keys);
    assert ConstantMap(keys, 1.0 / n) == Quotients(ConstantMap(keys, 1.0), n);
    TotalQuotients(ConstantMap(keys, 1.0), n);
    QuotientSign(n, n);
  }

  /** Padding to keys that cover the dictionary drops nothing. */
  lemma TotalOfPadding<K(!new)>(m: map<K, real>, keys: seq<K>)
    requires forall k :: k in m ==> k in keys
    ensures Total(PadTo(m, keys)) == Total(m)
  {
    TotalPadded(m, PadTo(m, keys));
  }

  /** The running sum over the dictionary, in any order. */
  method SumValues<K(!new, ==)>(m: map<K, real>) returns (s: real)
    ensures s == Total(m)
  {
    s := 0.0;
    var rest := m;
    while rest != map[]
      invariant s + Total(rest) == Total(m)
      decreases |rest|
    {
      var k :| k in rest;
      TotalRemove(rest, k);
      assert |(rest - {k}).Keys| < |rest.Keys|;
      s := s + rest[k];
      rest := rest - {k};
    }
  }
}
