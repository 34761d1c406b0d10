/** Sums over sequences, and over hashes whose iteration order is unspecified. */
module Sums {
  function Sum(xs: seq<real>): real {
    if xs == [] then 0.0 else Sum(xs[..|xs| - 1]) + xs[|xs| - 1]
  }

  /** The sum over all fields, whatever the order. */
  ghost function HashSum(m: map<string, real>): real
    decreases |m|
  {
    if m == map[] then 0.0
    else
      var f :| f in m;
      assert |m - {f}| < |m| by { assert f in m.Keys && (m - {f}).Keys == m.Keys - {f}; }
      HashSum(m - {f}) + m[f]
  }

  lemma {:induction false} HashSumWithout(m: map<string, real>, f: string)
    requires f in m
    ensures HashSum(m) == HashSum(m - {f}) + m[f]
    decreases |m|
  {
    var g :| g in m && HashSum(m) == HashSum(m - {g}) + m[g];
    if g != f {
      assert (m - {g}).Keys == m.Keys - {g} && (m - {f}).Keys == m.Keys - {f};
      HashSumWithout(m - {g}, f);
      HashSumWithout(m - {f}, g);
      assert m - {g} - {f} == m - {f} - {g};
    }
  }

  /** `order` lists the fields of `keys`, each once: one possible answer of HGETALL. */
  ghost predicate Enumerates(order: seq<string>, keys: set<string>) {
    && (forall f :: f in keys <==> f in order)
    && (forall i, j :: 0 <= i < j < |order| ==> order[i] != order[j])
  }

  ghost function Listed(m: map<string, real>, order: seq<string>): seq<real>
    requires forall f :: f in order ==> f in m
  {
    seq(|order|, i requires 0 <= i < |order| => m[order[i]])
  }

  lemma WithoutLast(order: seq<string>, keys: set<string>)
    requires Enumerates(order, keys) && order != []
    ensures Enumerates(order[..|order| - 1], keys - {order[|order| - 1]})
  {
    var n := |order| - 1;
    forall g ensures g in keys - {order[n]} <==> g in order[..n] {
      if g in keys {
        var i :| 0 <= i < |order| && order[i] == g;
      }
    }
  }

  lemma ListedInit(m: map<string, real>, order: seq<string>)
    requires order != [] && Enumerates(order, m.Keys)
    ensures var n := |order| - 1;
            && (forall f :: f in order[..n] ==> f in m - {order[n]})
            && Listed(m, order)[..n] == Listed(m - {order[n]}, order[..n])
            && Listed(m, order)[n] == m[order[n]]
  {
    WithoutLast(order, m.Keys);
    assert order[|order| - 1] in order;
  }

  /** Every iteration order gives the same total. */
  lemma {:induction false} SumOfAnyOrder(m: map<string, real>, order: seq<string>)
    requires Enumerates(order, m.Keys)
    ensures Sum(Listed(m, order)) == HashSum(m)
    decreases |order|
  {
    if order == [] {
      assert m == map[];
    } else {
      var n := |order| - 1;
      var f, rest := order[n], m - {order[n]};
      assert rest.Keys == m.Keys - {f};
      WithoutLast(order, m.Keys);
      SumOfAnyOrder(rest, order[..n]);
      assert f in order;
      HashSumWithout(m, f);
      ListedInit(m, order);
    }
  }
}
