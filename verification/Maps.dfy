/** Sizes of maps and finite sets. */
module Maps {
  lemma {:induction false} SubsetSize<T>(a: set<T>, b: set<T>)
    requires a <= b
    ensures |a| <= |b|
  {
    if a != {} {
      var x :| x in a;
      SubsetSize(a - {x}, b - {x});
    }
  }

  lemma {:induction false} InjectionFits<K, V>(keys: set<K>, m: map<K, V>, values: set<V>)
    requires forall k <- keys :: k in m && m[k] in values
    requires forall k <- keys, l <- keys :: m[k] == m[l] ==> k == l
    ensures |keys| <= |values|
    decreases |keys|
  {
    if keys != {} {
      var k :| k in keys;
      InjectionFits(keys - {k}, m, values - {m[k]});
    }
  }

  function Times(n: nat, c: nat): nat {
    if n == 0 then 0 else c + Times(n - 1, c)
  }

  lemma {:induction false} TimesIsProduct(n: nat, c: nat)
    ensures Times(n, c) == n * c
    decreases n
  {
    if n > 0 {
      TimesIsProduct(n - 1, c);
      assert n * c == c + (n - 1) * c;
    }
  }

  ghost predicate HeldBy<K, T>(held: map<K, set<T>>, keys: set<K>, x: T) {
    exists k <- keys :: k in held && x in held[k]
  }

  ghost predicate AllSmall<K, T>(held: map<K, set<T>>, keys: set<K>, c: nat) {
    forall k <- keys :: k in held && |held[k]| <= c
  }

  lemma HeldByOthers<K, T>(held: map<K, set<T>>, keys: set<K>, k: K, x: T)
    requires HeldBy(held, keys, x) && (k in held ==> x !in held[k])
    ensures HeldBy(held, keys - {k}, x)
  {
    var j :| j in keys && j in held && x in held[j];
    assert j in keys - {k};
  }

  lemma SplitSize<T>(all: set<T>, part: set<T>)
    ensures |all| <= |all - part| + |part|
  {
    SubsetSize(all, (all - part) + part);
  }

  /** Elements that are spread over few small sets are few. */
  lemma {:induction false} SpreadFits<K, T>(held: map<K, set<T>>, keys: set<K>, all: set<T>, c: nat)
    requires AllSmall(held, keys, c) && forall x <- all :: HeldBy(held, keys, x)
    ensures |all| <= Times(|keys|, c)
    decreases |keys|
  {
    if keys == {} {
      assert all == {};
    } else {
      var k :| k in keys;
      forall x <- all - held[k] ensures HeldBy(held, keys - {k}, x) {
        HeldByOthers(held, keys, k, x);
      }
      SpreadFits(held, keys - {k}, all - held[k], c);
      SplitSize(all, held[k]);
    }
  }

  lemma SizeOfKeys<K, V>(m: map<K, V>)
    ensures |m.Keys| == |m|
  {
  }

  lemma SmallerMap<K, V>(m: map<K, V>, keys: set<K>)
    ensures |m - keys| <= |m|
  {
    SubsetSize((m - keys).Keys, m.Keys);
    SizeOfKeys(m);
    SizeOfKeys(m - keys);
  }

  lemma OneMore<K, V>(m: map<K, V>, k: K, v: V)
    requires k !in m
    ensures |m[k := v]| == |m| + 1
  {
    assert m[k := v].Keys == m.Keys + {k};
    SizeOfKeys(m);
    SizeOfKeys(m[k := v]);
  }

  lemma OneLess<K, V>(m: map<K, V>, k: K)
    requires k in m
    ensures |m - {k}| == |m| - 1
  {
    assert (m - {k}).Keys == m.Keys - {k};
    SizeOfKeys(m);
    SizeOfKeys(m - {k});
  }

  lemma SameSize<K, V>(m: map<K, V>, k: K, v: V)
    requires k in m
    ensures |m[k := v]| == |m|
  {
    assert m[k := v].Keys == m.Keys;
    SizeOfKeys(m);
    SizeOfKeys(m[k := v]);
  }

  lemma UpdatedTwice<K, V>(m: map<K, V>, k: K, v: V, w: V)
    ensures m[k := v][k := w] == m[k := w]
  {
  }
}
