/** Extensionality of maps, stated so that the keys can be treated one at a time. */
module Maps {

  predicate SameAt<K, V(==)>(x: map<K, V>, y: map<K, V>, k: K) {
    (k in x <==> k in y) && (k in x && k in y ==> x[k] == y[k])
  }

  lemma SameEverywhere<K(!new), V>(x: map<K, V>, y: map<K, V>)
    requires forall k :: SameAt(x, y, k)
    ensures x == y
  {
    forall k ensures k in x <==> k in y {
      assert SameAt(x, y, k);
    }
    assert x.Keys == y.Keys;
    forall k | k in x ensures x[k] == y[k] {
      assert SameAt(x, y, k);
    }
  }
}
