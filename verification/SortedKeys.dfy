/** Python's `sorted` on a set of keys, for any total order of the keys. */
module SortedKeys {
  import Lex

  ghost predicate TotalOrder<K(!new)>(leq: (K, K) -> bool) {
    && (forall a, b :: leq(a, b) || leq(b, a))
    && (forall a, b :: leq(a, b) && leq(b, a) ==> a == b)
    && (forall a, b, c :: leq(a, b) && leq(b, c) ==> leq(a, c))
  }

  lemma StringsOrdered()
    ensures TotalOrder(Lex.Leq)
  {
    forall a, b ensures Lex.Leq(a, b) || Lex.Leq(b, a) { Lex.Total(a, b); }
    forall a, b | Lex.Leq(a, b) && Lex.Leq(b, a) ensures a == b { Lex.Antisymmetric(a, b); }
    forall a, b, c | Lex.Leq(a, b) && Lex.Leq(b, c) ensures Lex.Leq(a, c) { Lex.Transitive(a, b, c); }
  }

  ghost predicate Ascending<K>(leq: (K, K) -> bool, ks: seq<K>) {
    forall i, j | 0 <= i < j < |ks| :: !leq(ks[j], ks[i])
  }

  ghost predicate SortedOf<K(!new)>(leq: (K, K) -> bool, ks: seq<K>, s: set<K>) {
    Ascending(leq, ks) && forall k :: k in ks <==> k in s
  }

  function Insert<K>(leq: (K, K) -> bool, ks: seq<K>, k: K): seq<K> {
    if ks == [] || leq(k, ks[0]) then [k] + ks else [ks[0]] + Insert(leq, ks[1..], k)
  }

  lemma {:induction false} InsertSorts<K(!new)>(leq: (K, K) -> bool, ks: seq<K>, s: set<K>, k: K)
    requires TotalOrder(leq) && SortedOf(leq, ks, s) && k !in s
    ensures SortedOf(leq, Insert(leq, ks, k), s + {k})
    decreases |ks|
  {
    if ks == [] {
    } else if leq(k, ks[0]) {
      forall j | 0 <= j < |ks| ensures !leq(ks[j], k) {
        assert ks[j] in ks;
        assert j > 0 ==> !leq(ks[j], ks[0]);
      }
    } else {
      var rest, t := ks[1..], s - {ks[0]};
      TailSorted(leq, ks, s);
      InsertSorts(leq, rest, t, k);
      var r := Insert(leq, rest, k);
      forall j | 0 <= j < |r| ensures !leq(r[j], ks[0]) {
        assert r[j] in r;
        if r[j] != k {
          var i :| 0 <= i < |rest| && rest[i] == r[j];
          assert rest[i] == ks[i + 1];
        }
      }
      assert t + {k} + {ks[0]} == s + {k};
    }
  }

  ghost function Sorted<K(!new)>(leq: (K, K) -> bool, s: set<K>): (ks: seq<K>)
    requires TotalOrder(leq)
    ensures SortedOf(leq, ks, s)
    decreases |s|
  {
    if s == {} then []
    else
      var k :| k in s;
      InsertSorts(leq, Sorted(leq, s - {k}), s - {k}, k);
      assert s - {k} + {k} == s;
      Insert(leq, Sorted(leq, s - {k}), k)
  }

  lemma FirstIsLeast<K(!new)>(leq: (K, K) -> bool, ks: seq<K>, s: set<K>, k: K)
    requires TotalOrder(leq) && SortedOf(leq, ks, s) && ks != [] && k in s
    ensures leq(ks[0], k)
  {
    var j :| 0 <= j < |ks| && ks[j] == k;
  }

  lemma TailSorted<K(!new)>(leq: (K, K) -> bool, ks: seq<K>, s: set<K>)
    requires TotalOrder(leq) && SortedOf(leq, ks, s) && ks != []
    ensures SortedOf(leq, ks[1..], s - {ks[0]})
  {
    forall j | 0 <= j < |ks| - 1 ensures ks[1..][j] != ks[0] {
      assert !leq(ks[j + 1], ks[0]);
    }
    assert forall x :: x in ks <==> x == ks[0] || x in ks[1..];
  }

  /** The sorted sequence of a set is unique. */
  lemma {:induction false} SortedUnique<K(!new)>(leq: (K, K) -> bool, ks: seq<K>, ls: seq<K>, s: set<K>)
    requires TotalOrder(leq) && SortedOf(leq, ks, s) && SortedOf(leq, ls, s)
    ensures ks == ls
    decreases |ks|
  {
    assert ls != [] ==> ls[0] in ls && ls[0] in ks;
    if ks != [] {
      assert ks[0] in ks;
      assert ls != [] && ls[0] in ls;
      FirstIsLeast(leq, ks, s, ls[0]);
      FirstIsLeast(leq, ls, s, ks[0]);
      TailSorted(leq, ks, s);
      TailSorted(leq, ls, s);
      SortedUnique(leq, ks[1..], ls[1..], s - {ks[0]});
      assert ks == [ks[0]] + ks[1..] && ls == [ls[0]] + ls[1..];
    }
  }

  method SortKeys<K(!new, ==)>(leq: (K, K) -> bool, s: set<K>) returns (ks: seq<K>)
    requires TotalOrder(leq)
    ensures ks == Sorted(leq, s)
  {
    ks := [];
    var rest := s;
    while rest != {}
      invariant rest <= s && SortedOf(leq, ks, s - rest)
      decreases |rest|
    {
      var k :| k in rest;
      InsertSorts(leq, ks, s - rest, k);
      assert s - (rest - {k}) == s - rest + {k};
      ks, rest := Insert(leq, ks, k), rest - {k};
    }
    assert s - rest == s;
    SortedUnique(leq, ks, Sorted(leq, s), s);
  }
}
