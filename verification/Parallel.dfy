/**
 The keyed merge split by key into chunks that are merged by workers finishing in any order, and when
 that gives the rows of the one-pass merge.

 Chunks are cut by the raw cells of the key columns, the merge matches rows by normalized cells, and
 duplicate removal compares row hashes over the whole list in the one-pass merge but per chunk here.
*/
module Parallel {
  import Lex
  import opened DataFrame
  import opened Rows
  import opened SortedKeys

  const SEQUENTIAL_THRESHOLD := 10_000

  // ---- chunks ----

  type Chunk = (seq<Row>, seq<Row>)

  /** The rows whose raw key is in the group. */
  function InGroup(p: Plan, rs: seq<Row>, g: set<Key>): seq<Row> {
    if rs == [] then []
    else
      var n := |rs| - 1;
      InGroup(p, rs[..n], g) + if RawKey(p, rs[n]) in g then [rs[n]] else []
  }

  function RawKeys(p: Plan, rs: seq<Row>): set<Key> {
    set r | r in rs :: RawKey(p, r)
  }

  function ChunkOf(p: Plan, a: seq<Row>, b: seq<Row>, g: set<Key>): Chunk {
    (InGroup(p, a, g), InGroup(p, b, g))
  }

  function Union(groups: seq<set<Key>>): set<Key> {
    if groups == [] then {} else Union(groups[..|groups| - 1]) + groups[|groups| - 1]
  }

  /** The groups share no key and together hold exactly `keys`. */
  ghost predicate Partition(groups: seq<set<Key>>, keys: set<Key>) {
    Union(groups) == keys && forall i, j | 0 <= i < j < |groups| :: groups[i] !! groups[j]
  }

  lemma {:induction false} UnionHolds(groups: seq<set<Key>>, k: Key)
    ensures k in Union(groups) <==> exists i :: 0 <= i < |groups| && k in groups[i]
    decreases |groups|
  {
    if groups != [] {
      var n := |groups| - 1;
      UnionHolds(groups[..n], k);
      if k in Union(groups[..n]) {
        var i :| 0 <= i < n && k in groups[..n][i];
        assert k in groups[i];
      }
      forall i | 0 <= i < n && k in groups[i] ensures k in Union(groups[..n]) {
        assert k in groups[..n][i];
      }
    }
  }

  ghost predicate OnlyIn(groups: seq<set<Key>>, k: Key, i: nat) {
    i < |groups| && k in groups[i] && forall j | 0 <= j < |groups| && j != i :: k !in groups[j]
  }

  /** In a partition every key lies in exactly one group. */
  lemma ExactlyOneGroup(groups: seq<set<Key>>, keys: set<Key>, k: Key) returns (i: nat)
    requires Partition(groups, keys) && k in keys
    ensures OnlyIn(groups, k, i)
  {
    UnionHolds(groups, k);
    i :| 0 <= i < |groups| && k in groups[i];
    forall j | 0 <= j < |groups| && j != i ensures k !in groups[j] {
      assert if j < i then groups[j] !! groups[i] else groups[i] !! groups[j];
    }
  }

  ghost predicate Distinct(ks: seq<Key>) {
    forall i, j | 0 <= i < j < |ks| :: ks[i] != ks[j]
  }

  ghost predicate TextAscending(p: Plan, ks: seq<Key>, keyText: Key -> string) {
    forall i, j | 0 <= i < j < |ks| :: Lex.Leq(keyText(ks[i]), keyText(ks[j]))
  }

  /** Sorts keys by their text; keys with one text come in any order. */
  method SortByText(p: Plan, keys: set<Key>, keyText: Key -> string) returns (ks: seq<Key>)
    ensures Distinct(ks) && TextAscending(p, ks, keyText) && forall k :: k in ks <==> k in keys
  {
    ks := [];
    var rest := keys;
    while rest != {}
      invariant rest <= keys && Distinct(ks) && TextAscending(p, ks, keyText)
      invariant forall k :: k in ks <==> k in keys && k !in rest
      decreases |rest|
    {
      var k :| k in rest;
      var i := 0;
      while i < |ks| && Lex.Leq(keyText(ks[i]), keyText(k))
        invariant i <= |ks| && forall j | 0 <= j < i :: Lex.Leq(keyText(ks[j]), keyText(k))
      {
        i := i + 1;
      }
      InsertedInOrder(p, ks, i, k, keyText);
      ks, rest := ks[..i] + [k] + ks[i..], rest - {k};
    }
  }

  lemma InsertedInOrder(p: Plan, ks: seq<Key>, i: nat, k: Key, keyText: Key -> string)
    requires i <= |ks| && Distinct(ks) && TextAscending(p, ks, keyText) && k !in ks
    requires forall j | 0 <= j < i :: Lex.Leq(keyText(ks[j]), keyText(k))
    requires i < |ks| ==> !Lex.Leq(keyText(ks[i]), keyText(k))
    ensures var out := ks[..i] + [k] + ks[i..];
            Distinct(out) && TextAscending(p, out, keyText) && forall l :: l in out <==> l == k || l in ks
  {
    var out := ks[..i] + [k] + ks[i..];
    forall j | i <= j < |ks| ensures Lex.Leq(keyText(k), keyText(ks[j])) {
      Lex.Total(keyText(k), keyText(ks[i]));
      if j > i { Lex.Transitive(keyText(k), keyText(ks[i]), keyText(ks[j])); }
    }
    assert ks == ks[..i] + ks[i..];
  }

  function Elements(ks: seq<Key>): set<Key> {
    set k | k in ks
  }

  /** Every group is a full run of `n` keys, except that the last may be shorter. */
  ghost predicate Runs(groups: seq<set<Key>>, n: nat) {
    && (forall i | 0 <= i < |groups| :: 1 <= |groups[i]| <= n)
    && (forall i | 0 <= i < |groups| - 1 :: |groups[i]| == n)
  }

  ghost predicate AllRuns(groups: seq<set<Key>>, n: nat) {
    forall i | 0 <= i < |groups| :: |groups[i]| == n
  }

  /** Cuts the sorted keys into runs of `chunkSize`; a negative size cuts nothing. */
  method CutGroups(ks: seq<Key>, chunkSize: int) returns (groups: seq<set<Key>>)
    requires chunkSize != 0 && Distinct(ks)
    ensures chunkSize < 0 ==> groups == []
    ensures chunkSize > 0 ==> Partition(groups, Elements(ks)) && Runs(groups, chunkSize)
  {
    groups := [];
    if chunkSize < 0 {
      return;
    }
    var i := 0;
    while i < |ks|
      invariant i <= |ks| && Partition(groups, Elements(ks[..i]))
      invariant Runs(groups, chunkSize) && (i < |ks| ==> AllRuns(groups, chunkSize))
    {
      var next := if i + chunkSize < |ks| then i + chunkSize else |ks|;
      DistinctSize(ks[i..next]);
      OneGroupMore(groups, ks, i, next);
      groups, i := groups + [Elements(ks[i..next])], next;
    }
    assert ks[..|ks|] == ks;
  }

  lemma {:induction false} DistinctSize(ks: seq<Key>)
    requires Distinct(ks)
    ensures |Elements(ks)| == |ks|
    decreases |ks|
  {
    if ks != [] {
      var init, last := ks[..|ks| - 1], ks[|ks| - 1];
      DistinctSize(init);
      ElementsSnoc(init, last);
      assert ks == init + [last] && last !in init;
    }
  }

  lemma ElementsSnoc(ks: seq<Key>, k: Key)
    ensures Elements(ks + [k]) == Elements(ks) + {k}
  {
  }

  lemma OneGroupMore(groups: seq<set<Key>>, ks: seq<Key>, i: nat, next: nat)
    requires i < next <= |ks| && Distinct(ks) && Partition(groups, Elements(ks[..i]))
    ensures Partition(groups + [Elements(ks[i..next])], Elements(ks[..next]))
  {
    var g := Elements(ks[i..next]);
    assert (groups + [g])[..|groups|] == groups;
    assert ks[..next] == ks[..i] + ks[i..next];
    forall j | 0 <= j < |groups| ensures groups[j] !! g {
      forall k | k in groups[j] ensures k !in g {
        UnionHolds(groups, k);
        var x :| 0 <= x < i && ks[..i][x] == k;
        assert ks[x] == k;
      }
    }
    assert Elements(ks[..next]) == Elements(ks[..i]) + g;
  }

  method ComputeChunks(p: Plan, a: seq<Row>, b: seq<Row>, chunkSize: int, keyText: Key -> string)
    returns (chunks: seq<Chunk>, groups: seq<set<Key>>)
    requires chunkSize != 0
    ensures |chunks| == |groups| && forall i | 0 <= i < |groups| :: chunks[i] == ChunkOf(p, a, b, groups[i])
    ensures chunkSize > 0 ==> Partition(groups, RawKeys(p, a) + RawKeys(p, b))
    ensures chunkSize > 0 && a + b != [] ==> Runs(groups, chunkSize)
    ensures chunkSize < 0 ==> |groups| <= 1
  {
    var keys := RawKeys(p, a) + RawKeys(p, b);
    var ks := SortByText(p, keys, keyText);
    if ks == [] {
      assert keys == {};
      NoKeys(p, a, b);
      return [(a, b)], [keys];
    }
    var cut := CutGroups(ks, chunkSize);
    assert Elements(ks) == keys;
    groups, chunks := cut, [];
    for i := 0 to |cut|
      invariant |chunks| == i && forall j | 0 <= j < i :: chunks[j] == ChunkOf(p, a, b, cut[j])
    {
      var c := ChunkOf(p, a, b, cut[i]);
      NoChunkEmpty(p, a, b, cut, i);
      if c.0 != [] || c.1 != [] {
        chunks := chunks + [c];
      }
    }
  }

  lemma NoRows(p: Plan, rs: seq<Row>)
    ensures rs == [] <==> RawKeys(p, rs) == {}
  {
    if rs != [] {
      assert RawKey(p, rs[0]) in RawKeys(p, rs);
    }
  }

  /** Without rows there is one empty group. */
  lemma NoKeys(p: Plan, a: seq<Row>, b: seq<Row>)
    requires RawKeys(p, a) + RawKeys(p, b) == {}
    ensures a == [] && b == [] && ChunkOf(p, a, b, {}) == (a, b) && Partition([{}], {})
  {
    NoRows(p, a);
    NoRows(p, b);
    var groups: seq<set<Key>> := [{}];
    assert groups[..0] == [];
    assert Union(groups) == {};
  }

  lemma NoChunkEmpty(p: Plan, a: seq<Row>, b: seq<Row>, groups: seq<set<Key>>, i: nat)
    requires Partition(groups, RawKeys(p, a) + RawKeys(p, b)) && i < |groups| && groups[i] != {}
    ensures ChunkOf(p, a, b, groups[i]) != ([], [])
  {
    var k :| k in groups[i];
    UnionHolds(groups, k);
    var r :| (r in a || r in b) && RawKey(p, r) == k;
    InGroupHolds(p, a, groups[i], r);
    InGroupHolds(p, b, groups[i], r);
  }

  lemma {:induction false} InGroupHolds(p: Plan, rs: seq<Row>, g: set<Key>, r: Row)
    ensures r in InGroup(p, rs, g) <==> r in rs && RawKey(p, r) in g
    decreases |rs|
  {
    if rs != [] {
      var n := |rs| - 1;
      assert rs == rs[..n] + [rs[n]];
      InGroupHolds(p, rs[..n], g, r);
    }
  }

  lemma {:induction false} AllInGroup(p: Plan, rs: seq<Row>, g: set<Key>)
    requires forall r | r in rs :: RawKey(p, r) in g
    ensures InGroup(p, rs, g) == rs
    decreases |rs|
  {
    if rs != [] {
      AllInGroup(p, rs[..|rs| - 1], g);
    }
  }

  lemma {:induction false} InGroupAppends(p: Plan, x: seq<Row>, y: seq<Row>, g: set<Key>)
    ensures InGroup(p, x + y, g) == InGroup(p, x, g) + InGroup(p, y, g)
    decreases |y|
  {
    if y == [] {
      assert x + y == x;
    } else {
      var n := |y| - 1;
      var all := x + y;
      assert all[..|all| - 1] == x + y[..n] && all[|all| - 1] == y[n];
      InGroupAppends(p, x, y[..n], g);
    }
  }

  // ---- a chunk lists the rows the whole merge lists for its keys ----

  ghost predicate Normalized(p: Plan, rs: seq<Row>) {
    forall r | r in rs :: CompositeKey(p, r) == RawKey(p, r)
  }

  /** Every row has exactly these columns, the key columns among them, and its key cells are normalized. */
  ghost predicate Uniform(p: Plan, rs: seq<Row>, columns: set<Column>) {
    && Normalized(p, rs)
    && (forall r | r in rs :: r.Keys == columns)
    && (forall c | c in p.keyColumns :: c in columns)
  }

  /** A chunk's index is the whole index cut down to the chunk's keys. */
  lemma {:induction false} IndexInGroup(p: Plan, rs: seq<Row>, g: set<Key>, k: Key)
    requires Normalized(p, rs)
    ensures k in IndexOf(p, InGroup(p, rs, g)) <==> k in IndexOf(p, rs) && k in g
    ensures k in IndexOf(p, InGroup(p, rs, g)) ==> IndexOf(p, InGroup(p, rs, g))[k] == IndexOf(p, rs)[k]
    decreases |rs|
  {
    if rs != [] {
      var init, last := rs[..|rs| - 1], rs[|rs| - 1];
      assert rs == init + [last] && last in rs;
      NormalizedPrefix(p, init, last);
      IndexInGroup(p, init, g, k);
      IndexInGroupStep(p, init, last, g, k);
    }
  }

  lemma NormalizedPrefix(p: Plan, init: seq<Row>, last: Row)
    requires Normalized(p, init + [last])
    ensures Normalized(p, init) && CompositeKey(p, last) == RawKey(p, last)
  {
    assert last in init + [last];
    assert forall r | r in init :: r in init + [last];
  }

  lemma IndexInGroupStep(p: Plan, init: seq<Row>, last: Row, g: set<Key>, k: Key)
    requires CompositeKey(p, last) == RawKey(p, last)
    requires k in IndexOf(p, InGroup(p, init, g)) <==> k in IndexOf(p, init) && k in g
    requires k in IndexOf(p, InGroup(p, init, g)) ==> IndexOf(p, InGroup(p, init, g))[k] == IndexOf(p, init)[k]
    ensures var x, y := IndexOf(p, InGroup(p, init + [last], g)), IndexOf(p, init + [last]);
            (k in x <==> k in y && k in g) && (k in x && k in y ==> x[k] == y[k])
  {
    InGroupSnoc(p, init, last, g);
    IndexSnoc(p, init, last);
    if RawKey(p, last) in g {
      IndexSnoc(p, InGroup(p, init, g), last);
    }
  }

  lemma InGroupSnoc(p: Plan, init: seq<Row>, last: Row, g: set<Key>)
    ensures InGroup(p, init + [last], g) == if RawKey(p, last) in g then InGroup(p, init, g) + [last] else InGroup(p, init, g)
  {
    var rs := init + [last];
    assert rs[..|rs| - 1] == init && rs[|rs| - 1] == last;
  }

  lemma IndexSnoc(p: Plan, init: seq<Row>, last: Row)
    ensures IndexOf(p, init + [last]) ==
            var k := CompositeKey(p, last); if Null in k then IndexOf(p, init) else IndexOf(p, init)[k := last]
  {
    var rs := init + [last];
    assert rs[..|rs| - 1] == init && rs[|rs| - 1] == last;
  }

  lemma NullRowsSnoc(p: Plan, init: seq<Row>, last: Row)
    ensures NullRows(p, init + [last]) ==
            if Null in CompositeKey(p, last) then NullRows(p, init) + [last] else NullRows(p, init)
  {
    var rs := init + [last];
    assert rs[..|rs| - 1] == init && rs[|rs| - 1] == last;
  }

  lemma {:induction false} NullRowsInGroup(p: Plan, rs: seq<Row>, g: set<Key>)
    ensures NullRows(p, InGroup(p, rs, g)) == InGroup(p, NullRows(p, rs), g)
    decreases |rs|
  {
    if rs != [] {
      var n := |rs| - 1;
      var init, last := rs[..n], rs[n];
      NullRowsInGroup(p, init, g);
      assert rs == init + [last];
      InGroupSnoc(p, init, last, g);
      NullRowsSnoc(p, init, last);
      NullRowsSnoc(p, InGroup(p, init, g), last);
      InGroupSnoc(p, NullRows(p, init), last, g);
    }
  }

  function KeysInGroup(ks: seq<Key>, g: set<Key>): seq<Key> {
    if ks == [] then []
    else
      var n := |ks| - 1;
      KeysInGroup(ks[..n], g) + if ks[n] in g then [ks[n]] else []
  }

  lemma {:induction false} KeysInGroupSorted(leq: (Key, Key) -> bool, ks: seq<Key>, g: set<Key>)
    requires Ascending(leq, ks)
    ensures Ascending(leq, KeysInGroup(ks, g))
    ensures forall k :: k in KeysInGroup(ks, g) <==> k in ks && k in g
    decreases |ks|
  {
    if ks != [] {
      var n := |ks| - 1;
      assert ks == ks[..n] + [ks[n]];
      KeysInGroupSorted(leq, ks[..n], g);
      var kept := KeysInGroup(ks[..n], g);
      forall i | 0 <= i < |kept| ensures !leq(ks[n], kept[i]) {
        assert kept[i] in kept;
        var j :| 0 <= j < n && ks[..n][j] == kept[i];
        assert ks[j] == kept[i];
      }
    }
  }

  /** The merged row of a key has that key. */
  lemma MergedKey(p: Plan, a: seq<Row>, b: seq<Row>, columns: set<Column>, k: Key)
    requires Uniform(p, a, columns) && Uniform(p, b, columns)
    requires var x, y := IndexOf(p, a), IndexOf(p, b); k in x || k in y
    ensures RawKey(p, MergedAt(p, IndexOf(p, a), IndexOf(p, b), columns, k)) == k
  {
    var x, y := IndexOf(p, a), IndexOf(p, b);
    IndexHolds(p, a, k);
    IndexHolds(p, b, k);
    if k in x && k in y {
      var r := MergeRow(p, x[k], y[k], columns);
      forall i | 0 <= i < |p.keyColumns| ensures Cell(r, p.keyColumns[i]) == k[i] {
        var c := p.keyColumns[i];
        assert c in columns;
        assert RawKey(p, x[k])[i] == k[i] == RawKey(p, y[k])[i];
      }
    }
  }

  /** Where both sides hold a key, their columns are all the columns. */
  lemma MatchedColumns(p: Plan, a: seq<Row>, b: seq<Row>, columns: set<Column>, k: Key)
    requires Uniform(p, a, columns) && Uniform(p, b, columns) && k in IndexOf(p, a) && k in IndexOf(p, b)
    ensures ColumnsOf(a) + ColumnsOf(b) == columns
  {
    IndexHolds(p, a, k);
    IndexHolds(p, b, k);
    ColumnsUniform(p, a, columns, IndexOf(p, a)[k]);
    ColumnsUniform(p, b, columns, IndexOf(p, b)[k]);
  }

  lemma ColumnsUniform(p: Plan, rs: seq<Row>, columns: set<Column>, r: Row)
    requires Uniform(p, rs, columns) && r in rs
    ensures ColumnsOf(rs) == columns
  {
    assert r.Keys == columns;
  }

  lemma InGroupUniform(p: Plan, rs: seq<Row>, columns: set<Column>, g: set<Key>)
    requires Uniform(p, rs, columns)
    ensures Uniform(p, InGroup(p, rs, g), columns)
  {
    forall r | r in InGroup(p, rs, g) ensures r in rs {
      InGroupHolds(p, rs, g, r);
    }
  }

  /** Within a chunk, a key is merged as in the whole. */
  lemma MergedInGroup(p: Plan, a: seq<Row>, b: seq<Row>, columns: set<Column>, g: set<Key>, k: Key)
    requires Uniform(p, a, columns) && Uniform(p, b, columns) && k in g
    requires k in IndexOf(p, a) || k in IndexOf(p, b)
    ensures var c := ChunkOf(p, a, b, g);
            var x, y := IndexOf(p, c.0), IndexOf(p, c.1);
            (k in x || k in y)
            && MergedAt(p, x, y, ColumnsOf(c.0) + ColumnsOf(c.1), k) == MergedAt(p, IndexOf(p, a), IndexOf(p, b), ColumnsOf(a) + ColumnsOf(b), k)
  {
    var c := ChunkOf(p, a, b, g);
    IndexInGroup(p, a, g, k);
    IndexInGroup(p, b, g, k);
    if k in IndexOf(p, a) && k in IndexOf(p, b) {
      InGroupUniform(p, a, columns, g);
      InGroupUniform(p, b, columns, g);
      MatchedColumns(p, a, b, columns, k);
      MatchedColumns(p, c.0, c.1, columns, k);
    }
  }

  /** Merging the chunk's keys in order gives the rows of the whole merge that fall in the chunk. */
  lemma {:induction false} MergedRowsInGroup(p: Plan, a: seq<Row>, b: seq<Row>, columns: set<Column>, g: set<Key>, ks: seq<Key>)
    requires Uniform(p, a, columns) && Uniform(p, b, columns) && Covers(IndexOf(p, a), IndexOf(p, b), ks)
    ensures var c := ChunkOf(p, a, b, g);
            var x, y := IndexOf(p, c.0), IndexOf(p, c.1);
            Covers(x, y, KeysInGroup(ks, g))
            && MergedRows(p, x, y, ColumnsOf(c.0) + ColumnsOf(c.1), KeysInGroup(ks, g))
               == InGroup(p, MergedRows(p, IndexOf(p, a), IndexOf(p, b), ColumnsOf(a) + ColumnsOf(b), ks), g)
    decreases |ks|
  {
    if ks != [] {
      var n := |ks| - 1;
      var k := ks[n];
      var whole := ColumnsOf(a) + ColumnsOf(b);
      MergedRowsInGroup(p, a, b, columns, g, ks[..n]);
      var last := MergedAt(p, IndexOf(p, a), IndexOf(p, b), whole, k);
      MergedKeyWhole(p, a, b, columns, k);
      InGroupSnoc(p, MergedRows(p, IndexOf(p, a), IndexOf(p, b), whole, ks[..n]), last, g);
      if k in g {
        MergedInGroup(p, a, b, columns, g, k);
        var kept := KeysInGroup(ks, g);
        assert kept[..|kept| - 1] == KeysInGroup(ks[..n], g) && kept[|kept| - 1] == k;
      } else {
        assert KeysInGroup(ks, g) == KeysInGroup(ks[..n], g);
      }
    }
  }

  lemma MergedKeyWhole(p: Plan, a: seq<Row>, b: seq<Row>, columns: set<Column>, k: Key)
    requires Uniform(p, a, columns) && Uniform(p, b, columns)
    requires k in IndexOf(p, a) || k in IndexOf(p, b)
    ensures RawKey(p, MergedAt(p, IndexOf(p, a), IndexOf(p, b), ColumnsOf(a) + ColumnsOf(b), k)) == k
  {
    MergedKey(p, a, b, columns, k);
    if k in IndexOf(p, a) && k in IndexOf(p, b) {
      MatchedColumns(p, a, b, columns, k);
    }
  }

  /** The rows a chunk lists are those the whole lists with keys in the chunk, in the same order. */
  lemma ChunkLists(p: Plan, a: seq<Row>, b: seq<Row>, columns: set<Column>, g: set<Key>)
    requires WellOrdered(p) && Uniform(p, a, columns) && Uniform(p, b, columns)
    ensures Listed(p, InGroup(p, a, g), InGroup(p, b, g)) == InGroup(p, Listed(p, a, b), g)
  {
    var x, y := IndexOf(p, a), IndexOf(p, b);
    var u, v := IndexOf(p, InGroup(p, a, g)), IndexOf(p, InGroup(p, b, g));
    var ks := SortedKeysOf(p, x, y);
    MergedRowsInGroup(p, a, b, columns, g, ks);
    KeysInGroupSorted(p.leq, ks, g);
    forall k ensures k in u.Keys + v.Keys <==> k in KeysInGroup(ks, g) {
      IndexInGroup(p, a, g, k);
      IndexInGroup(p, b, g, k);
    }
    SortedUnique(p.leq, KeysInGroup(ks, g), SortedKeysOf(p, u, v), u.Keys + v.Keys);
    NullRowsInGroup(p, a, g);
    NullRowsInGroup(p, b, g);
    var rows, nulls := ByKey(p, x, y, ColumnsOf(a) + ColumnsOf(b)), NullRows(p, a) + NullRows(p, b);
    InGroupAppends(p, NullRows(p, a), NullRows(p, b), g);
    InGroupAppends(p, rows, nulls, g);
  }

  /** The key that a listed row is owed to is its own. */
  lemma OwedToOwnKey(p: Plan, a: seq<Row>, b: seq<Row>, columns: set<Column>, k: Key, r: Row)
    requires WellOrdered(p) && Uniform(p, a, columns) && Uniform(p, b, columns) && OwedAt(p, a, b, k, r)
    ensures r in Listed(p, a, b) && RawKey(p, r) == k
  {
    OwedIsListed(p, a, b, k, r);
    if Null !in k {
      MergedKeyWhole(p, a, b, columns, k);
    }
  }

  /** Every listed row's key is the key of a given row. */
  lemma ListedKeyed(p: Plan, a: seq<Row>, b: seq<Row>, columns: set<Column>, r: Row)
    requires WellOrdered(p) && Uniform(p, a, columns) && Uniform(p, b, columns) && r in Listed(p, a, b)
    ensures RawKey(p, r) in RawKeys(p, a) + RawKeys(p, b)
  {
    var k := ListedIsOwed(p, a, b, r);
    OwedToOwnKey(p, a, b, columns, k, r);
    IndexHolds(p, a, k);
    IndexHolds(p, b, k);
  }

  // ---- duplicate removal per chunk ----

  /** No row of the group shares its hash with a row outside it. */
  ghost predicate KeepsHashes(p: Plan, rs: seq<Row>, g: set<Key>) {
    forall r, s | r in rs && s in rs && RawKey(p, r) in g && RawKey(p, s) !in g :: p.hash(r) != p.hash(s)
  }

  lemma {:induction false} DedupInGroup(p: Plan, rs: seq<Row>, g: set<Key>)
    requires KeepsHashes(p, rs, g)
    ensures Dedup(p.hash, InGroup(p, rs, g)) == InGroup(p, Dedup(p.hash, rs), g)
    decreases |rs|
  {
    if rs != [] {
      var init, last := rs[..|rs| - 1], rs[|rs| - 1];
      assert rs == init + [last];
      assert forall r | r in init :: r in rs;
      DedupInGroup(p, init, g);
      SeenInGroup(p, init, last, g);
      InGroupSnoc(p, init, last, g);
      InGroupSnoc(p, Dedup(p.hash, init), last, g);
      DedupSnoc(p.hash, init, last);
      DedupSnoc(p.hash, InGroup(p, init, g), last);
    }
  }

  lemma DedupSnoc(hash: Row -> string, init: seq<Row>, last: Row)
    ensures Dedup(hash, init + [last]) == if Seen(hash, init, hash(last)) then Dedup(hash, init) else Dedup(hash, init) + [last]
  {
    var rs := init + [last];
    assert rs[..|rs| - 1] == init && rs[|rs| - 1] == last;
  }

  lemma SeenInGroup(p: Plan, init: seq<Row>, last: Row, g: set<Key>)
    requires KeepsHashes(p, init + [last], g)
    ensures RawKey(p, last) in g ==> (Seen(p.hash, InGroup(p, init, g), p.hash(last)) <==> Seen(p.hash, init, p.hash(last)))
  {
    assert last in init + [last];
    forall r | r in init ensures r in init + [last] && (r in InGroup(p, init, g) <==> RawKey(p, r) in g) {
      InGroupHolds(p, init, g, r);
    }
    forall r | r in InGroup(p, init, g) ensures r in init {
      InGroupHolds(p, init, g, r);
    }
  }

  // ---- all chunks together ----

  /** What one worker returns. */
  ghost function ShareOf(p: Plan, c: Chunk): seq<Row>
    requires WellOrdered(p)
  {
    SequentialRows(p, c.0, c.1)
  }

  ghost function Shares(p: Plan, a: seq<Row>, b: seq<Row>, groups: seq<set<Key>>): (shares: seq<seq<Row>>)
    requires WellOrdered(p)
    ensures |shares| == |groups|
  {
    seq(|groups|, i requires 0 <= i < |groups| => ShareOf(p, ChunkOf(p, a, b, groups[i])))
  }

  ghost function Total(shares: seq<seq<Row>>): multiset<Row> {
    if shares == [] then multiset{} else Total(shares[..|shares| - 1]) + multiset(shares[|shares| - 1])
  }

  /** What the workers return between them, however they finish. */
  ghost function Gathered(p: Plan, a: seq<Row>, b: seq<Row>, groups: seq<set<Key>>): multiset<Row>
    requires WellOrdered(p)
  {
    Total(Shares(p, a, b, groups))
  }

  /** Rows owed to keys of different groups have one hash. */
  ghost predicate HashCrosses(p: Plan, a: seq<Row>, b: seq<Row>, groups: seq<set<Key>>) {
    exists k, l, i, j :: Crossing(p, a, b, groups, k, l, i, j)
  }

  ghost predicate Crossing(p: Plan, a: seq<Row>, b: seq<Row>, groups: seq<set<Key>>, k: Key, l: Key, i: int, j: int) {
    && 0 <= i < |groups| && 0 <= j < |groups| && i != j && k in groups[i] && l in groups[j]
    && KeysCollide(p, a, b, k, l)
  }

  ghost predicate KeysCollide(p: Plan, a: seq<Row>, b: seq<Row>, k: Key, l: Key) {
    exists r, s :: OwedAt(p, a, b, k, r) && OwedAt(p, a, b, l, s) && p.hash(r) == p.hash(s)
  }

  lemma {:induction false} InUnion(p: Plan, rs: seq<Row>, g: set<Key>, h: set<Key>)
    requires g !! h
    ensures multiset(InGroup(p, rs, g + h)) == multiset(InGroup(p, rs, g)) + multiset(InGroup(p, rs, h))
    decreases |rs|
  {
    if rs != [] {
      InUnion(p, rs[..|rs| - 1], g, h);
    }
  }

  /** A group that shares no hash with the others returns its part of the whole result. */
  lemma ShareIsPart(p: Plan, a: seq<Row>, b: seq<Row>, columns: set<Column>, groups: seq<set<Key>>, i: nat)
    requires WellOrdered(p) && Uniform(p, a, columns) && Uniform(p, b, columns) && i < |groups|
    requires Partition(groups, RawKeys(p, a) + RawKeys(p, b)) && !HashCrosses(p, a, b, groups)
    ensures ShareOf(p, ChunkOf(p, a, b, groups[i])) == InGroup(p, SequentialRows(p, a, b), groups[i])
  {
    GroupKeepsHashes(p, a, b, columns, groups, i);
    ChunkLists(p, a, b, columns, groups[i]);
    DedupInGroup(p, Listed(p, a, b), groups[i]);
  }

  lemma UnionApart(groups: seq<set<Key>>, keys: set<Key>, n: nat)
    requires Partition(groups, keys) && n < |groups|
    ensures Union(groups[..n]) !! groups[n] && Union(groups[..n + 1]) == Union(groups[..n]) + groups[n]
  {
    forall k | k in Union(groups[..n]) ensures k !in groups[n] {
      UnionHolds(groups[..n], k);
      var i :| 0 <= i < n && k in groups[..n][i];
      assert groups[i] !! groups[n];
    }
    assert groups[..n + 1][..n] == groups[..n];
  }

  /** The groups' parts of a list add up to the part of it whose keys are in some group. */
  lemma {:induction false} PartsAddUp(p: Plan, rs: seq<Row>, groups: seq<set<Key>>, keys: set<Key>, parts: seq<seq<Row>>, n: nat)
    requires Partition(groups, keys) && n <= |groups| == |parts|
    requires forall i | 0 <= i < n :: parts[i] == InGroup(p, rs, groups[i])
    ensures Total(parts[..n]) == multiset(InGroup(p, rs, Union(groups[..n])))
  {
    if n == 0 {
      NothingInGroup(p, rs);
    } else {
      PartsAddUp(p, rs, groups, keys, parts, n - 1);
      UnionApart(groups, keys, n - 1);
      InUnion(p, rs, Union(groups[..n - 1]), groups[n - 1]);
      assert parts[..n][..n - 1] == parts[..n - 1];
    }
  }

  lemma {:induction false} NothingInGroup(p: Plan, rs: seq<Row>)
    ensures InGroup(p, rs, {}) == []
    decreases |rs|
  {
    if rs != [] { NothingInGroup(p, rs[..|rs| - 1]); }
  }

  lemma GroupKeepsHashes(p: Plan, a: seq<Row>, b: seq<Row>, columns: set<Column>, groups: seq<set<Key>>, i: nat)
    requires WellOrdered(p) && Uniform(p, a, columns) && Uniform(p, b, columns) && i < |groups|
    requires Partition(groups, RawKeys(p, a) + RawKeys(p, b)) && !HashCrosses(p, a, b, groups)
    ensures KeepsHashes(p, Listed(p, a, b), groups[i])
  {
    var all := Listed(p, a, b);
    forall r, s | r in all && s in all && RawKey(p, r) in groups[i] && RawKey(p, s) !in groups[i]
      ensures p.hash(r) != p.hash(s)
    {
      ListedKeyed(p, a, b, columns, s);
      var j := ExactlyOneGroup(groups, RawKeys(p, a) + RawKeys(p, b), RawKey(p, s));
      var k := ListedIsOwed(p, a, b, r);
      var l := ListedIsOwed(p, a, b, s);
      OwedToOwnKey(p, a, b, columns, k, r);
      OwedToOwnKey(p, a, b, columns, l, s);
      assert p.hash(r) == p.hash(s) ==> Crossing(p, a, b, groups, k, l, i, j);
    }
  }

  lemma {:induction false} TotalHolds(shares: seq<seq<Row>>, i: nat, r: Row)
    requires i < |shares| && r in shares[i]
    ensures r in Total(shares)
    decreases |shares|
  {
    var n := |shares| - 1;
    if i < n {
      TotalHolds(shares[..n], i, r);
    }
  }

  /** A row of the chunk's output carrying the hash of a listed row of the chunk. */
  lemma Representative(p: Plan, a: seq<Row>, b: seq<Row>, columns: set<Column>, groups: seq<set<Key>>, i: nat, r: Row)
    returns (t: Row)
    requires WellOrdered(p) && Uniform(p, a, columns) && Uniform(p, b, columns) && i < |groups|
    requires r in Listed(p, a, b) && RawKey(p, r) in groups[i]
    ensures t in Gathered(p, a, b, groups) && p.hash(t) == p.hash(r) && RawKey(p, t) in groups[i]
  {
    var g := groups[i];
    var chunk := Listed(p, InGroup(p, a, g), InGroup(p, b, g));
    ChunkLists(p, a, b, columns, g);
    InGroupHolds(p, Listed(p, a, b), g, r);
    DedupKeepsOneEach(p.hash, chunk);
    assert Seen(p.hash, chunk, p.hash(r));
    assert Seen(p.hash, Dedup(p.hash, chunk), p.hash(r));
    t :| t in Dedup(p.hash, chunk) && p.hash(t) == p.hash(r);
    InGroupHolds(p, Listed(p, a, b), g, t);
    TotalHolds(Shares(p, a, b, groups), i, t);
  }

  lemma CrossingShows(p: Plan, a: seq<Row>, b: seq<Row>, columns: set<Column>, groups: seq<set<Key>>,
                      k: Key, l: Key, i: int, j: int)
    requires WellOrdered(p) && Uniform(p, a, columns) && Uniform(p, b, columns)
    requires Partition(groups, RawKeys(p, a) + RawKeys(p, b)) && Crossing(p, a, b, groups, k, l, i, j)
    ensures Gathered(p, a, b, groups) != multiset(SequentialRows(p, a, b))
  {
    var r, s :| OwedAt(p, a, b, k, r) && OwedAt(p, a, b, l, s) && p.hash(r) == p.hash(s);
    OwedToOwnKey(p, a, b, columns, k, r);
    OwedToOwnKey(p, a, b, columns, l, s);
    var t := Representative(p, a, b, columns, groups, i, r);
    var u := Representative(p, a, b, columns, groups, j, s);
    var all := SequentialRows(p, a, b);
    assert groups[i] !! groups[j] by {
      assert if i < j then groups[i] !! groups[j] else groups[j] !! groups[i];
    }
    assert t != u;
    DedupKeepsOneEach(p.hash, Listed(p, a, b));
    NotBoth(p.hash, all, t, u);
    assert !(t in multiset(all) && u in multiset(all));
  }

  lemma NotBoth(hash: Row -> string, rs: seq<Row>, r: Row, s: Row)
    requires OneEach(hash, rs) && r != s && hash(r) == hash(s)
    ensures !(r in rs && s in rs)
  {
    forall i, j | 0 <= i < |rs| && 0 <= j < |rs| && rs[i] == r ensures rs[j] != s {
      assert if i < j then hash(rs[i]) != hash(rs[j]) else i == j || hash(rs[j]) != hash(rs[i]);
    }
  }

  /** The chunked merge holds the rows of the one-pass merge, each as often, exactly when no keys of different chunks
      are owed rows of one hash. */
  lemma ChunksAgreeIff(p: Plan, a: seq<Row>, b: seq<Row>, columns: set<Column>, groups: seq<set<Key>>)
    requires WellOrdered(p) && Uniform(p, a, columns) && Uniform(p, b, columns)
    requires Partition(groups, RawKeys(p, a) + RawKeys(p, b))
    ensures Gathered(p, a, b, groups) == multiset(SequentialRows(p, a, b)) <==> !HashCrosses(p, a, b, groups)
  {
    var all := SequentialRows(p, a, b);
    if HashCrosses(p, a, b, groups) {
      var k, l, i, j :| Crossing(p, a, b, groups, k, l, i, j);
      CrossingShows(p, a, b, columns, groups, k, l, i, j);
    } else {
      var shares := Shares(p, a, b, groups);
      forall i | 0 <= i < |groups| ensures shares[i] == InGroup(p, all, groups[i]) {
        ShareIsPart(p, a, b, columns, groups, i);
      }
      PartsAddUp(p, all, groups, RawKeys(p, a) + RawKeys(p, b), shares, |groups|);
      assert groups[..|groups|] == groups && shares[..|groups|] == shares;
      DedupKeepsOneEach(p.hash, Listed(p, a, b));
      forall r | r in all ensures RawKey(p, r) in Union(groups) {
        ListedKeyed(p, a, b, columns, r);
      }
      AllInGroup(p, all, Union(groups));
    }
  }

  // ---- the workers ----

  predicate ChunkOk(p: Plan, c: Chunk) {
    KeyPresent(p, c.0) && KeyPresent(p, c.1)
  }

  predicate AllOk(p: Plan, chunks: seq<Chunk>) {
    forall i | 0 <= i < |chunks| :: ChunkOk(p, chunks[i])
  }

  ghost function SharesOf(p: Plan, chunks: seq<Chunk>): (shares: seq<seq<Row>>)
    requires WellOrdered(p)
    ensures |shares| == |chunks|
  {
    seq(|chunks|, i requires 0 <= i < |chunks| => ShareOf(p, chunks[i]))
  }

  function Without<T>(xs: seq<T>, i: nat): seq<T>
    requires i < |xs|
  {
    xs[..i] + xs[i + 1..]
  }

  lemma {:induction false} TotalWithout(shares: seq<seq<Row>>, i: nat)
    requires i < |shares|
    ensures Total(shares) == Total(Without(shares, i)) + multiset(shares[i])
    decreases |shares|
  {
    var n := |shares| - 1;
    var init, last := shares[..n], shares[n];
    assert shares == init + [last];
    if i < n {
      TotalWithout(init, i);
      WithoutSnoc(init, last, i);
      TotalSnoc(Without(init, i), last);
    } else {
      assert Without(shares, i) == init;
    }
  }

  lemma WithoutSnoc<T>(init: seq<T>, last: T, i: nat)
    requires i < |init|
    ensures Without(init + [last], i) == Without(init, i) + [last]
  {
  }

  lemma TotalSnoc(init: seq<seq<Row>>, last: seq<Row>)
    ensures Total(init + [last]) == Total(init) + multiset(last)
  {
    var all := init + [last];
    assert all[..|all| - 1] == init && all[|all| - 1] == last;
  }

  lemma SharesWithout(p: Plan, chunks: seq<Chunk>, i: nat)
    requires WellOrdered(p) && i < |chunks|
    ensures SharesOf(p, Without(chunks, i)) == Without(SharesOf(p, chunks), i)
  {
    var all, less := SharesOf(p, chunks), Without(chunks, i);
    var x, y := SharesOf(p, less), Without(all, i);
    forall j | 0 <= j < |chunks| - 1 ensures |x| == |y| == |chunks| - 1 && x[j] == y[j] {
      WithoutAt(chunks, i, j);
      WithoutAt(all, i, j);
      ShareAt(p, less, j);
      ShareAt(p, chunks, if j < i then j else j + 1);
    }
    assert |less| == |chunks| - 1 == |y|;
  }

  lemma ShareAt(p: Plan, chunks: seq<Chunk>, j: nat)
    requires WellOrdered(p) && j < |chunks|
    ensures SharesOf(p, chunks)[j] == ShareOf(p, chunks[j])
  {
  }

  lemma WithoutAt<T>(xs: seq<T>, i: nat, j: nat)
    requires i < |xs| && j < |xs| - 1
    ensures |Without(xs, i)| == |xs| - 1 && Without(xs, i)[j] == xs[if j < i then j else j + 1]
  {
  }

  lemma OneDone(shares: seq<seq<Row>>, i: nat, rows: seq<Row>, out: seq<Row>)
    requires i < |shares| && out == shares[i]
    ensures multiset(rows + out) + Total(Without(shares, i)) == multiset(rows) + Total(shares)
  {
    TotalWithout(shares, i);
    assert multiset(rows + out) == multiset(rows) + multiset(out);
  }

  lemma OkWithout(p: Plan, chunks: seq<Chunk>, i: nat)
    requires i < |chunks|
    ensures AllOk(p, chunks) <==> ChunkOk(p, chunks[i]) && AllOk(p, Without(chunks, i))
  {
    var less := Without(chunks, i);
    forall j | 0 <= j < |chunks| && j != i ensures chunks[j] == less[if j < i then j else j - 1] {
    }
    if ChunkOk(p, chunks[i]) && AllOk(p, less) {
      forall j | 0 <= j < |chunks| ensures ChunkOk(p, chunks[j]) {
        if j != i { assert ChunkOk(p, less[if j < i then j else j - 1]); }
      }
    }
    if AllOk(p, chunks) {
      forall j | 0 <= j < |less| ensures ChunkOk(p, less[j]) {
        assert less[j] == chunks[if j < i then j else j + 1];
      }
    }
  }

  /** Merges the chunks, taking results in whatever order the workers finish; any failure fails the whole. */
  method RunWorkers(p: Plan, chunks: seq<Chunk>) returns (o: Outcome)
    requires WellOrdered(p)
    ensures AllOk(p, chunks) ==> o.Merged? && multiset(o.rows) == Total(SharesOf(p, chunks))
    ensures !AllOk(p, chunks) ==> o == WorkersFailed
  {
    var pending := chunks;
    var rows: seq<Row>, failed := [], false;
    while pending != []
      invariant AllOk(p, chunks) <==> !failed && AllOk(p, pending)
      invariant !failed ==> multiset(rows) + Total(SharesOf(p, pending)) == Total(SharesOf(p, chunks))
      decreases |pending|
    {
      var i: nat :| i < |pending|;
      var done := MergeKeyed(p, pending[i].0, pending[i].1);
      OkWithout(p, pending, i);
      if done.Merged? {
        SharesWithout(p, pending, i);
        OneDone(SharesOf(p, pending), i, rows, done.rows);
        rows := rows + done.rows;
      } else {
        failed := true;
      }
      pending := Without(pending, i);
    }
    o := if failed then WorkersFailed else Merged(rows);
  }

  lemma UniformOk(p: Plan, rs: seq<Row>, columns: set<Column>, g: set<Key>)
    requires Uniform(p, rs, columns)
    ensures KeyPresent(p, rs) && KeyPresent(p, InGroup(p, rs, g))
  {
    InGroupUniform(p, rs, columns, g);
    if rs != [] { assert rs[0] in rs; }
    var part := InGroup(p, rs, g);
    if part != [] { assert part[0] in part; }
  }

  /** Large inputs are cut into chunks of keys and merged by workers; small ones, and a single chunk, in one pass.
      On rows of one column set with normalized keys, the rows are those of the one-pass merge exactly when no
      row hash is shared between chunks. */
  method ParallelMerge(p: Plan, a: seq<Row>, b: seq<Row>, chunkSize: int, keyText: Key -> string)
    returns (o: Outcome, ghost groups: seq<set<Key>>)
    requires WellOrdered(p)
    ensures |a| + |b| < SEQUENTIAL_THRESHOLD || chunkSize < 0 || |groups| <= 1 ==>
            o == if |a| + |b| >= SEQUENTIAL_THRESHOLD && chunkSize == 0 then BadChunkSize else Sequential(p, a, b)
    ensures |a| + |b| >= SEQUENTIAL_THRESHOLD && chunkSize == 0 ==> o == BadChunkSize
    ensures |a| + |b| >= SEQUENTIAL_THRESHOLD && chunkSize > 0 ==>
            Partition(groups, RawKeys(p, a) + RawKeys(p, b)) && Runs(groups, chunkSize)
    ensures |groups| > 1 && o.Merged? ==> multiset(o.rows) == Gathered(p, a, b, groups)
    ensures o != BadChunkSize ==> forall columns | Uniform(p, a, columns) && Uniform(p, b, columns) ::
              o.Merged? && (multiset(o.rows) == multiset(SequentialRows(p, a, b)) <==> !HashCrosses(p, a, b, groups))
  {
    groups := [];
    if |a| + |b| < SEQUENTIAL_THRESHOLD {
      o := OnePass(p, a, b, groups);
      return;
    }
    if chunkSize == 0 {
      return BadChunkSize, [];
    }
    var chunks, keyGroups := ComputeChunks(p, a, b, chunkSize, keyText);
    groups := keyGroups;
    if |chunks| <= 1 {
      o := OnePass(p, a, b, groups);
      return;
    }
    o := RunWorkers(p, chunks);
    assert SharesOf(p, chunks) == Shares(p, a, b, groups);
    forall columns | Uniform(p, a, columns) && Uniform(p, b, columns)
      ensures o.Merged? && (multiset(o.rows) == multiset(SequentialRows(p, a, b)) <==> !HashCrosses(p, a, b, groups))
    {
      ChunksAgreeIff(p, a, b, columns, groups);
      forall i | 0 <= i < |chunks| ensures ChunkOk(p, chunks[i]) {
        UniformOk(p, a, columns, groups[i]);
        UniformOk(p, b, columns, groups[i]);
      }
    }
  }

  /** The fallback: with at most one group there is nothing to cross. */
  method OnePass(p: Plan, a: seq<Row>, b: seq<Row>, ghost groups: seq<set<Key>>) returns (o: Outcome)
    requires WellOrdered(p) && |groups| <= 1
    ensures o == Sequential(p, a, b)
    ensures forall columns | Uniform(p, a, columns) && Uniform(p, b, columns) ::
              o.Merged? && (multiset(o.rows) == multiset(SequentialRows(p, a, b)) <==> !HashCrosses(p, a, b, groups))
  {
    o := MergeKeyed(p, a, b);
    forall columns | Uniform(p, a, columns) && Uniform(p, b, columns) ensures o.Merged? {
      UniformOk(p, a, columns, {});
      UniformOk(p, b, columns, {});
    }
  }

  // ---- row hashes collide across keys ----

  /** The text a row hash is taken of: `column=value` for each column in order, joined by bars. */
  function RowText(text: Value -> string, r: Row, columns: seq<Column>): string {
    if columns == [] then ""
    else columns[0] + "=" + text(Cell(r, columns[0])) + if |columns| == 1 then "" else "|" + RowText(text, r, columns[1..])
  }

  const COLUMNS: seq<Column> := ["a", "id", "z"]
  const FIRST: Row := map["a" := Text("p"), "id" := Num(1), "z" := Text("q|id=2|z=r")]
  const SECOND: Row := map["a" := Text("p|id=1|z=q"), "id" := Num(2), "z" := Text("r")]

  ghost predicate PythonText(text: Value -> string) {
    text(Num(1)) == "1" && text(Num(2)) == "2" && forall s :: text(Text(s)) == s
  }

  lemma SameText(text: Value -> string)
    requires PythonText(text)
    ensures RowText(text, FIRST, COLUMNS) == RowText(text, SECOND, COLUMNS)
  {
    assert COLUMNS[1..] == ["id", "z"] && ["id", "z"][1..] == ["z"];
    ThreeColumns(text, FIRST);
    ThreeColumns(text, SECOND);
  }

  lemma ThreeColumns(text: Value -> string, r: Row)
    ensures RowText(text, r, COLUMNS) ==
            "a" + "=" + text(Cell(r, "a")) + ("|" + ("id" + "=" + text(Cell(r, "id")) + ("|" + ("z" + "=" + text(Cell(r, "z")) + ""))))
  {
    assert COLUMNS[1..] == ["id", "z"] && ["id", "z"][1..] == ["z"];
    assert RowText(text, r, ["z"]) == "z" + "=" + text(Cell(r, "z")) + "";
    assert RowText(text, r, ["id", "z"]) == "id" + "=" + text(Cell(r, "id")) + ("|" + RowText(text, r, ["z"]));
    assert RowText(text, r, COLUMNS) == "a" + "=" + text(Cell(r, "a")) + ("|" + RowText(text, r, ["id", "z"]));
  }

  /** The one-pass merge can drop a row because a row of another key has the same text, whatever the digest. */
  lemma DifferentKeysCollide(p: Plan, digest: string -> string)
    requires WellOrdered(p) && PythonText(p.text) && p.keyColumns == ["id"]
    requires p.hash(FIRST) == digest(RowText(p.text, FIRST, COLUMNS))
    requires p.hash(SECOND) == digest(RowText(p.text, SECOND, COLUMNS))
    ensures CompositeKey(p, FIRST) != CompositeKey(p, SECOND)
    ensures |SequentialRows(p, [FIRST, SECOND], [])| == 1
  {
    SameText(p.text);
    var a, k := [FIRST, SECOND], CompositeKey(p, FIRST);
    assert k[0] == Num(1) && CompositeKey(p, SECOND)[0] == Num(2);
    var all := Listed(p, a, []);
    forall r | r in all ensures p.hash(r) == p.hash(FIRST) {
      OneSideListed(p, a, r);
    }
    assert FIRST in a;
    IndexHolds(p, a, k);
    MergedHolds(p, IndexOf(p, a), map[], ColumnsOf(a) + {}, SortedKeysOf(p, IndexOf(p, a), map[]), k);
    assert all != [];
    OneHashOneRow(p.hash, all, p.hash(FIRST));
  }

  lemma OneHashOneRow(hash: Row -> string, rs: seq<Row>, h: string)
    requires rs != [] && forall r | r in rs :: hash(r) == h
    ensures |Dedup(hash, rs)| == 1
  {
    DedupKeepsOneEach(hash, rs);
    var out := Dedup(hash, rs);
    assert rs[0] in rs && Seen(hash, rs, h);
    assert Seen(hash, out, h);
    assert forall i | 0 <= i < |out| :: out[i] in out;
  }

  lemma {:induction false} MergedHolds(p: Plan, x: Index, y: Index, columns: set<Column>, ks: seq<Key>, k: Key)
    requires Covers(x, y, ks) && k in ks
    ensures (k in x || k in y) && MergedAt(p, x, y, columns, k) in MergedRows(p, x, y, columns, ks)
    decreases |ks|
  {
    var n := |ks| - 1;
    if k != ks[n] {
      MergedHolds(p, x, y, columns, ks[..n], k);
    }
  }

  lemma {:induction false} OneSideMerged(p: Plan, a: seq<Row>, columns: set<Column>, ks: seq<Key>, r: Row)
    requires Covers(IndexOf(p, a), map[], ks) && r in MergedRows(p, IndexOf(p, a), map[], columns, ks)
    ensures r in a
    decreases |ks|
  {
    var n := |ks| - 1;
    if r in MergedRows(p, IndexOf(p, a), map[], columns, ks[..n]) {
      OneSideMerged(p, a, columns, ks[..n], r);
    } else {
      IndexHolds(p, a, ks[n]);
    }
  }

  /** Merging with nothing lists only given rows. */
  lemma OneSideListed(p: Plan, a: seq<Row>, r: Row)
    requires WellOrdered(p) && r in Listed(p, a, [])
    ensures r in a
  {
    if r in NullRows(p, a) {
      NullRowsHold(p, a, r);
    } else {
      OneSideMerged(p, a, ColumnsOf(a) + ColumnsOf([]), SortedKeysOf(p, IndexOf(p, a), map[]), r);
    }
  }
}
