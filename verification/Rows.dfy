/** Table rows as dicts from column to cell, and the cell-by-cell merge of two rows with one key. */
module Rows {
  import opened Options

  type Column = string

  /** A cell; `Null` is also what reading a missing column gives. */
  datatype Value = Null | Num(n: int) | Text(s: string)

  type Row = map<Column, Value>

  function Cell(r: Row, c: Column): Value {
    if c in r then r[c] else Null
  }

  /** How rows are merged: which strategy a column uses, and the time a row carries. */
  datatype Policy = Policy(resolve: (Column, Value, Value, real, real) -> Value, timeOf: Row -> real)

  function ResolveCell(p: Policy, c: Column, a: Row, b: Row): Value {
    var va, vb := Cell(a, c), Cell(b, c);
    if va == Null && vb != Null then vb
    else if vb == Null && va != Null then va
    else if va == vb then va
    else p.resolve(c, va, vb, p.timeOf(a), p.timeOf(b))
  }

  function ResolveRow(p: Policy, a: Row, b: Row, columns: set<Column>): Row {
    map c | c in columns :: ResolveCell(p, c, a, b)
  }

  /** The merge of two rows over all the columns either has. */
  function Merge(p: Policy, a: Row, b: Row): Row {
    ResolveRow(p, a, b, a.Keys + b.Keys)
  }

  /** What the rows `x` and `y` make of a cell: what either has where the other has nothing, what both agree on, and
      otherwise what the policy answers for the two cells and the times of their rows. */
  predicate JoinedCell(p: Policy, c: Column, x: Row, y: Row, v: Value) {
    var vx, vy := Cell(x, c), Cell(y, c);
    && (vx == Null ==> v == vy)
    && (vy == Null ==> v == vx)
    && (vx == vy ==> v == vx)
    && (vx != Null && vy != Null && vx != vy ==> v == p.resolve(c, vx, vy, p.timeOf(x), p.timeOf(y)))
  }

  predicate JoinedOver(p: Policy, x: Row, y: Row, columns: set<Column>, r: Row) {
    r.Keys == columns && forall c | c in columns :: JoinedCell(p, c, x, y, r[c])
  }

  lemma ResolvedIsJoined(p: Policy, x: Row, y: Row, columns: set<Column>)
    ensures JoinedOver(p, x, y, columns, ResolveRow(p, x, y, columns))
  {
    forall c | c in columns ensures JoinedCell(p, c, x, y, ResolveCell(p, c, x, y)) {}
  }

  method ResolveRowByColumn(p: Policy, a: Row, b: Row, columns: set<Column>) returns (r: Row)
    ensures r == ResolveRow(p, a, b, columns) && JoinedOver(p, a, b, columns, r)
  {
    ResolvedIsJoined(p, a, b, columns);
    r := map[];
    var rest := columns;
    while rest != {}
      invariant rest <= columns && r.Keys == columns - rest
      invariant forall c | c in r :: r[c] == ResolveCell(p, c, a, b)
      decreases |rest|
    {
      var c :| c in rest;
      rest := rest - {c};
      r := r[c := ResolveCell(p, c, a, b)];
    }
  }

  /** All rows of a list of row lists, in order. */
  function Flatten(lists: seq<seq<Row>>): seq<Row> {
    if lists == [] then [] else Flatten(lists[..|lists| - 1]) + lists[|lists| - 1]
  }

  lemma {:induction false} FlattenHolds(lists: seq<seq<Row>>, r: Row)
    ensures r in Flatten(lists) <==> exists i :: 0 <= i < |lists| && r in lists[i]
    decreases |lists|
  {
    if lists != [] {
      var init := lists[..|lists| - 1];
      FlattenHolds(init, r);
      assert forall i | 0 <= i < |init| :: init[i] == lists[i];
    }
  }

  // ---- rows by key ----

  predicate Keyed(r: Row, key: Column) {
    key in r && r[key].Num?
  }

  predicate AllKeyed(rs: seq<Row>, key: Column) {
    forall r | r in rs :: Keyed(r, key)
  }

  function KeyOf(r: Row, key: Column): int
    requires Keyed(r, key)
  {
    r[key].n
  }

  /** Merging two rows of one key keeps the key, whatever the policy. */
  lemma ResolveKeepsKey(p: Policy, a: Row, b: Row, columns: set<Column>, key: Column)
    requires Keyed(a, key) && Keyed(b, key) && KeyOf(a, key) == KeyOf(b, key) && key in columns
    ensures Keyed(ResolveRow(p, a, b, columns), key)
    ensures KeyOf(ResolveRow(p, a, b, columns), key) == KeyOf(a, key)
  {
  }

  /** The first row with key `k`. */
  function AtKey(rs: seq<Row>, key: Column, k: int): (r: Option<Row>)
    requires AllKeyed(rs, key)
    ensures r.Some? ==> r.value in rs && KeyOf(r.value, key) == k
  {
    if rs == [] then None
    else if KeyOf(rs[0], key) == k then Some(rs[0])
    else AtKey(rs[1..], key, k)
  }

  predicate DistinctKeys(rs: seq<Row>, key: Column)
    requires AllKeyed(rs, key)
  {
    rs == [] || (AtKey(rs[1..], key, KeyOf(rs[0], key)).None? && DistinctKeys(rs[1..], key))
  }

  lemma {:induction false} AtKeyFinds(rs: seq<Row>, key: Column, r: Row)
    requires AllKeyed(rs, key) && DistinctKeys(rs, key)
    ensures r in rs <==> Keyed(r, key) && AtKey(rs, key, KeyOf(r, key)) == Some(r)
    ensures multiset(rs)[r] <= 1
    decreases |rs|
  {
    if rs != [] {
      assert rs == [rs[0]] + rs[1..];
      assert multiset(rs) == multiset{rs[0]} + multiset(rs[1..]);
      AtKeyFinds(rs[1..], key, r);
      if r in rs[1..] {
        assert r in rs;
      }
    }
  }

  /** Two lists with distinct keys that agree on every key hold the same rows, each as often. */
  lemma SameRows(x: seq<Row>, y: seq<Row>, key: Column)
    requires AllKeyed(x, key) && AllKeyed(y, key) && DistinctKeys(x, key) && DistinctKeys(y, key)
    requires forall k :: AtKey(x, key, k) == AtKey(y, key, k)
    ensures multiset(x) == multiset(y)
  {
    forall r ensures multiset(x)[r] == multiset(y)[r] {
      AtKeyFinds(x, key, r);
      AtKeyFinds(y, key, r);
      assert r in x <==> r in multiset(x);
      assert r in y <==> r in multiset(y);
    }
  }
}
