/**
 The keyed merge of two record lists in one pass: index both sides by key, merge the rows of each key in
 key order, append the rows without a key, and drop rows whose hash was seen before.

 `normalize` is Unicode normalisation form C, `text` is Python's str, `leq` orders the keys (by type name,
 then value) and `hash` is the row hash that duplicate removal compares.
*/
module DataFrame {
  import Lex
  import opened Rows
  import opened SortedKeys

  /** The cells of the key columns, in the order the key columns were given. */
  type Key = seq<Value>

  datatype Conflict =
    | BySchema(strategy: (Column, Value, Value, real, real) -> Value)
    | ByTimestamp
    | PreferA
    | PreferB
    | Latest

  datatype Plan = Plan(
    keyColumns: seq<Column>,
    conflict: Conflict,
    timeOf: Row -> real,
    normalize: string -> string,
    text: Value -> string,
    leq: (Key, Key) -> bool,
    hash: Row -> string)

  ghost predicate WellOrdered(p: Plan) {
    TotalOrder(p.leq)
  }

  // ---- merging two rows ----

  function Normal(p: Plan, v: Value): Value {
    if v.Text? then Text(p.normalize(v.s)) else v
  }

  function ResolveConflict(p: Plan, c: Column, va: Value, vb: Value, ta: real, tb: real): Value {
    match p.conflict
    case BySchema(strategy) => strategy(c, va, vb, ta, tb)
    case ByTimestamp => if tb > ta || (tb == ta && Lex.Less(p.text(va), p.text(vb))) then vb else va
    case PreferA => va
    case PreferB => vb
    case Latest => if Lex.Leq(p.text(Normal(p, vb)), p.text(Normal(p, va))) then va else vb
  }

  function MergeCell(p: Plan, c: Column, a: Row, b: Row): Value {
    var va, vb := Cell(a, c), Cell(b, c);
    if va == Null && vb != Null then vb
    else if vb == Null && va != Null then va
    else if Normal(p, va) == Normal(p, vb) then va
    else ResolveConflict(p, c, va, vb, p.timeOf(a), p.timeOf(b))
  }

  function MergeRow(p: Plan, a: Row, b: Row, columns: set<Column>): Row {
    map c | c in columns :: MergeCell(p, c, a, b)
  }

  /** The two cells are told apart by something other than the side they are on. */
  predicate ToldApart(p: Plan, c: Column, a: Row, b: Row) {
    var va, vb := Cell(a, c), Cell(b, c);
    match p.conflict
    case Latest => p.text(Normal(p, va)) != p.text(Normal(p, vb))
    case ByTimestamp =>
      Normal(p, va) != Normal(p, vb) && (p.timeOf(a) != p.timeOf(b) || p.text(va) != p.text(vb))
    case BySchema(strategy) =>
      && Normal(p, va) != Normal(p, vb)
      && strategy(c, va, vb, p.timeOf(a), p.timeOf(b)) == strategy(c, vb, va, p.timeOf(b), p.timeOf(a))
    case _ => false
  }

  predicate NeutralAt(p: Plan, c: Column, a: Row, b: Row) {
    Cell(a, c) == Cell(b, c) || Cell(a, c) == Null || Cell(b, c) == Null || ToldApart(p, c, a, b)
  }

  lemma CellCommutesIff(p: Plan, c: Column, a: Row, b: Row)
    ensures MergeCell(p, c, a, b) == MergeCell(p, c, b, a) <==> NeutralAt(p, c, a, b)
  {
    var va, vb := Cell(a, c), Cell(b, c);
    Lex.Total(p.text(va), p.text(vb));
    Lex.Total(p.text(Normal(p, va)), p.text(Normal(p, vb)));
    Lex.Reflexive(p.text(va));
    Lex.Reflexive(p.text(Normal(p, va)));
    if Lex.Leq(p.text(va), p.text(vb)) && Lex.Leq(p.text(vb), p.text(va)) {
      Lex.Antisymmetric(p.text(va), p.text(vb));
    }
    if Lex.Leq(p.text(Normal(p, va)), p.text(Normal(p, vb))) && Lex.Leq(p.text(Normal(p, vb)), p.text(Normal(p, va))) {
      Lex.Antisymmetric(p.text(Normal(p, va)), p.text(Normal(p, vb)));
    }
  }

  /** A merged row is the same from either side exactly when every pair of differing cells is told apart by time or
      text, or settled alike from both sides by the schema's strategy; two values with one text, such as a number
      and its digits, are not told apart. */
  lemma RowCommutesIff(p: Plan, a: Row, b: Row, columns: set<Column>)
    ensures MergeRow(p, a, b, columns) == MergeRow(p, b, a, columns) <==>
            forall c | c in columns :: NeutralAt(p, c, a, b)
  {
    forall c ensures MergeCell(p, c, a, b) == MergeCell(p, c, b, a) <==> NeutralAt(p, c, a, b) {
      CellCommutesIff(p, c, a, b);
    }
    var x, y := MergeRow(p, a, b, columns), MergeRow(p, b, a, columns);
    if x == y {
      forall c | c in columns ensures NeutralAt(p, c, a, b) {
        assert x[c] == y[c];
      }
    }
  }

  // ---- indexing ----

  function RawKey(p: Plan, r: Row): (k: Key)
    ensures |k| == |p.keyColumns|
  {
    seq(|p.keyColumns|, i requires 0 <= i < |p.keyColumns| => Cell(r, p.keyColumns[i]))
  }

  function CompositeKey(p: Plan, r: Row): (k: Key)
    ensures |k| == |p.keyColumns|
  {
    seq(|p.keyColumns|, i requires 0 <= i < |p.keyColumns| => Normal(p, Cell(r, p.keyColumns[i])))
  }

  type Index = map<Key, Row>

  /** The last row of every key; rows with a null in their key are not indexed. */
  function IndexOf(p: Plan, rs: seq<Row>): Index {
    if rs == [] then map[]
    else
      var n := |rs| - 1;
      var k := CompositeKey(p, rs[n]);
      if Null in k then IndexOf(p, rs[..n]) else IndexOf(p, rs[..n])[k := rs[n]]
  }

  function NullRows(p: Plan, rs: seq<Row>): seq<Row> {
    if rs == [] then []
    else
      var n := |rs| - 1;
      NullRows(p, rs[..n]) + if Null in CompositeKey(p, rs[n]) then [rs[n]] else []
  }

  method BuildIndex(p: Plan, rs: seq<Row>, nullRows: seq<Row>) returns (index: Index, allNull: seq<Row>, repeats: nat)
    ensures index == IndexOf(p, rs) && allNull == nullRows + NullRows(p, rs)
    ensures |index| + repeats + |NullRows(p, rs)| == |rs|
  {
    index, allNull, repeats := map[], nullRows, 0;
    for i := 0 to |rs|
      invariant index == IndexOf(p, rs[..i]) && allNull == nullRows + NullRows(p, rs[..i])
      invariant |index| + repeats + |NullRows(p, rs[..i])| == i
    {
      assert rs[..i + 1][..i] == rs[..i];
      var k := CompositeKey(p, rs[i]);
      if Null in k {
        allNull := allNull + [rs[i]];
      } else {
        if k in index {
          repeats := repeats + 1;
        }
        index := index[k := rs[i]];
      }
    }
    assert rs[..|rs|] == rs;
  }

  // ---- the merged list ----

  function ColumnsOf(rs: seq<Row>): set<Column> {
    set r, c | r in rs && c in r :: c
  }

  function MergedAt(p: Plan, x: Index, y: Index, columns: set<Column>, k: Key): Row
    requires k in x || k in y
  {
    if k !in y then x[k] else if k !in x then y[k] else MergeRow(p, x[k], y[k], columns)
  }

  predicate Covers(x: Index, y: Index, ks: seq<Key>) {
    forall i | 0 <= i < |ks| :: ks[i] in x || ks[i] in y
  }

  function MergedRows(p: Plan, x: Index, y: Index, columns: set<Column>, ks: seq<Key>): seq<Row>
    requires Covers(x, y, ks)
  {
    if ks == [] then []
    else
      var n := |ks| - 1;
      MergedRows(p, x, y, columns, ks[..n]) + [MergedAt(p, x, y, columns, ks[n])]
  }

  lemma MergedNext(p: Plan, x: Index, y: Index, columns: set<Column>, ks: seq<Key>, i: nat)
    requires Covers(x, y, ks) && i < |ks|
    ensures MergedRows(p, x, y, columns, ks[..i + 1]) == MergedRows(p, x, y, columns, ks[..i]) + [MergedAt(p, x, y, columns, ks[i])]
  {
    assert ks[..i + 1][..i] == ks[..i];
  }

  ghost function SortedKeysOf(p: Plan, x: Index, y: Index): (ks: seq<Key>)
    requires WellOrdered(p)
    ensures SortedOf(p.leq, ks, x.Keys + y.Keys) && Covers(x, y, ks)
  {
    var ks := Sorted(p.leq, x.Keys + y.Keys);
    assert forall i | 0 <= i < |ks| :: ks[i] in ks;
    ks
  }

  ghost function ByKey(p: Plan, x: Index, y: Index, columns: set<Column>): seq<Row>
    requires WellOrdered(p)
  {
    MergedRows(p, x, y, columns, SortedKeysOf(p, x, y))
  }

  method MergeInOrder(p: Plan, x: Index, y: Index, columns: set<Column>) returns (rows: seq<Row>)
    requires WellOrdered(p)
    ensures rows == ByKey(p, x, y, columns)
  {
    var ks := SortKeys(p.leq, x.Keys + y.Keys);
    assert ks == SortedKeysOf(p, x, y);
    rows := [];
    for i := 0 to |ks|
      invariant rows == MergedRows(p, x, y, columns, ks[..i])
    {
      MergedNext(p, x, y, columns, ks, i);
      rows := rows + [MergedAt(p, x, y, columns, ks[i])];
    }
    assert ks[..|ks|] == ks;
  }

  /** All rows before duplicate removal. */
  ghost function Listed(p: Plan, a: seq<Row>, b: seq<Row>): seq<Row>
    requires WellOrdered(p)
  {
    ByKey(p, IndexOf(p, a), IndexOf(p, b), ColumnsOf(a) + ColumnsOf(b)) + (NullRows(p, a) + NullRows(p, b))
  }

  predicate Seen(hash: Row -> string, rs: seq<Row>, h: string) {
    exists r :: r in rs && hash(r) == h
  }

  /** The first row of every hash. */
  function Dedup(hash: Row -> string, rs: seq<Row>): seq<Row> {
    if rs == [] then []
    else
      var n := |rs| - 1;
      Dedup(hash, rs[..n]) + if Seen(hash, rs[..n], hash(rs[n])) then [] else [rs[n]]
  }

  ghost function SequentialRows(p: Plan, a: seq<Row>, b: seq<Row>): seq<Row>
    requires WellOrdered(p)
  {
    Dedup(p.hash, Listed(p, a, b))
  }

  method DropRepeats(hash: Row -> string, rs: seq<Row>) returns (unique: seq<Row>)
    ensures unique == Dedup(hash, rs)
  {
    unique := [];
    var seen := {};
    for i := 0 to |rs|
      invariant unique == Dedup(hash, rs[..i])
      invariant forall h :: h in seen <==> Seen(hash, rs[..i], h)
    {
      assert rs[..i + 1][..i] == rs[..i];
      var h := hash(rs[i]);
      if h !in seen {
        seen := seen + {h};
        unique := unique + [rs[i]];
      }
      forall g ensures Seen(hash, rs[..i + 1], g) <==> Seen(hash, rs[..i], g) || g == h {
        SeenSnoc(hash, rs[..i], rs[i], g);
        assert rs[..i + 1] == rs[..i] + [rs[i]];
      }
    }
    assert rs[..|rs|] == rs;
  }

  lemma SeenSnoc(hash: Row -> string, rs: seq<Row>, last: Row, h: string)
    ensures Seen(hash, rs + [last], h) <==> Seen(hash, rs, h) || h == hash(last)
  {
    var all := rs + [last];
    if Seen(hash, rs, h) {
      var r :| r in rs && hash(r) == h;
      assert r in all;
    }
    assert last in all;
  }

  /** Removal keeps every hash, each with one row only, and adds nothing. */
  lemma {:induction false} DedupKeepsOneEach(hash: Row -> string, rs: seq<Row>)
    ensures forall h :: Seen(hash, Dedup(hash, rs), h) <==> Seen(hash, rs, h)
    ensures forall r | r in Dedup(hash, rs) :: r in rs
    ensures OneEach(hash, Dedup(hash, rs))
    decreases |rs|
  {
    if rs != [] {
      var n := |rs| - 1;
      var init, last := rs[..n], rs[n];
      assert rs == init + [last];
      DedupKeepsOneEach(hash, init);
      var kept := Dedup(hash, init);
      forall h ensures Seen(hash, Dedup(hash, rs), h) <==> Seen(hash, rs, h) {
        SeenSnoc(hash, init, last, h);
        SeenSnoc(hash, kept, last, h);
        assert kept + [] == kept;
      }
      if Seen(hash, init, hash(last)) {
        assert Dedup(hash, rs) == kept;
      } else {
        OneMore(hash, kept, last);
      }
    }
  }

  ghost predicate OneEach(hash: Row -> string, rs: seq<Row>) {
    forall i, j | 0 <= i < j < |rs| :: hash(rs[i]) != hash(rs[j])
  }

  lemma OneMore(hash: Row -> string, rs: seq<Row>, last: Row)
    requires OneEach(hash, rs) && !Seen(hash, rs, hash(last))
    ensures OneEach(hash, rs + [last])
  {
    forall i | 0 <= i < |rs| ensures hash(rs[i]) != hash(last) {
      assert rs[i] in rs;
    }
  }

  lemma LastUnseen(hash: Row -> string, init: seq<Row>, last: Row)
    requires OneEach(hash, init + [last])
    ensures OneEach(hash, init) && !Seen(hash, init, hash(last))
  {
    var rs := init + [last];
    assert rs[|init|] == last;
    forall i | 0 <= i < |init| ensures hash(init[i]) != hash(last) {
      assert rs[i] == init[i];
    }
    forall i, j | 0 <= i < j < |init| ensures hash(init[i]) != hash(init[j]) {
      assert rs[i] == init[i] && rs[j] == init[j];
    }
  }

  lemma {:induction false} DistinctUntouched(hash: Row -> string, rs: seq<Row>)
    requires OneEach(hash, rs)
    ensures Dedup(hash, rs) == rs
    decreases |rs|
  {
    if rs != [] {
      var init, last := rs[..|rs| - 1], rs[|rs| - 1];
      assert rs == init + [last];
      LastUnseen(hash, init, last);
      DistinctUntouched(hash, init);
    }
  }

  /** Removal leaves a list as it is exactly when no two of its rows share a hash. */
  lemma DedupIsIdentityIff(hash: Row -> string, rs: seq<Row>)
    ensures Dedup(hash, rs) == rs <==> OneEach(hash, rs)
  {
    if OneEach(hash, rs) {
      DistinctUntouched(hash, rs);
    } else {
      DedupKeepsOneEach(hash, rs);
    }
  }

  /** Every row is still there exactly when rows that share a hash are the same row. */
  lemma EveryRowKeptIff(hash: Row -> string, rs: seq<Row>)
    ensures (forall r | r in rs :: r in Dedup(hash, rs)) <==> forall r, s | r in rs && s in rs && hash(r) == hash(s) :: r == s
  {
    DedupKeepsOneEach(hash, rs);
    var kept := Dedup(hash, rs);
    if forall r | r in rs :: r in kept {
      forall r, s | r in rs && s in rs && hash(r) == hash(s) ensures r == s {
        OneOfEach(hash, kept, r, s);
      }
    } else {
      var r :| r in rs && r !in kept;
      assert Seen(hash, rs, hash(r));
      var s :| s in kept && hash(s) == hash(r);
      assert s in rs && s != r;
    }
  }

  lemma OneOfEach(hash: Row -> string, rs: seq<Row>, r: Row, s: Row)
    requires OneEach(hash, rs) && r in rs && s in rs && hash(r) == hash(s)
    ensures r == s
  {
    var i :| 0 <= i < |rs| && rs[i] == r;
    var j :| 0 <= j < |rs| && rs[j] == s;
  }

  /** The merge drops no listed row exactly when no two listed rows share a hash, whatever their keys. */
  lemma NothingDroppedIff(p: Plan, a: seq<Row>, b: seq<Row>)
    requires WellOrdered(p)
    ensures SequentialRows(p, a, b) == Listed(p, a, b) <==> OneEach(p.hash, Listed(p, a, b))
  {
    DedupIsIdentityIff(p.hash, Listed(p, a, b));
  }

  datatype Outcome = Merged(rows: seq<Row>) | MissingKeyColumn | BadChunkSize | WorkersFailed

  /** Only the first row is checked for the key columns. */
  predicate KeyPresent(p: Plan, rs: seq<Row>) {
    rs != [] ==> forall c | c in p.keyColumns :: c in rs[0]
  }

  ghost function Sequential(p: Plan, a: seq<Row>, b: seq<Row>): Outcome
    requires WellOrdered(p)
  {
    if KeyPresent(p, a) && KeyPresent(p, b) then Merged(SequentialRows(p, a, b)) else MissingKeyColumn
  }

  method MergeKeyed(p: Plan, a: seq<Row>, b: seq<Row>) returns (o: Outcome)
    requires WellOrdered(p)
    ensures o == Sequential(p, a, b)
    ensures o == MissingKeyColumn <==> exists c | c in p.keyColumns :: (a != [] && c !in a[0]) || (b != [] && c !in b[0])
    ensures o != MissingKeyColumn ==>
            o.Merged? && exists listed :: ListsRows(p, a, b, listed) && FirstOfEachHash(p.hash, listed, o.rows)
  {
    ListedRightly(p, a, b);
    KeptRightly(p.hash, Listed(p, a, b));
    if !KeyPresent(p, a) || !KeyPresent(p, b) {
      return MissingKeyColumn;
    }
    var columns := ColumnsOf(a) + ColumnsOf(b);
    var x, nullRows, repeatsA := BuildIndex(p, a, []);
    var y, allNull, repeatsB := BuildIndex(p, b, nullRows);
    var rows := MergeInOrder(p, x, y, columns);
    assert [] + NullRows(p, a) == NullRows(p, a);
    var unique := DropRepeats(p.hash, rows + allNull);
    o := Merged(unique);
  }

  /** An index holds rows of the list under their own keys, and a list's key without nulls is indexed. */
  lemma {:induction false} IndexHolds(p: Plan, rs: seq<Row>, k: Key)
    ensures k in IndexOf(p, rs) ==> IndexOf(p, rs)[k] in rs && CompositeKey(p, IndexOf(p, rs)[k]) == k && Null !in k
    ensures k in IndexOf(p, rs) <==> Null !in k && exists r :: r in rs && CompositeKey(p, r) == k
    decreases |rs|
  {
    if rs != [] {
      var n := |rs| - 1;
      IndexHolds(p, rs[..n], k);
      assert rs == rs[..n] + [rs[n]];
      if k in IndexOf(p, rs) {
        assert IndexOf(p, rs)[k] in rs;
      }
    }
  }

  // ---- what is listed, key by key ----

  /** `r` is a row the merge owes to key `k`: of keys with a null every row, of other keys the last row of either side
      or, where both sides have one, their merge. */
  ghost predicate OwedAt(p: Plan, a: seq<Row>, b: seq<Row>, k: Key, r: Row) {
    var x, y := IndexOf(p, a), IndexOf(p, b);
    if Null in k then (r in a || r in b) && CompositeKey(p, r) == k
    else (k in x || k in y) && r == MergedAt(p, x, y, ColumnsOf(a) + ColumnsOf(b), k)
  }

  lemma {:induction false} NullRowsHold(p: Plan, rs: seq<Row>, r: Row)
    ensures r in NullRows(p, rs) <==> r in rs && Null in CompositeKey(p, r)
    decreases |rs|
  {
    if rs != [] {
      NullRowsHold(p, rs[..|rs| - 1], r);
      assert rs == rs[..|rs| - 1] + [rs[|rs| - 1]];
    }
  }

  lemma {:induction false} MergedRowsHold(p: Plan, x: Index, y: Index, columns: set<Column>, ks: seq<Key>, k: Key)
    requires Covers(x, y, ks) && k in ks
    ensures (k in x || k in y) && MergedAt(p, x, y, columns, k) in MergedRows(p, x, y, columns, ks)
    decreases |ks|
  {
    var n := |ks| - 1;
    if ks[n] != k {
      assert ks == ks[..n] + [ks[n]];
      MergedRowsHold(p, x, y, columns, ks[..n], k);
    }
  }

  lemma {:induction false} MergedRowsFrom(p: Plan, x: Index, y: Index, columns: set<Column>, ks: seq<Key>, r: Row) returns (k: Key)
    requires Covers(x, y, ks) && r in MergedRows(p, x, y, columns, ks)
    ensures k in ks && (k in x || k in y) && r == MergedAt(p, x, y, columns, k)
    decreases |ks|
  {
    var n := |ks| - 1;
    if r in MergedRows(p, x, y, columns, ks[..n]) {
      k := MergedRowsFrom(p, x, y, columns, ks[..n], r);
    } else {
      k := ks[n];
    }
  }

  /** The merge lists every row it owes to some key ... */
  lemma OwedIsListed(p: Plan, a: seq<Row>, b: seq<Row>, k: Key, r: Row)
    requires WellOrdered(p) && OwedAt(p, a, b, k, r)
    ensures r in Listed(p, a, b)
  {
    if Null in k {
      NullRowsHold(p, a, r);
      NullRowsHold(p, b, r);
    } else {
      var x, y := IndexOf(p, a), IndexOf(p, b);
      MergedRowsHold(p, x, y, ColumnsOf(a) + ColumnsOf(b), SortedKeysOf(p, x, y), k);
    }
  }

  /** ... and nothing else. */
  lemma ListedIsOwed(p: Plan, a: seq<Row>, b: seq<Row>, r: Row) returns (k: Key)
    requires WellOrdered(p) && r in Listed(p, a, b)
    ensures OwedAt(p, a, b, k, r)
  {
    NullRowsHold(p, a, r);
    NullRowsHold(p, b, r);
    if r in NullRows(p, a) + NullRows(p, b) {
      k := CompositeKey(p, r);
    } else {
      var x, y := IndexOf(p, a), IndexOf(p, b);
      k := MergedRowsFrom(p, x, y, ColumnsOf(a) + ColumnsOf(b), SortedKeysOf(p, x, y), r);
      IndexHolds(p, a, k);
      IndexHolds(p, b, k);
    }
  }

  // ---- what is listed, by position ----

  /** Alike after normalisation. */
  predicate Alike(p: Plan, v: Value, w: Value) {
    v == w || (v.Text? && w.Text? && p.normalize(v.s) == p.normalize(w.s))
  }

  function NormalText(p: Plan, v: Value): string {
    match v
    case Text(s) => p.text(Text(p.normalize(s)))
    case _ => p.text(v)
  }

  /** `v` is whichever of the values has the larger text, the first if both have one. */
  predicate LargerBy(text: Value -> string, vx: Value, vy: Value, v: Value) {
    && (v == vx || v == vy)
    && Lex.Leq(text(vx), text(v)) && Lex.Leq(text(vy), text(v))
    && (text(vx) == text(vy) ==> v == vx)
  }

  /** How a conflict of two cells is settled: by the schema's strategy, else by time and then text, else by side or by
      normalized text. */
  predicate Settles(p: Plan, c: Column, vx: Value, vy: Value, tx: real, ty: real, v: Value) {
    match p.conflict
    case BySchema(strategy) => v == strategy(c, vx, vy, tx, ty)
    case ByTimestamp => if tx < ty then v == vy else if ty < tx then v == vx else LargerBy(p.text, vx, vy, v)
    case PreferA => v == vx
    case PreferB => v == vy
    case Latest => LargerBy(w => NormalText(p, w), vx, vy, v)
  }

  /** What the rows `x` and `y` make of a cell. */
  predicate MergedCell(p: Plan, c: Column, x: Row, y: Row, v: Value) {
    var vx, vy := Cell(x, c), Cell(y, c);
    if vx == Null then v == vy
    else if vy == Null then v == vx
    else if Alike(p, vx, vy) then v == vx
    else Settles(p, c, vx, vy, p.timeOf(x), p.timeOf(y), v)
  }

  predicate HasKey(p: Plan, r: Row, k: Key) {
    && |k| == |p.keyColumns|
    && forall i | 0 <= i < |k| ::
         match Cell(r, p.keyColumns[i])
         case Text(s) => k[i] == Text(p.normalize(s))
         case v => k[i] == v
  }

  predicate LastWith(p: Plan, rs: seq<Row>, k: Key, i: int) {
    0 <= i < |rs| && HasKey(p, rs[i], k) && forall j | i < j < |rs| :: !HasKey(p, rs[j], k)
  }

  ghost predicate Mentions(p: Plan, rs: seq<Row>, k: Key) {
    exists r :: r in rs && HasKey(p, r, k)
  }

  /** `r` has all the columns of both inputs, and in each what the two rows make of it. */
  ghost predicate MergedOf(p: Plan, a: seq<Row>, b: seq<Row>, x: Row, y: Row, r: Row) {
    && (forall c :: c in r <==> exists s :: (s in a || s in b) && c in s)
    && (forall c | c in r :: MergedCell(p, c, x, y, r[c]))
  }

  /** `r` is what becomes of key `k`: the last rows of both sides merged, or the last row of the only side that has it. */
  ghost predicate ListedRow(p: Plan, a: seq<Row>, b: seq<Row>, k: Key, r: Row) {
    && (forall i, j | LastWith(p, a, k, i) && LastWith(p, b, k, j) :: MergedOf(p, a, b, a[i], b[j], r))
    && (forall i | LastWith(p, a, k, i) && !Mentions(p, b, k) :: r == a[i])
    && (forall j | LastWith(p, b, k, j) && !Mentions(p, a, k) :: r == b[j])
  }

  /** `out` is the rows at these positions, in order. */
  ghost predicate Picks(rs: seq<Row>, at: seq<int>, out: seq<Row>) {
    && |at| == |out|
    && (forall n, m | 0 <= n < m < |at| :: at[n] < at[m])
    && (forall n | 0 <= n < |at| :: 0 <= at[n] < |rs| && out[n] == rs[at[n]])
  }

  predicate NullKeyed(p: Plan, r: Row) {
    exists c | c in p.keyColumns :: Cell(r, c) == Null
  }

  /** `out` is the rows with a null in their key, in order. */
  ghost predicate NullKeyedRows(p: Plan, rs: seq<Row>, out: seq<Row>) {
    exists at :: Picks(rs, at, out) && forall i :: i in at <==> 0 <= i < |rs| && NullKeyed(p, rs[i])
  }

  predicate NewHash(hash: Row -> string, rs: seq<Row>, i: int) {
    0 <= i < |rs| && forall j | 0 <= j < i :: hash(rs[j]) != hash(rs[i])
  }

  /** `out` is the rows whose hash no earlier row has, in order. */
  ghost predicate FirstOfEachHash(hash: Row -> string, rs: seq<Row>, out: seq<Row>) {
    exists at :: Picks(rs, at, out) && forall i :: i in at <==> NewHash(hash, rs, i)
  }

  ghost predicate KeysOfBoth(p: Plan, a: seq<Row>, b: seq<Row>, ks: seq<Key>) {
    && Ascending(p.leq, ks)
    && forall k :: k in ks <==> Null !in k && (Mentions(p, a, k) || Mentions(p, b, k))
  }

  /** What the merge lists before duplicate removal: one row for each key without nulls, in key order, then the rows
      with a null in their key, first those of `a`. */
  ghost predicate ListsRows(p: Plan, a: seq<Row>, b: seq<Row>, listed: seq<Row>) {
    exists ks, keyed, u, v ::
      KeysOfBoth(p, a, b, ks) && ListedRows(p, a, b, ks, keyed) && NullKeyedRows(p, a, u) && NullKeyedRows(p, b, v)
      && listed == keyed + (u + v)
  }

  ghost predicate ListedRows(p: Plan, a: seq<Row>, b: seq<Row>, ks: seq<Key>, keyed: seq<Row>) {
    |keyed| == |ks| && forall n | 0 <= n < |ks| :: ListedRow(p, a, b, ks[n], keyed[n])
  }

  lemma CellIsMerged(p: Plan, c: Column, x: Row, y: Row)
    ensures MergedCell(p, c, x, y, MergeCell(p, c, x, y))
  {
    var vx, vy := Cell(x, c), Cell(y, c);
    Lex.Total(p.text(vx), p.text(vy));
    Lex.Total(NormalText(p, vx), NormalText(p, vy));
    Lex.Reflexive(p.text(vx));
    Lex.Reflexive(p.text(vy));
    Lex.Reflexive(NormalText(p, vx));
    Lex.Reflexive(NormalText(p, vy));
    if Lex.Leq(p.text(vx), p.text(vy)) && Lex.Leq(p.text(vy), p.text(vx)) {
      Lex.Antisymmetric(p.text(vx), p.text(vy));
    }
  }

  lemma KeyIsComposite(p: Plan, r: Row, k: Key)
    ensures HasKey(p, r, k) <==> k == CompositeKey(p, r)
    ensures Null in CompositeKey(p, r) <==> NullKeyed(p, r)
  {
    var key := CompositeKey(p, r);
    forall i | 0 <= i < |key| ensures key[i] == Normal(p, Cell(r, p.keyColumns[i])) {}
    if NullKeyed(p, r) {
      var c :| c in p.keyColumns && Cell(r, c) == Null;
      var i :| 0 <= i < |p.keyColumns| && p.keyColumns[i] == c;
      assert key[i] == Null;
    }
    if HasKey(p, r, k) {
      assert forall i | 0 <= i < |k| :: k[i] == key[i];
    }
  }

  /** The index holds the last row of every key without nulls. */
  lemma {:induction false} IndexIsLast(p: Plan, rs: seq<Row>, k: Key)
    ensures k in IndexOf(p, rs) <==> Null !in k && Mentions(p, rs, k)
    ensures k in IndexOf(p, rs) ==> forall i | LastWith(p, rs, k, i) :: IndexOf(p, rs)[k] == rs[i]
    decreases |rs|
  {
    if rs != [] {
      var n := |rs| - 1;
      IndexIsLast(p, rs[..n], k);
      KeyIsComposite(p, rs[n], k);
      assert rs == rs[..n] + [rs[n]];
      LastInPrefix(p, rs, k);
    }
  }

  lemma LastInPrefix(p: Plan, rs: seq<Row>, k: Key)
    requires rs != []
    ensures var n := |rs| - 1;
            forall i | LastWith(p, rs, k, i) :: if HasKey(p, rs[n], k) then i == n else LastWith(p, rs[..n], k, i) && rs[..n][i] == rs[i]
  {
    var n := |rs| - 1;
    forall i | LastWith(p, rs, k, i) && !HasKey(p, rs[n], k) ensures LastWith(p, rs[..n], k, i) && rs[..n][i] == rs[i] {
      forall j | i < j < n ensures !HasKey(p, rs[..n][j], k) {
        assert rs[..n][j] == rs[j];
      }
    }
  }

  lemma MergedIsListed(p: Plan, a: seq<Row>, b: seq<Row>, k: Key)
    requires k in IndexOf(p, a) || k in IndexOf(p, b)
    ensures ListedRow(p, a, b, k, MergedAt(p, IndexOf(p, a), IndexOf(p, b), ColumnsOf(a) + ColumnsOf(b), k))
  {
    IndexIsLast(p, a, k);
    IndexIsLast(p, b, k);
    var columns := ColumnsOf(a) + ColumnsOf(b);
    forall i, j | LastWith(p, a, k, i) && LastWith(p, b, k, j)
      ensures MergedOf(p, a, b, a[i], b[j], MergeRow(p, a[i], b[j], columns))
    {
      forall c ensures MergedCell(p, c, a[i], b[j], MergeCell(p, c, a[i], b[j])) {
        CellIsMerged(p, c, a[i], b[j]);
      }
    }
    forall i | LastWith(p, a, k, i) ensures Mentions(p, a, k) {
      assert a[i] in a;
    }
    forall j | LastWith(p, b, k, j) ensures Mentions(p, b, k) {
      assert b[j] in b;
    }
  }

  lemma PicksMore(rs: seq<Row>, at: seq<int>, out: seq<Row>, last: Row)
    requires Picks(rs, at, out)
    ensures Picks(rs + [last], at, out) && Picks(rs + [last], at + [|rs|], out + [last])
  {
  }

  lemma {:induction false} NullRowsPicked(p: Plan, rs: seq<Row>) returns (at: seq<int>)
    ensures Picks(rs, at, NullRows(p, rs)) && forall i :: i in at <==> 0 <= i < |rs| && NullKeyed(p, rs[i])
    decreases |rs|
  {
    if rs == [] {
      at := [];
    } else {
      var n := |rs| - 1;
      var before := NullRowsPicked(p, rs[..n]);
      KeyIsComposite(p, rs[n], CompositeKey(p, rs[n]));
      PicksMore(rs[..n], before, NullRows(p, rs[..n]), rs[n]);
      assert rs == rs[..n] + [rs[n]];
      at := if NullKeyed(p, rs[n]) then before + [n] else before;
    }
  }

  lemma {:induction false} DedupPicked(hash: Row -> string, rs: seq<Row>) returns (at: seq<int>)
    ensures Picks(rs, at, Dedup(hash, rs)) && forall i :: i in at <==> NewHash(hash, rs, i)
    decreases |rs|
  {
    if rs == [] {
      at := [];
    } else {
      var init, last := rs[..|rs| - 1], rs[|rs| - 1];
      var before := DedupPicked(hash, init);
      PicksMore(init, before, Dedup(hash, init), last);
      assert rs == init + [last];
      at := if Seen(hash, init, hash(last)) then before else before + [|init|];
      forall i ensures i in at <==> NewHash(hash, rs, i) {
        NewHashSnoc(hash, init, last, i);
      }
    }
  }

  lemma NewHashSnoc(hash: Row -> string, init: seq<Row>, last: Row, i: int)
    ensures NewHash(hash, init + [last], i) <==> NewHash(hash, init, i) || (i == |init| && !Seen(hash, init, hash(last)))
  {
    var rs := init + [last];
    if i == |init| {
      if j :| 0 <= j < i && hash(rs[j]) == hash(last) {
        assert init[j] in init;
      }
      if r :| r in init && hash(r) == hash(last) {
        var j :| 0 <= j < |init| && init[j] == r;
        assert rs[j] == r;
      }
    } else if 0 <= i < |init| {
      assert forall j | 0 <= j <= i :: rs[j] == init[j];
    }
  }

  lemma {:induction false} MergedRowsAt(p: Plan, x: Index, y: Index, columns: set<Column>, ks: seq<Key>, n: int)
    requires Covers(x, y, ks) && 0 <= n < |ks|
    ensures |MergedRows(p, x, y, columns, ks)| == |ks|
    ensures MergedRows(p, x, y, columns, ks)[n] == MergedAt(p, x, y, columns, ks[n])
    decreases |ks|
  {
    var m := |ks| - 1;
    if n < m {
      MergedRowsAt(p, x, y, columns, ks[..m], n);
    } else if m > 0 {
      MergedRowsAt(p, x, y, columns, ks[..m], 0);
    }
  }

  lemma KeysAreBoth(p: Plan, a: seq<Row>, b: seq<Row>)
    requires WellOrdered(p)
    ensures KeysOfBoth(p, a, b, SortedKeysOf(p, IndexOf(p, a), IndexOf(p, b)))
  {
    forall k ensures k in SortedKeysOf(p, IndexOf(p, a), IndexOf(p, b)) <==>
                     Null !in k && (Mentions(p, a, k) || Mentions(p, b, k)) {
      IndexIsLast(p, a, k);
      IndexIsLast(p, b, k);
    }
  }

  lemma KeyedRightly(p: Plan, a: seq<Row>, b: seq<Row>)
    requires WellOrdered(p)
    ensures var x, y := IndexOf(p, a), IndexOf(p, b);
            ListedRows(p, a, b, SortedKeysOf(p, x, y), ByKey(p, x, y, ColumnsOf(a) + ColumnsOf(b)))
  {
    var x, y, columns := IndexOf(p, a), IndexOf(p, b), ColumnsOf(a) + ColumnsOf(b);
    var ks := SortedKeysOf(p, x, y);
    assert ks == [] ==> ByKey(p, x, y, columns) == [];
    forall n | 0 <= n < |ks|
      ensures |ByKey(p, x, y, columns)| == |ks| && ListedRow(p, a, b, ks[n], ByKey(p, x, y, columns)[n])
    {
      MergedRowsAt(p, x, y, columns, ks, n);
      MergedIsListed(p, a, b, ks[n]);
    }
  }

  /** The merge lists exactly that. */
  lemma ListedRightly(p: Plan, a: seq<Row>, b: seq<Row>)
    requires WellOrdered(p)
    ensures ListsRows(p, a, b, Listed(p, a, b))
  {
    var ks, u, v := SortedKeysOf(p, IndexOf(p, a), IndexOf(p, b)), NullRows(p, a), NullRows(p, b);
    KeysAreBoth(p, a, b);
    KeyedRightly(p, a, b);
    var _ := NullRowsPicked(p, a);
    var _ := NullRowsPicked(p, b);
  }

  lemma KeptRightly(hash: Row -> string, rs: seq<Row>)
    ensures FirstOfEachHash(hash, rs, Dedup(hash, rs))
  {
    var _ := DedupPicked(hash, rs);
  }

  /** No key on both sides has cells that only the side tells apart. */
  predicate NeutralIn(p: Plan, x: Index, y: Index, columns: set<Column>) {
    forall k, c | k in x && k in y && c in columns :: NeutralAt(p, c, x[k], y[k])
  }

  /** What makes a merge independent of the order of its arguments: no shared key has cells that only the side tells
      apart, and the rows without a key read the same in both orders. */
  ghost predicate Symmetric(p: Plan, a: seq<Row>, b: seq<Row>) {
    && NeutralIn(p, IndexOf(p, a), IndexOf(p, b), ColumnsOf(a) + ColumnsOf(b))
    && NullRows(p, a) + NullRows(p, b) == NullRows(p, b) + NullRows(p, a)
  }

  /** Before duplicate removal, merging in the other order gives the same list exactly when the inputs are symmetric. */
  lemma ListedCommutesIff(p: Plan, a: seq<Row>, b: seq<Row>)
    requires WellOrdered(p)
    ensures Listed(p, a, b) == Listed(p, b, a) <==> Symmetric(p, a, b)
  {
    var x, y, columns := IndexOf(p, a), IndexOf(p, b), ColumnsOf(a) + ColumnsOf(b);
    assert columns == ColumnsOf(b) + ColumnsOf(a);
    ByKeyCommutesIff(p, x, y, columns);
    EqualParts(ByKey(p, x, y, columns), NullRows(p, a) + NullRows(p, b), ByKey(p, y, x, columns), NullRows(p, b) + NullRows(p, a));
  }

  lemma EqualParts(u: seq<Row>, v: seq<Row>, x: seq<Row>, y: seq<Row>)
    requires |u| == |x|
    ensures u + v == x + y <==> u == x && v == y
  {
    assert (u + v)[..|u|] == u && (u + v)[|u|..] == v;
    assert (x + y)[..|x|] == x && (x + y)[|x|..] == y;
  }

  lemma ByKeyCommutesIff(p: Plan, x: Index, y: Index, columns: set<Column>)
    requires WellOrdered(p)
    ensures |ByKey(p, x, y, columns)| == |ByKey(p, y, x, columns)|
    ensures ByKey(p, x, y, columns) == ByKey(p, y, x, columns) <==> NeutralIn(p, x, y, columns)
  {
    assert x.Keys + y.Keys == y.Keys + x.Keys;
    var ks := SortedKeysOf(p, x, y);
    MergedRowsCommuteIff(p, x, y, columns, ks);
    forall k | k in x && k in y ensures exists i :: 0 <= i < |ks| && ks[i] == k {
      assert k in ks;
    }
    assert NeutralIn(p, x, y, columns) <==> forall k | k in x && k in y :: NeutralOn(p, x, y, columns, k);
  }

  ghost predicate NeutralOn(p: Plan, x: Index, y: Index, columns: set<Column>, k: Key) {
    k in x && k in y ==> forall c | c in columns :: NeutralAt(p, c, x[k], y[k])
  }

  lemma MergedCommutesIff(p: Plan, x: Index, y: Index, columns: set<Column>, k: Key)
    requires k in x || k in y
    ensures MergedAt(p, x, y, columns, k) == MergedAt(p, y, x, columns, k) <==> NeutralOn(p, x, y, columns, k)
  {
    if k in x && k in y {
      RowCommutesIff(p, x[k], y[k], columns);
    }
  }

  lemma {:induction false} MergedRowsCommuteIff(p: Plan, x: Index, y: Index, columns: set<Column>, ks: seq<Key>)
    requires Covers(x, y, ks) && Covers(y, x, ks)
    ensures |MergedRows(p, x, y, columns, ks)| == |MergedRows(p, y, x, columns, ks)|
    ensures MergedRows(p, x, y, columns, ks) == MergedRows(p, y, x, columns, ks) <==>
            AllNeutral(p, x, y, columns, ks)
    decreases |ks|
  {
    if ks != [] {
      var n := |ks| - 1;
      MergedRowsCommuteIff(p, x, y, columns, ks[..n]);
      MergedCommutesIff(p, x, y, columns, ks[n]);
      EqualParts(MergedRows(p, x, y, columns, ks[..n]), [MergedAt(p, x, y, columns, ks[n])],
                 MergedRows(p, y, x, columns, ks[..n]), [MergedAt(p, y, x, columns, ks[n])]);
      LastApart(p, x, y, columns, ks[..n], ks[n]);
      assert ks == ks[..n] + [ks[n]];
    }
  }

  ghost predicate AllNeutral(p: Plan, x: Index, y: Index, columns: set<Column>, ks: seq<Key>) {
    forall i | 0 <= i < |ks| :: NeutralOn(p, x, y, columns, ks[i])
  }

  lemma LastApart(p: Plan, x: Index, y: Index, columns: set<Column>, init: seq<Key>, last: Key)
    ensures AllNeutral(p, x, y, columns, init + [last]) <==> AllNeutral(p, x, y, columns, init) && NeutralOn(p, x, y, columns, last)
  {
    var ks := init + [last];
    assert ks[|init|] == last && forall i | 0 <= i < |init| :: ks[i] == init[i];
  }

  /** Symmetric inputs merge to the same rows in either order. */
  lemma OrderIrrelevant(p: Plan, a: seq<Row>, b: seq<Row>)
    requires WellOrdered(p) && Symmetric(p, a, b)
    ensures SequentialRows(p, a, b) == SequentialRows(p, b, a)
  {
    ListedCommutesIff(p, a, b);
  }

  /** When duplicate removal has nothing to do, only symmetric inputs do. */
  lemma OrderIrrelevantIff(p: Plan, a: seq<Row>, b: seq<Row>)
    requires WellOrdered(p) && OneEach(p.hash, Listed(p, a, b)) && OneEach(p.hash, Listed(p, b, a))
    ensures SequentialRows(p, a, b) == SequentialRows(p, b, a) <==> Symmetric(p, a, b)
  {
    NothingDroppedIff(p, a, b);
    NothingDroppedIff(p, b, a);
    ListedCommutesIff(p, a, b);
  }
}
