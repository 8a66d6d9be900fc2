/**
 Executing a merge query: a keyed fold of the source rows with the WHERE filter pushed in front of it, column
 renaming and LIMIT, against the plain reading that merges first and filters afterwards.

 A WHERE clause is its parsed form; a leaf may raise, as a failing evaluation does. `rename` is MAP on one row.
*/
module MergeQL {
  import opened Options
  import opened Rows

  // ---- WHERE ----

  datatype Verdict = Yes | No | Raises

  datatype Where =
    | Test(field: Column, verdict: Value -> Verdict)
    | Or(left: Where, right: Where)
    | And(left: Where, right: Where)
    | Always

  function Eval(w: Where, r: Row): Verdict {
    match w
    case Test(field, verdict) => verdict(Cell(r, field))
    case Or(left, right) => (match Eval(left, r) case Yes => Yes case No => Eval(right, r) case Raises => Raises)
    case And(left, right) => (match Eval(left, r) case Yes => Eval(right, r) case No => No case Raises => Raises)
    case Always => Yes
  }

  function Fields(w: Where): set<Column> {
    match w
    case Test(field, _) => {field}
    case Or(left, right) => Fields(left) + Fields(right)
    case And(left, right) => Fields(left) + Fields(right)
    case Always => {}
  }

  predicate ReadsOnlyKey(w: Where, key: Column) {
    Fields(w) <= {key}
  }

  /** A clause is decided by the cells of the fields it names. */
  lemma {:induction false} EvalReadsFields(w: Where, r: Row, s: Row)
    requires forall c | c in Fields(w) :: Cell(r, c) == Cell(s, c)
    ensures Eval(w, r) == Eval(w, s)
  {
    match w
    case Test(field, _) =>
    case Or(left, right) => EvalReadsFields(left, r, s); EvalReadsFields(right, r, s);
    case And(left, right) => EvalReadsFields(left, r, s); EvalReadsFields(right, r, s);
    case Always =>
  }

  // ---- what a clause means ----

  /** The clauses joined by OR, and joined by AND. */
  function AnyOf(ws: seq<Where>): Where
    requires ws != []
    decreases |ws|
  {
    if |ws| == 1 then ws[0] else Or(ws[0], AnyOf(ws[1..]))
  }

  function AllOf(ws: seq<Where>): Where
    requires ws != []
    decreases |ws|
  {
    if |ws| == 1 then ws[0] else And(ws[0], AllOf(ws[1..]))
  }

  /** Clause `n` is the first that does not say `skip`, and says `v`. */
  ghost predicate SettledAt(ws: seq<Where>, r: Row, skip: Verdict, v: Verdict, n: int) {
    0 <= n < |ws| && Eval(ws[n], r) == v && forall m | 0 <= m < n :: Eval(ws[m], r) == skip
  }

  ghost predicate Settled(ws: seq<Where>, r: Row, skip: Verdict, v: Verdict) {
    exists n :: SettledAt(ws, r, skip, v, n)
  }

  lemma SettledCons(ws: seq<Where>, r: Row, skip: Verdict, v: Verdict)
    requires ws != [] && v != skip
    ensures Settled(ws, r, skip, v) <==> Eval(ws[0], r) == v || (Eval(ws[0], r) == skip && Settled(ws[1..], r, skip, v))
  {
    if Eval(ws[0], r) == v {
      assert SettledAt(ws, r, skip, v, 0);
    }
    if Eval(ws[0], r) == skip {
      if n :| SettledAt(ws[1..], r, skip, v, n) {
        assert SettledAt(ws, r, skip, v, n + 1);
      }
      if n :| SettledAt(ws, r, skip, v, n) {
        forall m | 0 <= m < n - 1 ensures Eval(ws[1..][m], r) == skip {
          assert ws[1..][m] == ws[m + 1];
        }
        assert SettledAt(ws[1..], r, skip, v, n - 1);
      }
    }
  }

  /** A disjunction says Yes exactly when some clause does and all before it say No, raises exactly when some clause
      raises and all before it say No, and otherwise says No. */
  lemma {:induction false} AnyOfMeans(ws: seq<Where>, r: Row)
    requires ws != []
    ensures Eval(AnyOf(ws), r) ==
            if Settled(ws, r, No, Yes) then Yes else if Settled(ws, r, No, Raises) then Raises else No
    decreases |ws|
  {
    SettledCons(ws, r, No, Yes);
    SettledCons(ws, r, No, Raises);
    if |ws| > 1 { AnyOfMeans(ws[1..], r); }
  }

  /** A conjunction says No exactly when some clause does and all before it say Yes, raises exactly when some clause
      raises and all before it say Yes, and otherwise says Yes. */
  lemma {:induction false} AllOfMeans(ws: seq<Where>, r: Row)
    requires ws != []
    ensures Eval(AllOf(ws), r) ==
            if Settled(ws, r, Yes, No) then No else if Settled(ws, r, Yes, Raises) then Raises else Yes
    decreases |ws|
  {
    SettledCons(ws, r, Yes, No);
    SettledCons(ws, r, Yes, Raises);
    if |ws| > 1 { AllOfMeans(ws[1..], r); }
  }

  /** A leaf is decided by the cell it names, and a clause that is no condition passes every row. */
  lemma LeafMeans(field: Column, verdict: Value -> Verdict, r: Row)
    ensures Eval(Test(field, verdict), r) == verdict(if field in r then r[field] else Null)
    ensures Eval(Always, r) == Yes
  {
  }

  // ---- the insertion-ordered dict of rows by key ----

  datatype Entry = Entry(key: Value, row: Row)

  type Keyed = seq<Entry>

  /** Merges the row into the entry of its key, or appends an entry. */
  function Put(p: Policy, kd: Keyed, k: Value, r: Row): Keyed {
    if kd == [] then [Entry(k, r)]
    else if kd[0].key == k then [Entry(k, Merge(p, kd[0].row, r))] + kd[1..]
    else [kd[0]] + Put(p, kd[1..], k, r)
  }

  /** Rows without a key are skipped. */
  function Absorb(p: Policy, key: Column, kd: Keyed, r: Row): Keyed {
    if Cell(r, key) == Null then kd else Put(p, kd, Cell(r, key), r)
  }

  function Fold(p: Policy, key: Column, rows: seq<Row>): Keyed {
    if rows == [] then [] else Absorb(p, key, Fold(p, key, rows[..|rows| - 1]), rows[|rows| - 1])
  }

  function Values(kd: Keyed): seq<Row> {
    if kd == [] then [] else [kd[0].row] + Values(kd[1..])
  }

  // ---- results ----

  datatype Filtered = Kept(rows: seq<Row>) | Raised

  /** The rows that pass; raises as soon as one evaluation does. */
  function Filter(w: Where, rows: seq<Row>): Filtered {
    if rows == [] then Kept([])
    else
      match Eval(w, rows[0])
      case Raises => Raised
      case No => Filter(w, rows[1..])
      case Yes => (match Filter(w, rows[1..]) case Raised => Raised case Kept(rest) => Kept([rows[0]] + rest))
  }

  datatype Query = Query(key: Column, filter: Option<Where>, rename: Row -> Row, limit: Option<int>)

  function Renamed(rename: Row -> Row, rows: seq<Row>): seq<Row> {
    seq(|rows|, i requires 0 <= i < |rows| => rename(rows[i]))
  }

  /** Python's `rows[:limit]`: a negative limit counts from the end. */
  function Limited(rows: seq<Row>, limit: Option<int>): seq<Row> {
    match limit
    case None => rows
    case Some(n) =>
      var stop := if n < 0 then |rows| + n else n;
      if stop < 0 then [] else if stop > |rows| then rows else rows[..stop]
  }

  /** A limit keeps rows from the front: that many, or all but that many if it is negative. */
  lemma LimitKeepsFront(rows: seq<Row>, limit: Option<int>)
    ensures Limited(rows, limit) <= rows
    ensures limit.None? ==> Limited(rows, limit) == rows
    ensures limit.Some? && limit.value >= 0 ==>
              |Limited(rows, limit)| == if limit.value < |rows| then limit.value else |rows|
    ensures limit.Some? && limit.value < 0 ==>
              |Limited(rows, limit)| == if |rows| + limit.value > 0 then |rows| + limit.value else 0
  {
  }

  function Finished(q: Query, f: Filtered): Filtered {
    match f
    case Raised => Raised
    case Kept(rows) => Kept(Limited(Renamed(q.rename, rows), q.limit))
  }

  /** Merge everything, then filter, rename and cut. */
  function MergeThenFilter(p: Policy, q: Query, sources: seq<seq<Row>>): Filtered {
    var rows := Values(Fold(p, q.key, Flatten(sources)));
    Finished(q, if q.filter.Some? then Filter(q.filter.value, rows) else Kept(rows))
  }

  /** What the scan has absorbed, and whether it is still filtering. */
  datatype Scan = Scan(keyed: Keyed, pushing: bool)

  /** While pushing, failing rows are dropped; the first evaluation that raises ends the pushing for good, and its
      own row is absorbed. */
  function ScanRow(p: Policy, key: Column, w: Where, s: Scan, r: Row): Scan {
    if !s.pushing then Scan(Absorb(p, key, s.keyed, r), false)
    else
      match Eval(w, r)
      case No => s
      case Yes => Scan(Absorb(p, key, s.keyed, r), true)
      case Raises => Scan(Absorb(p, key, s.keyed, r), false)
  }

  function ScanAll(p: Policy, key: Column, w: Where, rows: seq<Row>): Scan {
    if rows == [] then Scan([], true)
    else ScanRow(p, key, w, ScanAll(p, key, w, rows[..|rows| - 1]), rows[|rows| - 1])
  }

  function FilterThenMerge(p: Policy, q: Query, w: Where, sources: seq<seq<Row>>): Filtered {
    var s := ScanAll(p, q.key, w, Flatten(sources));
    Finished(q, if s.pushing then Kept(Values(s.keyed)) else Filter(w, Values(s.keyed)))
  }

  // ---- the engine ----

  method ScanSources(p: Policy, q: Query, sources: seq<seq<Row>>) returns (keyed: Keyed, pushing: bool)
    ensures q.filter.Some? ==> Scan(keyed, pushing) == ScanAll(p, q.key, q.filter.value, Flatten(sources))
    ensures q.filter.None? ==> keyed == Fold(p, q.key, Flatten(sources)) && !pushing
  {
    keyed, pushing := [], q.filter.Some?;
    for i := 0 to |sources|
      invariant q.filter.Some? ==> Scan(keyed, pushing) == ScanAll(p, q.key, q.filter.value, Flatten(sources[..i]))
      invariant q.filter.None? ==> keyed == Fold(p, q.key, Flatten(sources[..i])) && !pushing
    {
      ghost var before := Flatten(sources[..i]);
      var rows := sources[i];
      assert before + rows[..0] == before;
      for j := 0 to |rows|
        invariant q.filter.Some? ==> Scan(keyed, pushing) == ScanAll(p, q.key, q.filter.value, before + rows[..j])
        invariant q.filter.None? ==> keyed == Fold(p, q.key, before + rows[..j]) && !pushing
      {
        OneRowMore(before, rows, j);
        var row := rows[j];
        var skip := false;
        if pushing {
          match Eval(q.filter.value, row)
          case No => skip := true;
          case Raises => pushing := false;
          case Yes =>
        }
        if !skip {
          keyed := Absorb(p, q.key, keyed, row);
        }
      }
      assert rows[..|rows|] == rows;
      OneSourceMore(sources, i);
    }
    assert sources[..|sources|] == sources;
  }

  lemma OneRowMore(before: seq<Row>, rows: seq<Row>, j: nat)
    requires j < |rows|
    ensures var next := before + rows[..j + 1]; next[..|next| - 1] == before + rows[..j] && next[|next| - 1] == rows[j]
  {
  }

  lemma OneSourceMore(sources: seq<seq<Row>>, i: nat)
    requires i < |sources|
    ensures Flatten(sources[..i + 1]) == Flatten(sources[..i]) + sources[i]
  {
    assert sources[..i + 1][..i] == sources[..i];
  }

  method FilterRows(w: Where, rows: seq<Row>) returns (f: Filtered)
    ensures f == Filter(w, rows)
  {
    var kept: seq<Row> := [];
    for i := 0 to |rows|
      invariant Filter(w, rows) == After(kept, Filter(w, rows[i..]))
    {
      assert rows[i..][1..] == rows[i + 1..];
      match Eval(w, rows[i])
      case Raises => return Raised;
      case No =>
      case Yes =>
        assert forall rest :: kept + ([rows[i]] + rest) == kept + [rows[i]] + rest;
        kept := kept + [rows[i]];
    }
    assert kept + [] == kept;
    f := Kept(kept);
  }

  ghost function After(kept: seq<Row>, f: Filtered): Filtered {
    match f case Raised => Raised case Kept(rest) => Kept(kept + rest)
  }

  /** Running a query gives the filtered-then-merged rows; when the key decides the filter, those are the
      merged-then-filtered rows, in the same order, or both raise. */
  method ExecuteMerge(p: Policy, q: Query, sources: seq<seq<Row>>) returns (f: Filtered)
    ensures f == if q.filter.Some? then FilterThenMerge(p, q, q.filter.value, sources) else MergeThenFilter(p, q, sources)
    ensures q.filter.None? || KeyDecides(q.filter.value, q.key) ==> f == MergeThenFilter(p, q, sources)
  {
    var keyed, pushing := ScanSources(p, q, sources);
    var rows := Values(keyed);
    if q.filter.Some? && !pushing {
      f := FilterRows(q.filter.value, rows);
      if f.Raised? {
        PushdownAgreesIfDecided(p, q, sources);
        return;
      }
      rows := f.rows;
    }
    f := Kept(Limited(Renamed(q.rename, rows), q.limit));
    PushdownAgreesIfDecided(p, q, sources);
  }

  lemma PushdownAgreesIfDecided(p: Policy, q: Query, sources: seq<seq<Row>>)
    ensures q.filter.Some? && KeyDecides(q.filter.value, q.key) ==>
            FilterThenMerge(p, q, q.filter.value, sources) == MergeThenFilter(p, q, sources)
  {
    if q.filter.Some? && KeyDecides(q.filter.value, q.key) {
      PushdownAgrees(p, q, q.filter.value, sources);
    }
  }

  // ---- what the fold holds ----

  /** The rows of key `k`, in order. */
  function RowsAt(rows: seq<Row>, key: Column, k: Value): seq<Row> {
    if rows == [] then []
    else RowsAt(rows[..|rows| - 1], key, k) + if Cell(rows[|rows| - 1], key) == k then [rows[|rows| - 1]] else []
  }

  /** `r` is what the rows of one key come to: each joined to what those before it came to. */
  ghost predicate Gathers(p: Policy, rs: seq<Row>, r: Row)
    decreases |rs|
  {
    if |rs| <= 1 then rs == [r]
    else
      var init, last := rs[..|rs| - 1], rs[|rs| - 1];
      exists prior: Row :: Gathers(p, init, prior) && JoinedOver(p, prior, last, prior.Keys + last.Keys, r)
  }

  ghost predicate EntryFor(kd: Keyed, k: Value, e: Entry) {
    e in kd && e.key == k
  }

  lemma GathersOne(p: Policy, r: Row)
    ensures Gathers(p, [r], r)
  {
  }

  lemma GathersMore(p: Policy, rs: seq<Row>, prior: Row, last: Row)
    requires rs != [] && Gathers(p, rs, prior)
    ensures Gathers(p, rs + [last], Merge(p, prior, last))
  {
    ResolvedIsJoined(p, prior, last, prior.Keys + last.Keys);
    assert (rs + [last])[..|rs|] == rs;
  }

  /** Putting a row makes, or joins it to, the entry of its key and leaves the others alone. */
  lemma {:induction false} PutEntry(p: Policy, kd: Keyed, k: Value, r: Row, e: Entry)
    requires DistinctKeys(kd)
    ensures e in Put(p, kd, k, r) <==>
            if e.key != k then e in kd
            else if k in KeysOf(kd) then exists was :: EntryFor(kd, k, was) && e == Entry(k, Merge(p, was.row, r))
            else e == Entry(k, r)
    decreases |kd|
  {
    if kd != [] {
      assert kd == [kd[0]] + kd[1..];
      KeysSplit(kd[0], kd[1..]);
      KeyElsewhere(kd);
      if kd[0].key == k {
        assert EntryFor(kd, k, kd[0]);
        assert forall x | x in kd[1..] :: x.key != k;
      } else {
        PutEntry(p, kd[1..], k, r, e);
        assert forall x :: EntryFor(kd, k, x) <==> EntryFor(kd[1..], k, x);
      }
    }
  }

  /** The fold has one entry for exactly the keys in the rows, null apart, and gathers all rows of a key in order. */
  lemma {:induction false} FoldGathers(p: Policy, key: Column, rows: seq<Row>, k: Value)
    ensures var kd := Fold(p, key, rows);
            && DistinctKeys(kd) && (k in KeysOf(kd) <==> k != Null && RowsAt(rows, key, k) != [])
            && forall e | EntryFor(kd, k, e) :: Gathers(p, RowsAt(rows, key, k), e.row)
    decreases |rows|
  {
    if rows != [] {
      var init, last := rows[..|rows| - 1], rows[|rows| - 1];
      FoldGathers(p, key, init, k);
      var kd, l := Fold(p, key, init), Cell(last, key);
      if l != Null {
        PutKeys(p, kd, l, last);
        forall e | EntryFor(Put(p, kd, l, last), k, e) ensures Gathers(p, RowsAt(rows, key, k), e.row) {
          PutEntry(p, kd, l, last, e);
          GathersNext(p, key, init, last, kd, e);
        }
      } else if k != Null {
        assert RowsAt(rows, key, k) == RowsAt(init, key, k);
      } else {
        assert forall e :: !EntryFor(kd, Null, e);
      }
    }
  }

  lemma GathersNext(p: Policy, key: Column, init: seq<Row>, last: Row, kd: Keyed, e: Entry)
    requires Cell(last, key) != Null
    requires e.key in KeysOf(kd) <==> RowsAt(init, key, e.key) != []
    requires forall x | EntryFor(kd, e.key, x) :: Gathers(p, RowsAt(init, key, e.key), x.row)
    requires if e.key != Cell(last, key) then e in kd
             else if e.key in KeysOf(kd) then exists was :: EntryFor(kd, e.key, was) && e == Entry(e.key, Merge(p, was.row, last))
             else e == Entry(e.key, last)
    ensures Gathers(p, RowsAt(init, key, e.key) + (if Cell(last, key) == e.key then [last] else []), e.row)
  {
    var rs := RowsAt(init, key, e.key);
    if e.key != Cell(last, key) {
      assert EntryFor(kd, e.key, e);
      assert rs + [] == rs;
    } else if e.key in KeysOf(kd) {
      var was :| EntryFor(kd, e.key, was) && e == Entry(e.key, Merge(p, was.row, last));
      GathersMore(p, rs, was.row, last);
    } else {
      GathersOne(p, last);
      assert rs + [last] == [last];
    }
  }

  lemma {:induction false} RowsAtHold(rows: seq<Row>, key: Column, k: Value)
    ensures RowsAt(rows, key, k) != [] <==> exists r :: r in rows && Cell(r, key) == k
    decreases |rows|
  {
    if rows != [] {
      RowsAtHold(rows[..|rows| - 1], key, k);
      assert rows == rows[..|rows| - 1] + [rows[|rows| - 1]];
    }
  }

  /** Some source has a row of key `k`. */
  ghost predicate InSources(sources: seq<seq<Row>>, key: Column, k: Value) {
    exists i, r :: 0 <= i < |sources| && r in sources[i] && Cell(r, key) == k
  }

  lemma InSourcesIff(sources: seq<seq<Row>>, key: Column, k: Value)
    ensures InSources(sources, key, k) <==> RowsAt(Flatten(sources), key, k) != []
  {
    RowsAtHold(Flatten(sources), key, k);
    if InSources(sources, key, k) {
      var i, r :| 0 <= i < |sources| && r in sources[i] && Cell(r, key) == k;
      FlattenHolds(sources, r);
    }
    if r :| r in Flatten(sources) && Cell(r, key) == k {
      FlattenHolds(sources, r);
    }
  }

  /** The entries stand in the order in which their keys first appear. */
  ghost predicate FirstSeenBefore(rows: seq<Row>, key: Column, k: Value, l: Value) {
    exists n :: 0 <= n < |rows| && Cell(rows[n], key) == k && forall m | 0 <= m <= n :: Cell(rows[m], key) != l
  }

  lemma SeenBeforeStays(rows: seq<Row>, key: Column, k: Value, l: Value)
    requires rows != [] && FirstSeenBefore(rows[..|rows| - 1], key, k, l)
    ensures FirstSeenBefore(rows, key, k, l)
  {
    var init := rows[..|rows| - 1];
    var n :| 0 <= n < |init| && Cell(init[n], key) == k && forall m | 0 <= m <= n :: Cell(init[m], key) != l;
    assert rows[n] == init[n] && forall m | 0 <= m <= n :: rows[m] == init[m];
  }

  lemma {:induction false} PutPlace(p: Policy, kd: Keyed, k: Value, r: Row, i: int)
    requires 0 <= i < |Put(p, kd, k, r)|
    ensures i < |kd| ==> Put(p, kd, k, r)[i].key == kd[i].key
    ensures i >= |kd| ==> i == |kd| && Put(p, kd, k, r)[i].key == k && k !in KeysOf(kd)
    decreases |kd|
  {
    if kd != [] && kd[0].key != k && i > 0 {
      PutPlace(p, kd[1..], k, r, i - 1);
      assert kd == [kd[0]] + kd[1..];
      KeysSplit(kd[0], kd[1..]);
    }
  }

  lemma {:induction false} FoldInOrder(p: Policy, key: Column, rows: seq<Row>, i: int, j: int)
    requires 0 <= i < j < |Fold(p, key, rows)|
    ensures FirstSeenBefore(rows, key, Fold(p, key, rows)[i].key, Fold(p, key, rows)[j].key)
    decreases |rows|
  {
    var init, last := rows[..|rows| - 1], rows[|rows| - 1];
    var kd, l := Fold(p, key, init), Cell(last, key);
    if l == Null {
      FoldInOrder(p, key, init, i, j);
      SeenBeforeStays(rows, key, kd[i].key, kd[j].key);
    } else {
      PutPlace(p, kd, l, last, i);
      PutPlace(p, kd, l, last, j);
      if j < |kd| {
        FoldInOrder(p, key, init, i, j);
        SeenBeforeStays(rows, key, kd[i].key, kd[j].key);
      } else {
        NewKeyIsLater(p, key, rows, kd[i]);
      }
    }
  }

  /** A key that is new in the last row was first seen after every other. */
  lemma NewKeyIsLater(p: Policy, key: Column, rows: seq<Row>, e: Entry)
    requires rows != [] && e in Fold(p, key, rows[..|rows| - 1])
    requires Cell(rows[|rows| - 1], key) !in KeysOf(Fold(p, key, rows[..|rows| - 1])) + {Null}
    ensures FirstSeenBefore(rows, key, e.key, Cell(rows[|rows| - 1], key))
  {
    var init, l := rows[..|rows| - 1], Cell(rows[|rows| - 1], key);
    FoldGathers(p, key, init, e.key);
    FoldGathers(p, key, init, l);
    RowsAtHold(init, key, e.key);
    RowsAtHold(init, key, l);
    assert e.key in KeysOf(Fold(p, key, init));
    var r :| r in init && Cell(r, key) == e.key;
    var n :| 0 <= n < |init| && init[n] == r;
    assert rows[n] == r;
    forall m | 0 <= m <= n ensures Cell(rows[m], key) != l {
      assert rows[m] == init[m] && init[m] in init;
    }
  }

  // ---- what a query on the key returns ----

  function TestsOn(key: Column, tests: seq<Value -> Verdict>): (ws: seq<Where>)
    ensures |ws| == |tests| && forall n | 0 <= n < |tests| :: ws[n] == Test(key, tests[n])
  {
    seq(|tests|, n requires 0 <= n < |tests| => Test(key, tests[n]))
  }

  ghost predicate Accepts(tests: seq<Value -> Verdict>, k: Value) {
    exists n :: 0 <= n < |tests| && tests[n](k) == Yes
  }

  lemma {:induction false} TestsReadKey(key: Column, tests: seq<Value -> Verdict>)
    requires tests != []
    ensures ReadsOnlyKey(AnyOf(TestsOn(key, tests)), key)
    decreases |tests|
  {
    if |tests| > 1 {
      assert TestsOn(key, tests)[1..] == TestsOn(key, tests[1..]);
      TestsReadKey(key, tests[1..]);
    }
  }

  lemma {:induction false} TestsAccept(key: Column, tests: seq<Value -> Verdict>, r: Row)
    requires tests != [] && forall n | 0 <= n < |tests| :: tests[n](Cell(r, key)) != Raises
    ensures Eval(AnyOf(TestsOn(key, tests)), r) == if Accepts(tests, Cell(r, key)) then Yes else No
    decreases |tests|
  {
    if |tests| > 1 {
      assert TestsOn(key, tests)[1..] == TestsOn(key, tests[1..]);
      TestsAccept(key, tests[1..], r);
      var k := Cell(r, key);
      if n :| 0 <= n < |tests| - 1 && tests[1..][n](k) == Yes {
        assert tests[n + 1](k) == Yes;
      }
      if n :| 0 < n < |tests| && tests[n](k) == Yes {
        assert tests[1..][n - 1](k) == Yes;
      }
    }
  }

  lemma {:induction false} ValuesAt(kd: Keyed, i: int)
    requires 0 <= i < |kd|
    ensures |Values(kd)| == |kd| && Values(kd)[i] == kd[i].row
    decreases |kd|
  {
    if i > 0 {
      ValuesAt(kd[1..], i - 1);
    } else if |kd| > 1 {
      ValuesAt(kd[1..], 0);
    }
  }

  /** The rows have different keys, exactly those that some source has and some test accepts, and each is what the
      source rows of its key come to. */
  ghost predicate Answers(p: Policy, sources: seq<seq<Row>>, key: Column, tests: seq<Value -> Verdict>, rows: seq<Row>) {
    && (forall i, j | 0 <= i < j < |rows| :: Cell(rows[i], key) != Cell(rows[j], key))
    && (forall k :: AnswersKey(rows, key, k) <==> k != Null && InSources(sources, key, k) && Accepts(tests, k))
    && (forall i | 0 <= i < |rows| :: Gathers(p, RowsAt(Flatten(sources), key, Cell(rows[i], key)), rows[i]))
  }

  ghost predicate AnswersKey(rows: seq<Row>, key: Column, k: Value) {
    exists i :: 0 <= i < |rows| && Cell(rows[i], key) == k
  }

  lemma EntryRows(kd: Keyed, key: Column)
    requires WellKeyed(kd, key)
    ensures |Values(kd)| == |kd| && forall i | 0 <= i < |kd| :: Cell(Values(kd)[i], key) == kd[i].key
    ensures forall k :: AnswersKey(Values(kd), key, k) <==> k in KeysOf(kd)
  {
    var rows := Values(kd);
    forall i | 0 <= i < |kd| ensures |rows| == |kd| && Cell(rows[i], key) == kd[i].key {
      ValuesAt(kd, i);
    }
    assert kd == [] ==> rows == [];
    forall k | k in KeysOf(kd) ensures AnswersKey(rows, key, k) {
      var e :| e in kd && e.key == k;
      var i :| 0 <= i < |kd| && kd[i] == e;
      assert Cell(rows[i], key) == k;
    }
  }

  lemma EntriesAnswer(p: Policy, sources: seq<seq<Row>>, key: Column, tests: seq<Value -> Verdict>, sub: Keyed)
    requires WellKeyed(sub, key) && DistinctKeys(sub)
    requires forall e :: e in sub <==> e in Fold(p, key, Flatten(sources)) && Accepts(tests, e.key)
    ensures Answers(p, sources, key, tests, Values(sub))
  {
    var all, rows := Fold(p, key, Flatten(sources)), Values(sub);
    EntryRows(sub, key);
    forall k ensures AnswersKey(rows, key, k) <==> k != Null && InSources(sources, key, k) && Accepts(tests, k) {
      FoldGathers(p, key, Flatten(sources), k);
      InSourcesIff(sources, key, k);
      assert k in KeysOf(sub) <==> k in KeysOf(all) && Accepts(tests, k);
    }
    forall i | 0 <= i < |rows| ensures Gathers(p, RowsAt(Flatten(sources), key, Cell(rows[i], key)), rows[i]) {
      FoldGathers(p, key, Flatten(sources), sub[i].key);
      ValuesAt(sub, i);
      assert EntryFor(all, sub[i].key, sub[i]);
    }
  }

  /** A query that asks for any of some conditions on the key, without MAP and LIMIT. */
  lemma KeyQueryAnswers(p: Policy, q: Query, tests: seq<Value -> Verdict>, sources: seq<seq<Row>>) returns (rows: seq<Row>)
    requires tests != [] && q.filter == Some(AnyOf(TestsOn(q.key, tests)))
    requires q.limit.None? && (forall r :: q.rename(r) == r)
    requires forall n, v | 0 <= n < |tests| :: tests[n](v) != Raises
    ensures FilterThenMerge(p, q, q.filter.value, sources) == Kept(rows) && Answers(p, sources, q.key, tests, rows)
  {
    var w, all := q.filter.value, Fold(p, q.key, Flatten(sources));
    TestsReadKey(q.key, tests);
    KeyOnlyDecides(w, q.key);
    PushdownAgrees(p, q, w, sources);
    FoldKeys(p, q.key, Flatten(sources));
    forall r ensures Eval(w, r) == if Accepts(tests, Cell(r, q.key)) then Yes else No {
      TestsAccept(q.key, tests, r);
    }
    var sub := FilterKeys(w, q.key, all);
    EntriesAnswer(p, sources, q.key, tests, sub);
    rows := Values(sub);
    assert Renamed(q.rename, rows) == rows;
  }

  // ---- when pushing the filter down changes nothing ----

  /** Rows of one key get one verdict. Rows without a key are free. */
  ghost predicate KeyDecides(w: Where, key: Column) {
    forall r, s :: Cell(r, key) == Cell(s, key) != Null ==> Eval(w, r) == Eval(w, s)
  }

  lemma KeyOnlyDecides(w: Where, key: Column)
    requires ReadsOnlyKey(w, key)
    ensures KeyDecides(w, key)
  {
    forall r, s | Cell(r, key) == Cell(s, key) != Null ensures Eval(w, r) == Eval(w, s) {
      forall c | c in Fields(w) ensures Cell(r, c) == Cell(s, c) {
        assert c in {key};
      }
      EvalReadsFields(w, r, s);
    }
  }

  /** Every entry's row has the entry's key, which is not null. */
  ghost predicate WellKeyed(kd: Keyed, key: Column) {
    forall i | 0 <= i < |kd| :: Cell(kd[i].row, key) == kd[i].key != Null
  }

  function VerdictOn(w: Where, key: Column, k: Value): Verdict {
    Eval(w, map[key := k])
  }

  lemma VerdictIsOnKey(w: Where, key: Column, r: Row)
    requires KeyDecides(w, key) && Cell(r, key) != Null
    ensures Eval(w, r) == VerdictOn(w, key, Cell(r, key))
  {
    assert Cell(map[key := Cell(r, key)], key) == Cell(r, key);
  }

  /** The entries whose key does not fail the filter. */
  function Passing(w: Where, key: Column, kd: Keyed): Keyed {
    if kd == [] then []
    else if VerdictOn(w, key, kd[0].key) == No then Passing(w, key, kd[1..])
    else [kd[0]] + Passing(w, key, kd[1..])
  }

  lemma {:induction false} PutWellKeyed(p: Policy, kd: Keyed, key: Column, r: Row)
    requires WellKeyed(kd, key) && Cell(r, key) != Null
    ensures WellKeyed(Put(p, kd, Cell(r, key), r), key)
    decreases |kd|
  {
    if kd != [] {
      if kd[0].key == Cell(r, key) {
        assert ResolveCell(p, key, kd[0].row, r) == Cell(r, key);
      } else {
        PutWellKeyed(p, kd[1..], key, r);
      }
    }
  }

  lemma {:induction false} PutPassing(p: Policy, kd: Keyed, w: Where, key: Column, k: Value, r: Row)
    ensures Passing(w, key, Put(p, kd, k, r)) ==
            if VerdictOn(w, key, k) == No then Passing(w, key, kd) else Put(p, Passing(w, key, kd), k, r)
    decreases |kd|
  {
    if kd != [] && kd[0].key != k {
      PutPassing(p, kd[1..], w, key, k, r);
    }
  }

  /** Absorbing a row changes the passing entries as absorbing it into them would, unless its key fails. */
  lemma AbsorbPassing(p: Policy, kd: Keyed, w: Where, key: Column, r: Row)
    requires KeyDecides(w, key) && WellKeyed(kd, key)
    ensures WellKeyed(Absorb(p, key, kd, r), key)
    ensures Passing(w, key, Absorb(p, key, kd, r)) ==
            if Eval(w, r) == No then Passing(w, key, kd) else Absorb(p, key, Passing(w, key, kd), r)
  {
    if Cell(r, key) != Null {
      VerdictIsOnKey(w, key, r);
      PutWellKeyed(p, kd, key, r);
      PutPassing(p, kd, w, key, Cell(r, key), r);
    }
  }

  ghost predicate AllPass(kd: Keyed, w: Where, key: Column) {
    forall i | 0 <= i < |kd| :: VerdictOn(w, key, kd[i].key) == Yes
  }

  ghost predicate NoneRaises(kd: Keyed, w: Where, key: Column) {
    forall i | 0 <= i < |kd| :: VerdictOn(w, key, kd[i].key) != Raises
  }

  lemma {:induction false} PutVerdicts(p: Policy, kd: Keyed, w: Where, key: Column, k: Value, r: Row)
    ensures AllPass(kd, w, key) && VerdictOn(w, key, k) == Yes ==> AllPass(Put(p, kd, k, r), w, key)
    ensures NoneRaises(kd, w, key) && VerdictOn(w, key, k) != Raises ==> NoneRaises(Put(p, kd, k, r), w, key)
    decreases |kd|
  {
    if kd != [] && kd[0].key != k {
      PutVerdicts(p, kd[1..], w, key, k, r);
      if AllPass(kd, w, key) { assert AllPass(kd[1..], w, key); }
      if NoneRaises(kd, w, key) { assert NoneRaises(kd[1..], w, key); }
    }
  }

  /** The scan and the plain fold agree on the entries that do not fail; while pushing, the scan holds exactly those
      that pass and no row so far has raised. */
  lemma {:induction false} ScanFollowsFold(p: Policy, key: Column, w: Where, rows: seq<Row>)
    requires KeyDecides(w, key)
    ensures var s, all := ScanAll(p, key, w, rows), Fold(p, key, rows);
            && WellKeyed(s.keyed, key) && WellKeyed(all, key)
            && Passing(w, key, s.keyed) == Passing(w, key, all)
            && (s.pushing ==> AllPass(s.keyed, w, key) && NoneRaises(all, w, key))
    decreases |rows|
  {
    if rows != [] {
      var n := |rows| - 1;
      ScanFollowsFold(p, key, w, rows[..n]);
      var s, all, r := ScanAll(p, key, w, rows[..n]), Fold(p, key, rows[..n]), rows[n];
      AbsorbPassing(p, s.keyed, w, key, r);
      AbsorbPassing(p, all, w, key, r);
      if Cell(r, key) != Null {
        VerdictIsOnKey(w, key, r);
        PutVerdicts(p, s.keyed, w, key, Cell(r, key), r);
        PutVerdicts(p, all, w, key, Cell(r, key), r);
      }
    }
  }

  lemma {:induction false} FilterIgnoresFailing(w: Where, key: Column, kd: Keyed)
    requires KeyDecides(w, key) && WellKeyed(kd, key)
    ensures Filter(w, Values(kd)) == Filter(w, Values(Passing(w, key, kd)))
    decreases |kd|
  {
    if kd != [] {
      VerdictIsOnKey(w, key, kd[0].row);
      FilterIgnoresFailing(w, key, kd[1..]);
    }
  }

  lemma {:induction false} FilterKeepsPassing(w: Where, key: Column, kd: Keyed)
    requires KeyDecides(w, key) && WellKeyed(kd, key) && NoneRaises(kd, w, key)
    ensures Filter(w, Values(kd)) == Kept(Values(Passing(w, key, kd)))
    decreases |kd|
  {
    if kd != [] {
      VerdictIsOnKey(w, key, kd[0].row);
      FilterKeepsPassing(w, key, kd[1..]);
    }
  }

  lemma {:induction false} AllPassing(w: Where, key: Column, kd: Keyed)
    requires AllPass(kd, w, key)
    ensures Passing(w, key, kd) == kd
    decreases |kd|
  {
    if kd != [] { AllPassing(w, key, kd[1..]); }
  }

  /** When the key decides the filter, as it does if only the key is read: the same rows in the same order, through
      MAP and LIMIT, for any sources and any row policy, including when evaluation raises part of the way. */
  lemma PushdownAgrees(p: Policy, q: Query, w: Where, sources: seq<seq<Row>>)
    requires q.filter == Some(w) && KeyDecides(w, q.key)
    ensures FilterThenMerge(p, q, w, sources) == MergeThenFilter(p, q, sources)
  {
    var rows := Flatten(sources);
    ScanFollowsFold(p, q.key, w, rows);
    var s, all := ScanAll(p, q.key, w, rows), Fold(p, q.key, rows);
    if s.pushing {
      FilterKeepsPassing(w, q.key, all);
      AllPassing(w, q.key, s.keyed);
    } else {
      FilterIgnoresFailing(w, q.key, s.keyed);
      FilterIgnoresFailing(w, q.key, all);
    }
  }

  // ---- MAP ----

  function NewName(names: map<Column, Column>, c: Column): Column {
    if c in names then names[c] else c
  }

  /** `m` is the row `r` under its new names. Of several columns that get one name, the last in the order of the row
      counts; which one that is stays open. */
  predicate MapsRow(names: map<Column, Column>, r: Row, m: Row) {
    && (forall c | c in r :: NewName(names, c) in m)
    && (forall d | d in m :: exists c | c in r :: NewName(names, c) == d && m[d] == r[c])
  }

  /** `rename` is the MAP clause with these new names; without the clause there are none. */
  ghost predicate IsMap(rename: Row -> Row, names: map<Column, Column>) {
    forall r :: MapsRow(names, r, rename(r))
  }

  method RenameRow(names: map<Column, Column>, r: Row) returns (m: Row)
    ensures MapsRow(names, r, m)
  {
    m := map[];
    var rest := r.Keys;
    while rest != {}
      invariant rest <= r.Keys
      invariant forall c | c in r && c !in rest :: NewName(names, c) in m
      invariant forall d | d in m :: exists c | c in r :: NewName(names, c) == d && m[d] == r[c]
      decreases |rest|
    {
      var c :| c in rest;
      rest := rest - {c};
      m := m[NewName(names, c) := r[c]];
    }
  }

  /** MAP leaves a column alone that it does not mention. */
  lemma MapKeeps(names: map<Column, Column>, r: Row, m: Row, c: Column)
    requires MapsRow(names, r, m) && c !in names.Keys + names.Values
    ensures c in m <==> c in r
  {
    if c in r {
      assert NewName(names, c) == c;
    }
    if c in m {
      var d :| d in r && NewName(names, d) == c;
      assert d in names ==> names[d] in names.Values;
    }
  }

  // ---- and when it does ----

  ghost predicate NeverRaises(w: Where) {
    forall r :: Eval(w, r) != Raises
  }

  ghost predicate CanPass(w: Where, key: Column, k: Value) {
    k != Null && exists r: Row :: Cell(r, key) == k && Eval(w, r) == Yes
  }

  ghost predicate AllCanPass(w: Where, key: Column, ks: set<Value>) {
    forall k | k in ks :: CanPass(w, key, k)
  }

  /** Rows of at most `n` keys can pass. */
  ghost predicate AtMostPass(w: Where, key: Column, n: nat) {
    forall ks | AllCanPass(w, key, ks) :: |ks| <= n
  }

  /** How many rows a negative limit cuts off the end. */
  function CutOff(limit: Option<int>): nat {
    if limit.Some? && limit.value < 0 then -limit.value else 0
  }

  /** The limit lets no row through, whatever the sources: it is zero, or it cuts off at least as many rows as there are
      keys that can pass. */
  ghost predicate ShowsNothing(w: Where, key: Column, limit: Option<int>) {
    limit.Some? && (limit.value == 0 || (limit.value < 0 && AtMostPass(w, key, -limit.value)))
  }

  /** Rows of one key are judged Yes and No. */
  ghost predicate Judges(w: Where, key: Column, r: Row, s: Row) {
    Cell(r, key) == Cell(s, key) != Null && Eval(w, r) == Yes && Eval(w, s) == No
  }

  // Rows of different keys, all passing.

  ghost predicate Apart(rs: seq<Row>, w: Where, key: Column) {
    && (forall i | 0 <= i < |rs| :: Cell(rs[i], key) != Null && Eval(w, rs[i]) == Yes)
    && (forall i, j | 0 <= i < j < |rs| :: Cell(rs[i], key) != Cell(rs[j], key))
  }

  function EntriesOf(rs: seq<Row>, key: Column): (kd: Keyed)
    ensures |kd| == |rs| && forall i | 0 <= i < |rs| :: kd[i] == Entry(Cell(rs[i], key), rs[i])
  {
    seq(|rs|, i requires 0 <= i < |rs| => Entry(Cell(rs[i], key), rs[i]))
  }

  lemma {:induction false} PutNew(p: Policy, kd: Keyed, k: Value, r: Row)
    requires forall i | 0 <= i < |kd| :: kd[i].key != k
    ensures Put(p, kd, k, r) == kd + [Entry(k, r)]
    decreases |kd|
  {
    if kd != [] {
      PutNew(p, kd[1..], k, r);
      assert kd == [kd[0]] + kd[1..];
    }
  }

  lemma {:induction false} ApartFold(p: Policy, key: Column, w: Where, rs: seq<Row>)
    requires Apart(rs, w, key)
    ensures Fold(p, key, rs) == EntriesOf(rs, key) && ScanAll(p, key, w, rs) == Scan(EntriesOf(rs, key), true)
    decreases |rs|
  {
    if rs != [] {
      var init, last := rs[..|rs| - 1], rs[|rs| - 1];
      ApartFold(p, key, w, init);
      PutNew(p, EntriesOf(init, key), Cell(last, key), last);
      assert EntriesOf(rs, key) == EntriesOf(init, key) + [Entry(Cell(last, key), last)];
    }
  }

  lemma {:induction false} ApartValues(rs: seq<Row>, key: Column)
    ensures Values(EntriesOf(rs, key)) == rs
    decreases |rs|
  {
    if rs != [] {
      ApartValues(rs[1..], key);
      assert EntriesOf(rs, key)[1..] == EntriesOf(rs[1..], key);
    }
  }

  lemma {:induction false} ApartFilter(rs: seq<Row>, w: Where, key: Column)
    requires Apart(rs, w, key)
    ensures Filter(w, rs) == Kept(rs)
    decreases |rs|
  {
    if rs != [] {
      ApartFilter(rs[1..], w, key);
    }
  }

  lemma ApartInFront(r: Row, fs: seq<Row>, w: Where, key: Column)
    requires Apart(fs, w, key) && Cell(r, key) != Null && Eval(w, r) == Yes
    requires forall i | 0 <= i < |fs| :: Cell(fs[i], key) != Cell(r, key)
    ensures Apart([r] + fs, w, key)
  {
  }

  /** As many passing rows of other keys as a negative limit cuts off. */
  lemma {:induction false} Fillers(w: Where, key: Column, ks: set<Value>, n: nat) returns (fs: seq<Row>)
    requires AllCanPass(w, key, ks) && |ks| >= n
    ensures |fs| == n && Apart(fs, w, key) && forall i | 0 <= i < n :: Cell(fs[i], key) in ks
  {
    if n == 0 {
      fs := [];
    } else {
      var k :| k in ks;
      var f: Row :| Cell(f, key) == k && Eval(w, f) == Yes;
      var rest := Fillers(w, key, ks - {k}, n - 1);
      fs := rest + [f];
    }
  }

  lemma FlattenTwo(x: seq<Row>, y: seq<Row>)
    ensures Flatten([x, y]) == x + y
  {
    assert [x, y][..1] == [x] && [x][..0] == [];
    assert Flatten([x]) == [] + x;
    assert [] + x == x;
  }

  /** What is shown of a row in front of the fillers, and of the fillers alone. */
  lemma FirstShows(q: Query, x: Row, fs: seq<Row>)
    requires q.limit != Some(0) && |fs| == CutOff(q.limit)
    ensures Finished(q, Kept([x] + fs)) == Kept([q.rename(x)])
    ensures Finished(q, Kept(fs)) == Kept([])
  {
    var rows := Renamed(q.rename, [x] + fs);
    assert rows[..1] == [q.rename(x)];
    assert |fs| == 0 ==> rows == rows[..1];
  }

  lemma MergedBehind(p: Policy, w: Where, key: Column, r: Row, fs: seq<Row>, s: Row)
    requires Apart([r] + fs, w, key) && Judges(w, key, r, s)
    ensures ScanAll(p, key, w, [r] + fs + [s]) == Scan(EntriesOf([r] + fs, key), true)
    ensures Fold(p, key, [r] + fs + [s]) == [Entry(Cell(r, key), Merge(p, r, s))] + EntriesOf(fs, key)
  {
    var front := [r] + fs;
    assert (front + [s])[..|front|] == front;
    ApartFold(p, key, w, front);
    assert EntriesOf(front, key)[1..] == EntriesOf(fs, key);
  }

  /** A passing row, fillers, and a failing row of the first one's key with a column of its own that nothing mentions:
      pushing down shows the first row as it is, merging first does not. */
  lemma PairTellsApart(p: Policy, q: Query, w: Where, names: map<Column, Column>, r: Row, fs: seq<Row>, s: Row, extra: Column)
    requires q.filter == Some(w) && q.limit != Some(0) && |fs| == CutOff(q.limit) && IsMap(q.rename, names)
    requires Apart([r] + fs, w, q.key) && Judges(w, q.key, r, s)
    requires extra !in r && extra in s && extra !in names.Keys + names.Values
    ensures FilterThenMerge(p, q, w, [[r] + fs, [s]]) != MergeThenFilter(p, q, [[r] + fs, [s]])
  {
    var merged := Merge(p, r, s);
    FlattenTwo([r] + fs, [s]);
    MergedBehind(p, w, q.key, r, fs, s);
    ApartValues([r] + fs, q.key);
    FirstShows(q, r, fs);
    assert FilterThenMerge(p, q, w, [[r] + fs, [s]]) == Kept([q.rename(r)]);
    MergedFirst(p, q, w, r, fs, s);
    FirstShows(q, merged, fs);
    MapKeeps(names, r, q.rename(r), extra);
    MapKeeps(names, merged, q.rename(merged), extra);
    assert Kept([q.rename(r)]) != Kept([q.rename(merged)]) by {
      assert [q.rename(r)][0] != [q.rename(merged)][0];
    }
  }

  lemma MergedRows(p: Policy, q: Query, w: Where, r: Row, fs: seq<Row>, s: Row)
    requires q.filter == Some(w) && Apart([r] + fs, w, q.key) && Judges(w, q.key, r, s)
    ensures MergeThenFilter(p, q, [[r] + fs, [s]]) == Finished(q, Filter(w, [Merge(p, r, s)] + fs))
  {
    FlattenTwo([r] + fs, [s]);
    MergedBehind(p, w, q.key, r, fs, s);
    ApartValues(fs, q.key);
    ValuesSplit(Entry(Cell(r, q.key), Merge(p, r, s)), EntriesOf(fs, q.key));
  }

  lemma MergedFirst(p: Policy, q: Query, w: Where, r: Row, fs: seq<Row>, s: Row)
    requires q.filter == Some(w) && Apart([r] + fs, w, q.key) && Judges(w, q.key, r, s)
    ensures MergeThenFilter(p, q, [[r] + fs, [s]]) in
            {Raised, Finished(q, Kept(fs)), Finished(q, Kept([Merge(p, r, s)] + fs))}
  {
    MergedRows(p, q, w, r, fs, s);
    assert Apart(fs, w, q.key) by {
      assert forall i | 0 <= i < |fs| :: fs[i] == ([r] + fs)[i + 1];
    }
    ApartFilter(fs, w, q.key);
    FilterSplit(w, Merge(p, r, s), fs);
  }

  lemma ValuesSplit(e: Entry, rest: Keyed)
    ensures Values([e] + rest) == [e.row] + Values(rest)
  {
    assert ([e] + rest)[1..] == rest;
  }

  lemma FilterSplit(w: Where, r: Row, rest: seq<Row>)
    requires Filter(w, rest) == Kept(rest)
    ensures Filter(w, [r] + rest) in {Raised, Kept(rest), Kept([r] + rest)}
  {
    assert ([r] + rest)[1..] == rest;
  }

  /** A column outside a given set. */
  lemma FreshColumn(cs: set<Column>) returns (extra: Column)
    ensures extra !in cs
  {
    var n := Longest(cs);
    extra := seq(n + 1, i => 'x');
  }

  ghost function Longest(cs: set<Column>): (n: nat)
    ensures forall c | c in cs :: |c| <= n
    decreases |cs|
  {
    if cs == {} then 0
    else
      var c :| c in cs;
      var m := Longest(cs - {c});
      if |c| > m then |c| else m
  }

  /** A key judged both ways gives the pushing away on some sources, whatever the policy and the new names, and whether
      or not the filter may raise elsewhere. */
  lemma JudgedBothWaysShows(p: Policy, q: Query, w: Where, names: map<Column, Column>, r: Row, s: Row)
    returns (sources: seq<seq<Row>>)
    requires q.filter == Some(w) && IsMap(q.rename, names) && !ShowsNothing(w, q.key, q.limit)
    requires Judges(w, q.key, r, s)
    ensures FilterThenMerge(p, q, w, sources) != MergeThenFilter(p, q, sources)
  {
    var k, n := Cell(r, q.key), CutOff(q.limit);
    var ks: set<Value> := {};
    if n > 0 {
      ks :| AllCanPass(w, q.key, ks) && |ks| > n;
    }
    var fs := Fillers(w, q.key, ks - {k}, n);
    ApartInFront(r, fs, w, q.key);
    var extra := FreshColumn(r.Keys + Fields(w) + {q.key} + names.Keys + names.Values);
    Widens(w, q.key, r, s, extra);
    PairTellsApart(p, q, w, names, r, fs, s[extra := Num(0)], extra);
    sources := [[r] + fs, [s[extra := Num(0)]]];
  }

  lemma Widens(w: Where, key: Column, r: Row, s: Row, extra: Column)
    requires Judges(w, key, r, s) && extra !in Fields(w) && extra != key
    ensures Judges(w, key, r, s[extra := Num(0)])
  {
    EvalReadsFields(w, s[extra := Num(0)], s);
  }

  // Keys of a fold.

  ghost predicate DistinctKeys(kd: Keyed) {
    forall i, j | 0 <= i < j < |kd| :: kd[i].key != kd[j].key
  }

  ghost function KeysOf(kd: Keyed): set<Value> {
    set e | e in kd :: e.key
  }

  lemma {:induction false} PutKeys(p: Policy, kd: Keyed, k: Value, r: Row)
    requires DistinctKeys(kd)
    ensures DistinctKeys(Put(p, kd, k, r)) && KeysOf(Put(p, kd, k, r)) == KeysOf(kd) + {k}
    decreases |kd|
  {
    if kd != [] {
      assert kd == [kd[0]] + kd[1..];
      KeysSplit(kd[0], kd[1..]);
      if kd[0].key == k {
        KeysSplit(Entry(k, Merge(p, kd[0].row, r)), kd[1..]);
      } else {
        PutKeys(p, kd[1..], k, r);
        KeysSplit(kd[0], Put(p, kd[1..], k, r));
        KeyElsewhere(kd);
        HeadApart(kd[0], Put(p, kd[1..], k, r));
      }
    }
  }

  lemma KeysSplit(e: Entry, rest: Keyed)
    ensures KeysOf([e] + rest) == {e.key} + KeysOf(rest)
  {
    assert forall x | x in rest :: x in [e] + rest;
    assert e in [e] + rest;
  }

  lemma KeyElsewhere(kd: Keyed)
    requires kd != [] && DistinctKeys(kd)
    ensures kd[0].key !in KeysOf(kd[1..])
  {
    forall e | e in kd[1..] ensures e.key != kd[0].key {
      var i :| 0 <= i < |kd| - 1 && kd[1..][i] == e;
      assert kd[i + 1] == e;
    }
  }

  lemma HeadApart(e: Entry, rest: Keyed)
    requires DistinctKeys(rest) && e.key !in KeysOf(rest)
    ensures DistinctKeys([e] + rest)
  {
    forall i | 0 <= i < |rest| ensures rest[i].key != e.key {
      assert rest[i] in rest;
    }
  }

  lemma {:induction false} AsManyKeys(kd: Keyed)
    requires DistinctKeys(kd)
    ensures |KeysOf(kd)| == |kd| == |Values(kd)|
    decreases |kd|
  {
    if kd != [] {
      AsManyKeys(kd[1..]);
      assert kd == [kd[0]] + kd[1..];
      KeysSplit(kd[0], kd[1..]);
      KeyElsewhere(kd);
    }
  }

  lemma {:induction false} FoldKeys(p: Policy, key: Column, rows: seq<Row>)
    ensures DistinctKeys(Fold(p, key, rows)) && WellKeyed(Fold(p, key, rows), key)
    decreases |rows|
  {
    if rows != [] {
      var init, last := rows[..|rows| - 1], rows[|rows| - 1];
      FoldKeys(p, key, init);
      if Cell(last, key) != Null {
        PutKeys(p, Fold(p, key, init), Cell(last, key), last);
        PutWellKeyed(p, Fold(p, key, init), key, last);
      }
    }
  }

  /** A filter that never raises is pushed to the end, and only keys that can pass are absorbed. */
  lemma {:induction false} ScanKeys(p: Policy, key: Column, w: Where, rows: seq<Row>)
    requires NeverRaises(w)
    ensures var s := ScanAll(p, key, w, rows);
            s.pushing && DistinctKeys(s.keyed) && AllCanPass(w, key, KeysOf(s.keyed))
    decreases |rows|
  {
    if rows != [] {
      var init, last := rows[..|rows| - 1], rows[|rows| - 1];
      ScanKeys(p, key, w, init);
      if Cell(last, key) != Null && Eval(w, last) == Yes {
        PutKeys(p, ScanAll(p, key, w, init).keyed, Cell(last, key), last);
        assert CanPass(w, key, Cell(last, key));
      }
    }
  }

  /** The entries that pass a filter. */
  lemma {:induction false} FilterKeys(w: Where, key: Column, kd: Keyed) returns (sub: Keyed)
    requires NeverRaises(w) && DistinctKeys(kd) && WellKeyed(kd, key)
    ensures Filter(w, Values(kd)) == Kept(Values(sub)) && DistinctKeys(sub)
    ensures KeysOf(sub) <= KeysOf(kd) && AllCanPass(w, key, KeysOf(sub))
    ensures forall e :: e in sub <==> e in kd && Eval(w, e.row) == Yes
    decreases |kd|
  {
    if kd == [] {
      sub := [];
    } else {
      var rest := FilterKeys(w, key, kd[1..]);
      assert kd == [kd[0]] + kd[1..];
      KeysSplit(kd[0], kd[1..]);
      if Eval(w, kd[0].row) == Yes {
        sub := [kd[0]] + rest;
        KeysSplit(kd[0], rest);
        KeyElsewhere(kd);
        HeadApart(kd[0], rest);
        assert CanPass(w, key, kd[0].key);
      } else {
        sub := rest;
      }
    }
  }

  lemma FewAreHidden(q: Query, w: Where, kd: Keyed)
    requires ShowsNothing(w, q.key, q.limit) && DistinctKeys(kd) && AllCanPass(w, q.key, KeysOf(kd))
    ensures Finished(q, Kept(Values(kd))) == Kept([])
  {
    AsManyKeys(kd);
  }

  lemma NothingShows(p: Policy, q: Query, w: Where, sources: seq<seq<Row>>)
    requires q.filter == Some(w) && NeverRaises(w) && ShowsNothing(w, q.key, q.limit)
    ensures FilterThenMerge(p, q, w, sources) == MergeThenFilter(p, q, sources) == Kept([])
  {
    var rows := Flatten(sources);
    ScanKeys(p, q.key, w, rows);
    FewAreHidden(q, w, ScanAll(p, q.key, w, rows).keyed);
    FoldKeys(p, q.key, rows);
    var sub := FilterKeys(w, q.key, Fold(p, q.key, rows));
    FewAreHidden(q, w, sub);
  }

  /** A filter that never raises may be pushed down for all sources exactly when rows of one key always get one
      verdict or the limit shows nothing anyway: under every row policy, every MAP and every limit. */
  lemma PushdownSafeIff(p: Policy, q: Query, w: Where, names: map<Column, Column>)
    requires q.filter == Some(w) && IsMap(q.rename, names) && NeverRaises(w)
    ensures (forall sources :: FilterThenMerge(p, q, w, sources) == MergeThenFilter(p, q, sources)) <==>
            KeyDecides(w, q.key) || ShowsNothing(w, q.key, q.limit)
  {
    if KeyDecides(w, q.key) {
      forall sources ensures FilterThenMerge(p, q, w, sources) == MergeThenFilter(p, q, sources) {
        PushdownAgrees(p, q, w, sources);
      }
    } else if ShowsNothing(w, q.key, q.limit) {
      forall sources ensures FilterThenMerge(p, q, w, sources) == MergeThenFilter(p, q, sources) {
        NothingShows(p, q, w, sources);
      }
    } else {
      var x, y :| Cell(x, q.key) == Cell(y, q.key) != Null && Eval(w, x) != Eval(w, y);
      var r, s := if Eval(w, x) == Yes then x else y, if Eval(w, x) == Yes then y else x;
      var sources := JudgedBothWaysShows(p, q, w, names, r, s);
    }
  }

  // ---- a filter on a merged field ----

  const LOW: Row := map["id" := Num(1), "score" := Num(3)]
  const HIGH: Row := map["id" := Num(1), "score" := Num(7)]

  function LowerScore(c: Column, a: Value, b: Value, ta: real, tb: real): Value {
    if a.Num? && b.Num? && b.n < a.n then b else a
  }

  function AboveFive(v: Value): Verdict {
    if v.Num? && v.n > 5 then Yes else No
  }

  const LOWEST: Policy := Policy(LowerScore, r => 0.0)
  const ABOVE_FIVE: Where := Test("score", AboveFive)
  const HIGH_SCORES: Query := Query("id", Some(ABOVE_FIVE), r => r, None)

  lemma OneValue(e: Entry)
    ensures Values([e]) == [e.row]
  {
    assert [e][1..] == [];
  }

  lemma ScanTwo()
    ensures ScanAll(LOWEST, "id", ABOVE_FIVE, [LOW, HIGH]) == Scan([Entry(Num(1), HIGH)], true)
  {
    assert [LOW, HIGH][..1] == [LOW] && [LOW][..0] == [];
    assert ScanAll(LOWEST, "id", ABOVE_FIVE, [LOW]) == Scan([], true);
  }

  lemma FoldTwo()
    ensures Fold(LOWEST, "id", [LOW, HIGH]) == [Entry(Num(1), Merge(LOWEST, LOW, HIGH))]
  {
    assert [LOW, HIGH][..1] == [LOW] && [LOW][..0] == [];
    assert Fold(LOWEST, "id", [LOW]) == [Entry(Num(1), LOW)];
  }

  /** On a field that sources do hold but that merging changes, pushing the filter down changes the result:
      keeping the lower score and asking for scores above five. */
  lemma PushdownCanChangeRows()
    ensures FilterThenMerge(LOWEST, HIGH_SCORES, ABOVE_FIVE, [[LOW], [HIGH]]) == Kept([HIGH])
    ensures MergeThenFilter(LOWEST, HIGH_SCORES, [[LOW], [HIGH]]) == Kept([])
  {
    FlattenTwo([LOW], [HIGH]);
    assert [LOW] + [HIGH] == [LOW, HIGH];
    ScanTwo();
    FoldTwo();
    var merged := Merge(LOWEST, LOW, HIGH);
    OneValue(Entry(Num(1), HIGH));
    OneValue(Entry(Num(1), merged));
    assert Cell(merged, "score") == Num(3);
    assert [merged][1..] == [];
    assert Filter(ABOVE_FIVE, [merged]) == Kept([]);
    assert Renamed(HIGH_SCORES.rename, [HIGH]) == [HIGH];
    assert Renamed(HIGH_SCORES.rename, []) == [];
  }
}
