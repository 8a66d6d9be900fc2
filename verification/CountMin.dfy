/**
 The Count-Min sketch: a table of counters, one column per row for each item, merged by taking the larger
 counter, with the smallest counter of an item as its estimate.
*/
module CountMin {
  import Bits
  import opened Feeds

  type Counted<T> = (T, int)

  /** How items spread over a table; `first` and `second` are the two 64-bit hashes. */
  datatype Shape<!T> = Shape(width: nat, depth: nat, first: T -> nat, second: T -> nat)

  predicate Usable<T>(s: Shape<T>) {
    s.width >= 1 && s.depth >= 1
  }

  function Position<T>(s: Shape<T>, x: T, row: nat): (col: nat)
    requires Usable(s)
    ensures col < s.width
  {
    (s.first(x) + row * s.second(x)) % s.width
  }

  lemma PositionsStart<T>(s: Shape<T>, x: T)
    requires Usable(s)
    ensures Position(s, x, 0) == s.first(x) % s.width
  {
  }

  /** The columns start at the first hash and go on in steps of the second, around the row. */
  lemma PositionsStep<T>(s: Shape<T>, x: T, row: nat)
    requires Usable(s)
    ensures Position(s, x, row + 1) == (Position(s, x, row) + s.second(x)) % s.width
  {
    Bits.StepMod(s.first(x), s.second(x), row, s.width);
  }

  /** The counter a feed leaves at a cell. */
  function Cell<T>(s: Shape<T>, f: Feed<Counted<T>>, row: nat, col: nat): int
    requires Usable(s)
  {
    match f
    case Start => 0
    case Added(rest, item) => Cell(s, rest, row, col) + if Position(s, item.0, row) == col then item.1 else 0
    case Joined(left, right) => Max(Cell(s, left, row, col), Cell(s, right, row, col))
  }

  function TotalOf<T>(f: Feed<Counted<T>>): int {
    match f
    case Start => 0
    case Added(rest, item) => TotalOf(rest) + item.1
    case Joined(left, right) => Max(TotalOf(left), TotalOf(right))
  }

  /** The smallest of the item's counters in the first `rows` rows. */
  function LeastOf<T>(s: Shape<T>, f: Feed<Counted<T>>, x: T, rows: nat): int
    requires Usable(s) && 1 <= rows
  {
    var last := Cell(s, f, rows - 1, Position(s, x, rows - 1));
    if rows == 1 then last else Least(LeastOf(s, f, x, rows - 1), last)
  }

  function Least(a: int, b: int): int {
    if a <= b then a else b
  }

  function EstimateOf<T>(s: Shape<T>, f: Feed<Counted<T>>, x: T): int
    requires Usable(s)
  {
    LeastOf(s, f, x, s.depth)
  }

  lemma {:induction false} LeastIsMinimum<T>(s: Shape<T>, f: Feed<Counted<T>>, x: T, rows: nat) returns (best: nat)
    requires Usable(s) && 1 <= rows
    ensures forall row: nat | row < rows :: LeastOf(s, f, x, rows) <= Cell(s, f, row, Position(s, x, row))
    ensures best < rows && LeastOf(s, f, x, rows) == Cell(s, f, best, Position(s, x, best))
  {
    best := rows - 1;
    if rows > 1 {
      var earlier := LeastIsMinimum(s, f, x, rows - 1);
      if LeastOf(s, f, x, rows - 1) == LeastOf(s, f, x, rows) {
        best := earlier;
      }
    }
  }

  // ---- counts ----

  predicate NonNegative<T>(f: Feed<Counted<T>>) {
    match f
    case Start => true
    case Added(rest, item) => NonNegative(rest) && item.1 >= 0
    case Joined(left, right) => NonNegative(left) && NonNegative(right)
  }

  /** Everything that was added anywhere, as one stream. */
  function Stream<T>(f: Feed<Counted<T>>): seq<Counted<T>> {
    match f
    case Start => []
    case Added(rest, item) => Stream(rest) + [item]
    case Joined(left, right) => Stream(left) + Stream(right)
  }

  /** One sketch fed a whole stream. */
  function OneSketch<T>(stream: seq<Counted<T>>): Feed<Counted<T>> {
    AddedAll(Start, stream)
  }

  /** How often an item truly occurs in a stream. */
  function Count<T(==)>(stream: seq<Counted<T>>, x: T): int {
    if stream == [] then 0
    else
      var n := |stream| - 1;
      Count(stream[..n], x) + if stream[n].0 == x then stream[n].1 else 0
  }

  /** The most that any one line of adding accounts for. */
  function Accounted<T(==)>(f: Feed<Counted<T>>, x: T): int {
    match f
    case Start => 0
    case Added(rest, item) => Accounted(rest, x) + if item.0 == x then item.1 else 0
    case Joined(left, right) => Max(Accounted(left, x), Accounted(right, x))
  }

  lemma {:induction false} AccountedAtMostCell<T>(s: Shape<T>, f: Feed<Counted<T>>, x: T, row: nat)
    requires Usable(s) && NonNegative(f)
    ensures Accounted(f, x) <= Cell(s, f, row, Position(s, x, row))
  {
    match f
    case Start =>
    case Added(rest, item) => AccountedAtMostCell(s, rest, x, row);
    case Joined(left, right) =>
      AccountedAtMostCell(s, left, x, row);
      AccountedAtMostCell(s, right, x, row);
  }

  lemma {:induction false} StreamCellAdds<T>(s: Shape<T>, a: seq<Counted<T>>, b: seq<Counted<T>>, row: nat, col: nat)
    requires Usable(s)
    ensures Cell(s, OneSketch(a + b), row, col) == Cell(s, OneSketch(a), row, col) + Cell(s, OneSketch(b), row, col)
    decreases |b|
  {
    if b == [] {
      assert a + b == a;
    } else {
      var n := |b| - 1;
      var all := a + b;
      assert all[..|all| - 1] == a + b[..n] && all[|all| - 1] == b[n];
      StreamCellAdds(s, a, b[..n], row, col);
    }
  }

  lemma {:induction false} CellAtMostOneSketch<T>(s: Shape<T>, f: Feed<Counted<T>>, row: nat, col: nat)
    requires Usable(s) && NonNegative(f)
    ensures 0 <= Cell(s, f, row, col) <= Cell(s, OneSketch(Stream(f)), row, col)
  {
    match f
    case Start =>
    case Added(rest, item) =>
      CellAtMostOneSketch(s, rest, row, col);
      var stream := Stream(rest) + [item];
      assert stream[..|stream| - 1] == Stream(rest) && stream[|stream| - 1] == item;
    case Joined(left, right) =>
      CellAtMostOneSketch(s, left, row, col);
      CellAtMostOneSketch(s, right, row, col);
      StreamCellAdds(s, Stream(left), Stream(right), row, col);
  }

  /** However sketches were fed and merged, an estimate is at least what any one line of adding accounts for and
      at most the estimate of one sketch fed everything. */
  lemma EstimateBetween<T>(s: Shape<T>, f: Feed<Counted<T>>, x: T)
    requires Usable(s) && NonNegative(f)
    ensures Accounted(f, x) <= EstimateOf(s, f, x) <= EstimateOf(s, OneSketch(Stream(f)), x)
  {
    var g := OneSketch(Stream(f));
    var atF := LeastIsMinimum(s, f, x, s.depth);
    var atG := LeastIsMinimum(s, g, x, s.depth);
    forall row: nat | row < s.depth
      ensures Accounted(f, x) <= Cell(s, f, row, Position(s, x, row)) <= Cell(s, g, row, Position(s, x, row))
    {
      AccountedAtMostCell(s, f, x, row);
      CellAtMostOneSketch(s, f, row, Position(s, x, row));
    }
  }

  lemma {:induction false} OneSketchAccounts<T>(stream: seq<Counted<T>>, x: T)
    ensures Accounted(OneSketch(stream), x) == Count(stream, x)
    decreases |stream|
  {
    if stream != [] { OneSketchAccounts(stream[..|stream| - 1], x); }
  }

  lemma {:induction false} OneSketchNonNegative<T>(stream: seq<Counted<T>>)
    requires forall i | 0 <= i < |stream| :: stream[i].1 >= 0
    ensures NonNegative(OneSketch(stream)) && Stream(OneSketch(stream)) == stream
    decreases |stream|
  {
    if stream != [] {
      OneSketchNonNegative(stream[..|stream| - 1]);
      assert stream == stream[..|stream| - 1] + [stream[|stream| - 1]];
    }
  }

  /** Two sketches merged: at least the larger true count, at most one sketch of both streams. */
  lemma MergedEstimateBetween<T>(s: Shape<T>, a: seq<Counted<T>>, b: seq<Counted<T>>, x: T)
    requires Usable(s) && (forall i | 0 <= i < |a| :: a[i].1 >= 0) && (forall i | 0 <= i < |b| :: b[i].1 >= 0)
    ensures Max(Count(a, x), Count(b, x)) <= EstimateOf(s, Joined(OneSketch(a), OneSketch(b)), x)
            <= EstimateOf(s, OneSketch(a + b), x)
  {
    OneSketchNonNegative(a);
    OneSketchNonNegative(b);
    OneSketchAccounts(a, x);
    OneSketchAccounts(b, x);
    EstimateBetween(s, Joined(OneSketch(a), OneSketch(b)), x);
  }

  // ---- when a merged estimate undercounts ----

  /** The counts of other items that share the item's counter in a row. */
  function Noise<T(==)>(s: Shape<T>, stream: seq<Counted<T>>, x: T, row: nat): int
    requires Usable(s)
  {
    if stream == [] then 0
    else
      var n := |stream| - 1;
      var (y, c) := stream[n];
      Noise(s, stream[..n], x, row) + if y != x && Position(s, y, row) == Position(s, x, row) then c else 0
  }

  lemma {:induction false} CellIsCountAndNoise<T>(s: Shape<T>, stream: seq<Counted<T>>, x: T, row: nat)
    requires Usable(s)
    ensures Cell(s, OneSketch(stream), row, Position(s, x, row)) == Count(stream, x) + Noise(s, stream, x, row)
    decreases |stream|
  {
    if stream != [] { CellIsCountAndNoise(s, stream[..|stream| - 1], x, row); }
  }

  /** The merged estimate is below the true count in both streams together exactly when, in some row, each stream's
      noise is below the other stream's count. */
  lemma UndercountsIff<T>(s: Shape<T>, a: seq<Counted<T>>, b: seq<Counted<T>>, x: T)
    requires Usable(s)
    ensures EstimateOf(s, Joined(OneSketch(a), OneSketch(b)), x) < Count(a, x) + Count(b, x) <==>
            exists row: nat :: row < s.depth && Noise(s, a, x, row) < Count(b, x) && Noise(s, b, x, row) < Count(a, x)
  {
    var f := Joined(OneSketch(a), OneSketch(b));
    var best := LeastIsMinimum(s, f, x, s.depth);
    if EstimateOf(s, f, x) < Count(a, x) + Count(b, x) {
      RowUndercountsIff(s, a, b, x, best);
    }
    if row: nat :| row < s.depth && Noise(s, a, x, row) < Count(b, x) && Noise(s, b, x, row) < Count(a, x) {
      RowUndercountsIff(s, a, b, x, row);
    }
  }

  lemma RowUndercountsIff<T>(s: Shape<T>, a: seq<Counted<T>>, b: seq<Counted<T>>, x: T, row: nat)
    requires Usable(s)
    ensures Cell(s, Joined(OneSketch(a), OneSketch(b)), row, Position(s, x, row)) < Count(a, x) + Count(b, x) <==>
            Noise(s, a, x, row) < Count(b, x) && Noise(s, b, x, row) < Count(a, x)
  {
    CellIsCountAndNoise(s, a, x, row);
    CellIsCountAndNoise(s, b, x, row);
  }

  /** The promise never to undercount fails after any merge of the two simplest sketches of one item. */
  lemma MergeUndercounts<T>(s: Shape<T>, x: T, m: int, n: int)
    requires Usable(s) && m > 0 && n > 0
    ensures EstimateOf(s, Joined(OneSketch([(x, m)]), OneSketch([(x, n)])), x) < m + n
    ensures Count([(x, m)] + [(x, n)], x) == m + n
  {
    var a, b := [(x, m)], [(x, n)];
    SingleItem(s, x, m);
    SingleItem(s, x, n);
    assert (a + b)[..1] == a && (a + b)[1] == (x, n);
    UndercountsIff(s, a, b, x);
  }

  lemma SingleItem<T>(s: Shape<T>, x: T, m: int)
    requires Usable(s)
    ensures Count([(x, m)], x) == m && Noise(s, [(x, m)], x, 0) == 0
  {
    var one := [(x, m)];
    assert one[..0] == [] && one[0] == (x, m);
  }

  // ---- the sketch object ----

  class MergeableCMS<T(!new, ==)> {
    const shape: Shape<T>
    const table: array2<int>
    var total: int
    ghost var feed: Feed<Counted<T>>

    constructor (shape: Shape<T>)
      requires Usable(shape)
      ensures this.shape == shape && feed == Start && fresh(table) && Valid()
    {
      this.shape, total, feed := shape, 0, Start;
      table := new int[shape.depth, shape.width]((row, col) => 0);
    }

    /** Null stands for the ValueError on an empty table. */
    static method Create(width: int, depth: int, first: T -> nat, second: T -> nat) returns (s: MergeableCMS?<T>)
      ensures s == null <==> width < 1 || depth < 1
      ensures s != null ==> fresh(s) && fresh(s.table) && s.Valid() && s.feed == Start
      ensures s != null ==> s.shape == Shape(width, depth, first, second)
    {
      if width < 1 || depth < 1 {
        return null;
      }
      s := new MergeableCMS(Shape(width, depth, first, second));
    }

    ghost predicate Holds(f: Feed<Counted<T>>)
      reads this, table
    {
      && Usable(shape) && table.Length0 == shape.depth && table.Length1 == shape.width
      && forall row, col | 0 <= row < shape.depth && 0 <= col < shape.width :: table[row, col] == Cell(shape, f, row, col)
    }

    ghost predicate Valid()
      reads this, table
    {
      Holds(feed) && total == TotalOf(feed)
    }

    method Add(item: T, count: int)
      requires Valid()
      modifies this`feed, this`total, table
      ensures Valid() && feed == Added(old(feed), (item, count)) && total == old(total) + count
    {
      for row := 0 to shape.depth
        invariant feed == old(feed) && total == old(total)
        invariant forall r, col | 0 <= r < shape.depth && 0 <= col < shape.width ::
          table[r, col] == Cell(shape, if r < row then Added(feed, (item, count)) else feed, r, col)
      {
        var col := Position(shape, item, row);
        table[row, col] := table[row, col] + count;
      }
      total, feed := total + count, Added(feed, (item, count));
    }

    method Estimate(item: T) returns (least: int)
      requires Valid()
      ensures least == EstimateOf(shape, feed, item)
    {
      least := table[0, Position(shape, item, 0)];
      for row := 1 to shape.depth
        invariant least == LeastOf(shape, feed, item, row)
      {
        least := Least(least, table[row, Position(shape, item, row)]);
      }
    }

    /** Null stands for the ValueError on different dimensions. */
    method MergeWith(other: MergeableCMS<T>) returns (r: MergeableCMS?<T>)
      requires Valid() && other.Valid() && other.shape.first == shape.first && other.shape.second == shape.second
      ensures r == null <==> shape.width != other.shape.width || shape.depth != other.shape.depth
      ensures r != null ==> fresh(r) && fresh(r.table) && r.Valid() && r.shape == shape && r.feed == Joined(feed, other.feed)
      ensures r != null ==> r.total == if total >= other.total then total else other.total
    {
      if shape.width != other.shape.width || shape.depth != other.shape.depth {
        return null;
      }
      assert shape == other.shape;
      var result := new MergeableCMS(shape);
      LargerInto(result.table, table, other.table);
      result.total, result.feed := Max(total, other.total), Joined(feed, other.feed);
      r := result;
    }
  }

  method LargerInto(target: array2<int>, x: array2<int>, y: array2<int>)
    requires target.Length0 == x.Length0 == y.Length0 && target.Length1 == x.Length1 == y.Length1
    requires target != x && target != y
    modifies target
    ensures forall row, col | 0 <= row < x.Length0 && 0 <= col < x.Length1 :: target[row, col] == Max(x[row, col], y[row, col])
  {
    for row := 0 to x.Length0
      invariant forall r, col | 0 <= r < row && 0 <= col < x.Length1 :: target[r, col] == Max(x[r, col], y[r, col])
    {
      for col := 0 to x.Length1
        invariant forall r, c | 0 <= r < row && 0 <= c < x.Length1 :: target[r, c] == Max(x[r, c], y[r, c])
        invariant forall c | 0 <= c < col :: target[row, c] == Max(x[row, c], y[row, c])
      {
        target[row, col] := Max(x[row, col], y[row, col]);
      }
    }
  }
}
