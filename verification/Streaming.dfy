/**
 Streaming merges of two keyed row sources: the merge-join over sorted sources and the hash join.
 A generator is modelled by the list of batches it yields.
*/
module Streaming {
  import opened Options
  import opened Rows

  // ---- batches ----

  /** A batch is full at `batchSize` rows; sizes below one behave like one. */
  function Full(batchSize: int): (n: nat)
    ensures n >= 1
  {
    if batchSize < 1 then 1 else batchSize
  }

  /** Every batch but the last has exactly `n` rows, and the last has one to `n`. */
  predicate Batched(batches: seq<seq<Row>>, n: nat) {
    && (forall i | 0 <= i < |batches| - 1 :: |batches[i]| == n)
    && (batches != [] ==> 1 <= |batches[|batches| - 1]| <= n)
  }

  predicate AllFull(batches: seq<seq<Row>>, n: nat) {
    forall i | 0 <= i < |batches| :: |batches[i]| == n
  }

  /** Adds a row to the open batch and yields the batch when it is full. */
  function Emit(batches: seq<seq<Row>>, open: seq<Row>, r: Row, n: nat): (seq<seq<Row>>, seq<Row>) {
    if |open| + 1 >= n then (batches + [open + [r]], []) else (batches, open + [r])
  }

  ghost predicate Yielding(batches: seq<seq<Row>>, open: seq<Row>, n: nat, out: seq<Row>) {
    AllFull(batches, n) && |open| < n && Flatten(batches) + open == out
  }

  lemma FlattenSnoc(batches: seq<seq<Row>>, last: seq<Row>)
    ensures Flatten(batches + [last]) == Flatten(batches) + last
  {
    var all := batches + [last];
    assert all[..|all| - 1] == batches && all[|all| - 1] == last;
  }

  lemma EmitYields(batches: seq<seq<Row>>, open: seq<Row>, r: Row, n: nat, out: seq<Row>)
    requires n >= 1 && Yielding(batches, open, n, out)
    ensures Yielding(Emit(batches, open, r, n).0, Emit(batches, open, r, n).1, n, out + [r])
  {
    var wider := open + [r];
    assert Flatten(batches) + wider == Flatten(batches) + open + [r];
    if |wider| >= n {
      FlattenSnoc(batches, wider);
      assert Flatten(batches + [wider]) + [] == Flatten(batches + [wider]);
    }
  }

  /** Yields what is left in the open batch, if anything. */
  function Close(batches: seq<seq<Row>>, open: seq<Row>): seq<seq<Row>> {
    if open == [] then batches else batches + [open]
  }

  lemma CloseYields(batches: seq<seq<Row>>, open: seq<Row>, n: nat, out: seq<Row>)
    requires n >= 1 && Yielding(batches, open, n, out)
    ensures Batched(Close(batches, open), n) && Flatten(Close(batches, open)) == out
  {
    if open != [] {
      FlattenSnoc(batches, open);
    } else {
      assert Flatten(batches) + [] == Flatten(batches);
    }
  }

  // ---- merge-join ----

  predicate Sorted(rs: seq<Row>, key: Column)
    requires AllKeyed(rs, key)
  {
    forall i, j | 0 <= i < j < |rs| :: KeyOf(rs[i], key) <= KeyOf(rs[j], key)
  }

  function MergeJoin(p: Policy, a: seq<Row>, b: seq<Row>, key: Column): (out: seq<Row>)
    requires AllKeyed(a, key) && AllKeyed(b, key)
    ensures AllKeyed(out, key)
    decreases |a| + |b|
  {
    if a == [] then b
    else if b == [] then a
    else if KeyOf(a[0], key) == KeyOf(b[0], key) then
      ResolveKeepsKey(p, a[0], b[0], a[0].Keys + b[0].Keys, key);
      [Merge(p, a[0], b[0])] + MergeJoin(p, a[1..], b[1..], key)
    else if KeyOf(a[0], key) < KeyOf(b[0], key) then [a[0]] + MergeJoin(p, a[1..], b, key)
    else [b[0]] + MergeJoin(p, a, b[1..], key)
  }

  /** How many pairs the merge-join merges. */
  function Matches(a: seq<Row>, b: seq<Row>, key: Column): nat
    requires AllKeyed(a, key) && AllKeyed(b, key)
    decreases |a| + |b|
  {
    if a == [] || b == [] then 0
    else if KeyOf(a[0], key) == KeyOf(b[0], key) then 1 + Matches(a[1..], b[1..], key)
    else if KeyOf(a[0], key) < KeyOf(b[0], key) then Matches(a[1..], b, key)
    else Matches(a, b[1..], key)
  }

  datatype Stats = Stats(processed: nat, merged: nat, uniqueA: int, uniqueB: nat, batches: nat)

  /** Counts are conserved: each input row is in exactly one output row, merged rows taking one of each side. */
  lemma {:induction false} CountsConserved(p: Policy, a: seq<Row>, b: seq<Row>, key: Column)
    requires AllKeyed(a, key) && AllKeyed(b, key)
    ensures |MergeJoin(p, a, b, key)| + Matches(a, b, key) == |a| + |b|
    decreases |a| + |b|
  {
    if a != [] && b != [] {
      if KeyOf(a[0], key) == KeyOf(b[0], key) {
        CountsConserved(p, a[1..], b[1..], key);
      } else if KeyOf(a[0], key) < KeyOf(b[0], key) {
        CountsConserved(p, a[1..], b, key);
      } else {
        CountsConserved(p, a, b[1..], key);
      }
    }
  }

  predicate AllAtLeast(rs: seq<Row>, key: Column, k: int)
    requires AllKeyed(rs, key)
  {
    forall r | r in rs :: KeyOf(r, key) >= k
  }

  lemma {:induction false} JoinAtLeast(p: Policy, a: seq<Row>, b: seq<Row>, key: Column, k: int)
    requires AllKeyed(a, key) && AllKeyed(b, key) && AllAtLeast(a, key, k) && AllAtLeast(b, key, k)
    ensures AllAtLeast(MergeJoin(p, a, b, key), key, k)
    decreases |a| + |b|
  {
    if a != [] && b != [] {
      assert a[0] in a && b[0] in b;
      if KeyOf(a[0], key) == KeyOf(b[0], key) {
        ResolveKeepsKey(p, a[0], b[0], a[0].Keys + b[0].Keys, key);
        JoinAtLeast(p, a[1..], b[1..], key, k);
      } else if KeyOf(a[0], key) < KeyOf(b[0], key) {
        JoinAtLeast(p, a[1..], b, key, k);
      } else {
        JoinAtLeast(p, a, b[1..], key, k);
      }
    }
  }

  lemma SortedTail(rs: seq<Row>, key: Column)
    requires AllKeyed(rs, key) && Sorted(rs, key) && rs != []
    ensures Sorted(rs[1..], key) && AllAtLeast(rs, key, KeyOf(rs[0], key))
  {
  }

  lemma SortedCons(r: Row, rs: seq<Row>, key: Column)
    requires AllKeyed([r] + rs, key) && AllKeyed(rs, key) && Keyed(r, key) && Sorted(rs, key) && AllAtLeast(rs, key, KeyOf(r, key))
    ensures Sorted([r] + rs, key)
  {
  }

  /** Sorted inputs give sorted output. */
  lemma {:induction false} JoinSorted(p: Policy, a: seq<Row>, b: seq<Row>, key: Column)
    requires AllKeyed(a, key) && AllKeyed(b, key) && Sorted(a, key) && Sorted(b, key)
    ensures Sorted(MergeJoin(p, a, b, key), key)
    decreases |a| + |b|
  {
    if a != [] && b != [] {
      SortedTail(a, key);
      SortedTail(b, key);
      if KeyOf(a[0], key) == KeyOf(b[0], key) {
        ResolveKeepsKey(p, a[0], b[0], a[0].Keys + b[0].Keys, key);
        JoinSorted(p, a[1..], b[1..], key);
        JoinAtLeast(p, a[1..], b[1..], key, KeyOf(a[0], key));
        SortedCons(Merge(p, a[0], b[0]), MergeJoin(p, a[1..], b[1..], key), key);
      } else if KeyOf(a[0], key) < KeyOf(b[0], key) {
        JoinSorted(p, a[1..], b, key);
        JoinAtLeast(p, a[1..], b, key, KeyOf(a[0], key));
        SortedCons(a[0], MergeJoin(p, a[1..], b, key), key);
      } else {
        JoinSorted(p, a, b[1..], key);
        JoinAtLeast(p, a, b[1..], key, KeyOf(b[0], key));
        SortedCons(b[0], MergeJoin(p, a, b[1..], key), key);
      }
    }
  }

  /** The row at `i` is not out of order with the one consumed before it. */
  predicate InOrderAt(rs: seq<Row>, key: Column, i: nat)
    requires AllKeyed(rs, key) && i < |rs|
  {
    i > 0 ==> KeyOf(rs[i - 1], key) <= KeyOf(rs[i], key)
  }

  ghost predicate SortedUpTo(rs: seq<Row>, key: Column, i: nat)
    requires AllKeyed(rs, key)
  {
    i <= |rs| && forall x, y | 0 <= x < y < i :: KeyOf(rs[x], key) <= KeyOf(rs[y], key)
  }

  lemma SortedUpToNext(rs: seq<Row>, key: Column, i: nat)
    requires AllKeyed(rs, key) && i < |rs| && SortedUpTo(rs, key, i)
    ensures InOrderAt(rs, key, i) ==> SortedUpTo(rs, key, i + 1)
    ensures !InOrderAt(rs, key, i) ==> !Sorted(rs, key)
  {
  }

  /** What a stopped run of the merge-join has emitted, and what is still to come. */
  ghost predicate Progress(p: Policy, a: seq<Row>, i: nat, b: seq<Row>, j: nat, key: Column, out: seq<Row>, merged: nat, uniqueB: nat)
    requires AllKeyed(a, key) && AllKeyed(b, key)
  {
    && i <= |a| && j <= |b|
    && out + MergeJoin(p, a[i..], b[j..], key) == MergeJoin(p, a, b, key)
    && merged + Matches(a[i..], b[j..], key) == Matches(a, b, key)
    && merged + uniqueB == j
  }

  /** The turns of the main loop: which row each emits and how far it moves. */
  lemma TakeBoth(p: Policy, a: seq<Row>, i: nat, b: seq<Row>, j: nat, key: Column, out: seq<Row>, merged: nat, uniqueB: nat)
    requires AllKeyed(a, key) && AllKeyed(b, key)
    requires Progress(p, a, i, b, j, key, out, merged, uniqueB) && i < |a| && j < |b|
    requires KeyOf(a[i], key) == KeyOf(b[j], key)
    ensures Progress(p, a, i + 1, b, j + 1, key, out + [Merge(p, a[i], b[j])], merged + 1, uniqueB)
  {
    var rest := MergeJoin(p, a[i..], b[j..], key);
    assert a[i..][1..] == a[i + 1..] && b[j..][1..] == b[j + 1..];
    assert out + rest == out + [rest[0]] + rest[1..];
  }

  lemma TakeLeft(p: Policy, a: seq<Row>, i: nat, b: seq<Row>, j: nat, key: Column, out: seq<Row>, merged: nat, uniqueB: nat)
    requires AllKeyed(a, key) && AllKeyed(b, key)
    requires Progress(p, a, i, b, j, key, out, merged, uniqueB) && i < |a| && j < |b|
    requires KeyOf(a[i], key) < KeyOf(b[j], key)
    ensures Progress(p, a, i + 1, b, j, key, out + [a[i]], merged, uniqueB)
  {
    var rest := MergeJoin(p, a[i..], b[j..], key);
    assert a[i..][1..] == a[i + 1..] && b[j..][1..] == b[j + 1..];
    assert out + rest == out + [rest[0]] + rest[1..];
  }

  lemma TakeRight(p: Policy, a: seq<Row>, i: nat, b: seq<Row>, j: nat, key: Column, out: seq<Row>, merged: nat, uniqueB: nat)
    requires AllKeyed(a, key) && AllKeyed(b, key)
    requires Progress(p, a, i, b, j, key, out, merged, uniqueB) && i < |a| && j < |b|
    requires KeyOf(a[i], key) > KeyOf(b[j], key)
    ensures Progress(p, a, i, b, j + 1, key, out + [b[j]], merged, uniqueB + 1)
  {
    var rest := MergeJoin(p, a[i..], b[j..], key);
    assert a[i..][1..] == a[i + 1..] && b[j..][1..] == b[j + 1..];
    assert out + rest == out + [rest[0]] + rest[1..];
  }

  lemma DrainTurnA(p: Policy, a: seq<Row>, i: nat, b: seq<Row>, key: Column, out: seq<Row>, merged: nat, uniqueB: nat)
    requires AllKeyed(a, key) && AllKeyed(b, key)
    requires Progress(p, a, i, b, |b|, key, out, merged, uniqueB) && i < |a|
    ensures Progress(p, a, i + 1, b, |b|, key, out + [a[i]], merged, uniqueB)
  {
    assert b[|b|..] == [];
    assert out + a[i..] == out + [a[i]] + a[i + 1..];
  }

  lemma DrainTurnB(p: Policy, a: seq<Row>, b: seq<Row>, j: nat, key: Column, out: seq<Row>, merged: nat, uniqueB: nat)
    requires AllKeyed(a, key) && AllKeyed(b, key)
    requires Progress(p, a, |a|, b, j, key, out, merged, uniqueB) && j < |b|
    ensures Progress(p, a, |a|, b, j + 1, key, out + [b[j]], merged, uniqueB + 1)
  {
    assert a[|a|..] == [];
    assert out + b[j..] == out + [b[j]] + b[j + 1..];
  }

  /** The two sources' read positions, the batches yielded, the open batch and the counters. */
  class SortedMerge {
    const policy: Policy
    const key: Column
    const a: seq<Row>
    const b: seq<Row>
    const n: nat
    var i: nat
    var j: nat
    var batches: seq<seq<Row>>
    var open: seq<Row>
    var merged: nat
    var uniqueB: nat
    var processed: nat  // rows in the batches yielded so far
    ghost var out: seq<Row>

    constructor (policy: Policy, a: seq<Row>, b: seq<Row>, key: Column, batchSize: int)
      requires AllKeyed(a, key) && AllKeyed(b, key)
      ensures this.policy == policy && this.key == key && this.a == a && this.b == b && this.n == Full(batchSize)
      ensures Valid()
    {
      this.policy, this.key, this.a, this.b, this.n := policy, key, a, b, Full(batchSize);
      i, j, batches, open, merged, uniqueB, processed, out := 0, 0, [], [], 0, 0, 0, [];
      new;
      assert a[0..] == a && b[0..] == b;
      assert [] + MergeJoin(policy, a, b, key) == MergeJoin(policy, a, b, key);
    }

    ghost predicate Valid()
      reads this
    {
      && AllKeyed(a, key) && AllKeyed(b, key) && n >= 1
      && Yielding(batches, open, n, out) && processed + |open| == |out|
      && Progress(policy, a, i, b, j, key, out, merged, uniqueB)
      && SortedUpTo(a, key, i) && SortedUpTo(b, key, j)
    }

    method Push(r: Row)
      requires n >= 1 && Yielding(batches, open, n, out) && processed + |open| == |out|
      modifies this`batches, this`open, this`processed, this`out
      ensures Yielding(batches, open, n, out) && processed + |open| == |out| && out == old(out) + [r]
    {
      EmitYields(batches, open, r, n, out);
      open := open + [r];
      if |open| >= n {
        batches := batches + [open];
        processed := processed + |open|;
        open := [];
      }
      out := out + [r];
    }

    method EmitMatch()
      requires Valid() && i < |a| && j < |b| && KeyOf(a[i], key) == KeyOf(b[j], key)
      requires SortedUpTo(a, key, i + 1) && SortedUpTo(b, key, j + 1)
      modifies this
      ensures Valid() && i == old(i) + 1 && j == old(j) + 1
    {
      TakeBoth(policy, a, i, b, j, key, out, merged, uniqueB);
      Push(Merge(policy, a[i], b[j]));
      merged, i, j := merged + 1, i + 1, j + 1;
    }

    method EmitLeft()
      requires Valid() && i < |a| && j < |b| && KeyOf(a[i], key) < KeyOf(b[j], key)
      requires SortedUpTo(a, key, i + 1)
      modifies this
      ensures Valid() && i == old(i) + 1 && j == old(j)
    {
      TakeLeft(policy, a, i, b, j, key, out, merged, uniqueB);
      Push(a[i]);
      i := i + 1;
    }

    method EmitRight()
      requires Valid() && i < |a| && j < |b| && KeyOf(a[i], key) > KeyOf(b[j], key)
      requires SortedUpTo(b, key, j + 1)
      modifies this
      ensures Valid() && i == old(i) && j == old(j) + 1
    {
      TakeRight(policy, a, i, b, j, key, out, merged, uniqueB);
      Push(b[j]);
      uniqueB, j := uniqueB + 1, j + 1;
    }

    /** One turn of the loop over both sources; false stands for the ValueError on unsorted input. */
    method Turn() returns (ok: bool)
      requires Valid() && i < |a| && j < |b|
      modifies this
      ensures Valid()
      ensures if ok then i + j > old(i) + old(j) else !(Sorted(a, key) && Sorted(b, key))
    {
      SortedUpToNext(a, key, i);
      SortedUpToNext(b, key, j);
      if !InOrderAt(a, key, i) || !InOrderAt(b, key, j) {
        return false;
      }
      if KeyOf(a[i], key) == KeyOf(b[j], key) {
        EmitMatch();
      } else if KeyOf(a[i], key) < KeyOf(b[j], key) {
        EmitLeft();
      } else {
        EmitRight();
      }
      ok := true;
    }

    method DrainA() returns (ok: bool)
      requires Valid() && j == |b| && i < |a|
      modifies this
      ensures Valid() && j == |b| && (ok ==> i == old(i) + 1)
      ensures !ok ==> !Sorted(a, key)
    {
      SortedUpToNext(a, key, i);
      if !InOrderAt(a, key, i) {
        return false;
      }
      DrainTurnA(policy, a, i, b, key, out, merged, uniqueB);
      Push(a[i]);
      i := i + 1;
      ok := true;
    }

    method DrainB() returns (ok: bool)
      requires Valid() && i == |a| && j < |b|
      modifies this
      ensures Valid() && i == |a| && (ok ==> j == old(j) + 1)
      ensures !ok ==> !Sorted(b, key)
    {
      SortedUpToNext(b, key, j);
      if !InOrderAt(b, key, j) {
        return false;
      }
      DrainTurnB(policy, a, b, j, key, out, merged, uniqueB);
      Push(b[j]);
      uniqueB, j := uniqueB + 1, j + 1;
      ok := true;
    }

    method Run() returns (ok: bool)
      requires Valid()
      modifies this
      ensures Valid() && (ok <==> Sorted(a, key) && Sorted(b, key))
      ensures ok ==> i == |a| && j == |b|
    {
      while i < |a| && j < |b|
        invariant Valid()
        decreases |a| - i + |b| - j
      {
        ok := Turn();
        if !ok {
          return;
        }
      }
      while i < |a|
        invariant Valid() && (i < |a| ==> j == |b|)
      {
        ok := DrainA();
        if !ok {
          return;
        }
      }
      while j < |b|
        invariant Valid() && i == |a|
      {
        ok := DrainB();
        if !ok {
          return;
        }
      }
      ok := true;
    }
  }

  /** Once both sources are consumed the emitted rows are the whole join, and the counters are its counts. */
  lemma JoinDone(p: Policy, a: seq<Row>, b: seq<Row>, key: Column, out: seq<Row>, merged: nat, uniqueB: nat)
    requires AllKeyed(a, key) && AllKeyed(b, key)
    requires Progress(p, a, |a|, b, |b|, key, out, merged, uniqueB)
    ensures out == MergeJoin(p, a, b, key)
    ensures merged == Matches(a, b, key) && merged + uniqueB == |b| && |out| == |a| + uniqueB
  {
    assert a[|a|..] == [] && b[|b|..] == [];
    assert out + [] == out;
    CountsConserved(p, a, b, key);
  }

  lemma PrefixOfJoin(p: Policy, a: seq<Row>, i: nat, b: seq<Row>, j: nat, key: Column,
                     batches: seq<seq<Row>>, open: seq<Row>, n: nat, out: seq<Row>, merged: nat, uniqueB: nat)
    requires AllKeyed(a, key) && AllKeyed(b, key)
    requires Yielding(batches, open, n, out) && Progress(p, a, i, b, j, key, out, merged, uniqueB)
    ensures AllFull(batches, n) && Flatten(batches) <= MergeJoin(p, a, b, key)
  {
    assert Flatten(batches) + open + MergeJoin(p, a[i..], b[j..], key) == MergeJoin(p, a, b, key);
  }

  /** The merge-join stream finishes exactly when both sources are sorted; then it yields the join in full batches
      but the last, with exact counts. Stopped by unsorted input, it has yielded full batches of a prefix of the join. */
  method MergeSortedStream(p: Policy, a: seq<Row>, b: seq<Row>, key: Column, batchSize: int)
    returns (ok: bool, batches: seq<seq<Row>>, stats: Stats)
    requires AllKeyed(a, key) && AllKeyed(b, key)
    ensures ok <==> Sorted(a, key) && Sorted(b, key)
    ensures ok ==> Flatten(batches) == MergeJoin(p, a, b, key) && Batched(batches, if batchSize < 1 then 1 else batchSize)
    ensures ok ==> Joins(p, a, b, key, Flatten(batches))
    ensures ok ==> stats.processed == |MergeJoin(p, a, b, key)| && stats.batches == |batches|
    ensures ok ==> stats.merged == Matches(a, b, key)
                   && stats.merged + stats.uniqueA == |a| && stats.merged + stats.uniqueB == |b|
    ensures !ok ==> AllFull(batches, Full(batchSize)) && Flatten(batches) <= MergeJoin(p, a, b, key)
  {
    var m := new SortedMerge(p, a, b, key, batchSize);
    ok := m.Run();
    if ok {
      JoinJoins(p, a, b, key);
      JoinDone(p, a, b, key, m.out, m.merged, m.uniqueB);
      CloseYields(m.batches, m.open, m.n, m.out);
      batches := Close(m.batches, m.open);
      var processed := m.processed + |m.open|;
      stats := Stats(processed, m.merged, processed - m.merged - m.uniqueB, m.uniqueB, |batches|);
    } else {
      PrefixOfJoin(p, a, m.i, b, m.j, key, m.batches, m.open, m.n, m.out, m.merged, m.uniqueB);
      batches := m.batches;
      stats := Stats(m.processed, 0, 0, 0, |batches|);
    }
  }

  // ---- what the merge-join puts out ----

  /** The rows of key `k`, in order. */
  function RowsOf(rs: seq<Row>, key: Column, k: int): seq<Row>
    requires AllKeyed(rs, key)
  {
    if rs == [] then []
    else (if KeyOf(rs[0], key) == k then [rs[0]] else []) + RowsOf(rs[1..], key, k)
  }

  /** Rows of one key from two sources: joined pair by pair, and what is left over of the longer list as given. */
  predicate Paired(p: Policy, xs: seq<Row>, ys: seq<Row>, out: seq<Row>) {
    && |out| == (if |xs| > |ys| then |xs| else |ys|)
    && forall i | 0 <= i < |out| ::
         if i >= |xs| then out[i] == ys[i]
         else if i >= |ys| then out[i] == xs[i]
         else JoinedOver(p, xs[i], ys[i], xs[i].Keys + ys[i].Keys, out[i])
  }

  /** What a join of sorted sources puts out, key by key. */
  ghost predicate Joins(p: Policy, a: seq<Row>, b: seq<Row>, key: Column, out: seq<Row>)
    requires AllKeyed(a, key) && AllKeyed(b, key)
  {
    AllKeyed(out, key) && forall k :: Paired(p, RowsOf(a, key, k), RowsOf(b, key, k), RowsOf(out, key, k))
  }

  lemma PairedCons(p: Policy, x: Row, y: Row, r: Row, xs: seq<Row>, ys: seq<Row>, out: seq<Row>)
    requires Paired(p, xs, ys, out) && JoinedOver(p, x, y, x.Keys + y.Keys, r)
    ensures Paired(p, [x] + xs, [y] + ys, [r] + out)
  {
  }

  lemma AloneLeft(p: Policy, r: Row, rest: seq<Row>, out: seq<Row>)
    requires Paired(p, rest, [], out)
    ensures Paired(p, [r] + rest, [], [r] + out)
  {
  }

  lemma AloneRight(p: Policy, r: Row, rest: seq<Row>, out: seq<Row>)
    requires Paired(p, [], rest, out)
    ensures Paired(p, [], [r] + rest, [r] + out)
  {
  }

  lemma {:induction false} NoneBelow(rs: seq<Row>, key: Column, k: int)
    requires AllKeyed(rs, key) && Sorted(rs, key) && (rs == [] || k < KeyOf(rs[0], key))
    ensures RowsOf(rs, key, k) == []
    decreases |rs|
  {
    if |rs| > 1 {
      SortedTail(rs, key);
      NoneBelow(rs[1..], key, k);
    }
  }

  lemma RowsOfCons(r: Row, rest: seq<Row>, key: Column, k: int)
    requires Keyed(r, key) && AllKeyed(rest, key)
    ensures AllKeyed([r] + rest, key)
    ensures RowsOf([r] + rest, key, k) == (if KeyOf(r, key) == k then [r] else []) + RowsOf(rest, key, k)
  {
    assert ([r] + rest)[1..] == rest;
  }

  // One turn of the join at one key, given the rest of the join.
  lemma PairMatched(p: Policy, a: seq<Row>, b: seq<Row>, key: Column, k: int)
    requires AllKeyed(a, key) && AllKeyed(b, key) && a != [] && b != [] && KeyOf(a[0], key) == KeyOf(b[0], key)
    requires Paired(p, RowsOf(a[1..], key, k), RowsOf(b[1..], key, k), RowsOf(MergeJoin(p, a[1..], b[1..], key), key, k))
    ensures Paired(p, RowsOf(a, key, k), RowsOf(b, key, k), RowsOf(MergeJoin(p, a, b, key), key, k))
  {
    var x, y := a[0], b[0];
    var rest := MergeJoin(p, a[1..], b[1..], key);
    ResolveKeepsKey(p, x, y, x.Keys + y.Keys, key);
    RowsOfCons(Merge(p, x, y), rest, key, k);
    if KeyOf(x, key) == k {
      ResolvedIsJoined(p, x, y, x.Keys + y.Keys);
      PairedCons(p, x, y, Merge(p, x, y), RowsOf(a[1..], key, k), RowsOf(b[1..], key, k), RowsOf(rest, key, k));
    }
  }

  lemma TakesLeft(p: Policy, a: seq<Row>, b: seq<Row>, key: Column)
    requires AllKeyed(a, key) && AllKeyed(b, key) && a != [] && b != [] && KeyOf(a[0], key) < KeyOf(b[0], key)
    ensures MergeJoin(p, a, b, key) == [a[0]] + MergeJoin(p, a[1..], b, key)
  {
  }

  lemma TakesRight(p: Policy, a: seq<Row>, b: seq<Row>, key: Column)
    requires AllKeyed(a, key) && AllKeyed(b, key) && a != [] && b != [] && KeyOf(a[0], key) > KeyOf(b[0], key)
    ensures MergeJoin(p, a, b, key) == [b[0]] + MergeJoin(p, a, b[1..], key)
  {
  }

  /** A row of a key that the other source does not have goes in front of a join of the rest. */
  lemma LeftAhead(p: Policy, x: Row, rest: seq<Row>, others: seq<Row>, out: seq<Row>, key: Column, k: int)
    requires Keyed(x, key) && AllKeyed(rest, key) && AllKeyed(others, key) && AllKeyed(out, key)
    requires RowsOf(others, key, KeyOf(x, key)) == []
    requires Paired(p, RowsOf(rest, key, k), RowsOf(others, key, k), RowsOf(out, key, k))
    ensures AllKeyed([x] + rest, key) && AllKeyed([x] + out, key)
    ensures Paired(p, RowsOf([x] + rest, key, k), RowsOf(others, key, k), RowsOf([x] + out, key, k))
  {
    RowsOfCons(x, rest, key, k);
    RowsOfCons(x, out, key, k);
    if KeyOf(x, key) == k {
      AloneLeft(p, x, RowsOf(rest, key, k), RowsOf(out, key, k));
    } else {
      assert RowsOf([x] + rest, key, k) == RowsOf(rest, key, k) && RowsOf([x] + out, key, k) == RowsOf(out, key, k);
    }
  }

  lemma RightAhead(p: Policy, y: Row, rest: seq<Row>, others: seq<Row>, out: seq<Row>, key: Column, k: int)
    requires Keyed(y, key) && AllKeyed(rest, key) && AllKeyed(others, key) && AllKeyed(out, key)
    requires RowsOf(others, key, KeyOf(y, key)) == []
    requires Paired(p, RowsOf(others, key, k), RowsOf(rest, key, k), RowsOf(out, key, k))
    ensures AllKeyed([y] + rest, key) && AllKeyed([y] + out, key)
    ensures Paired(p, RowsOf(others, key, k), RowsOf([y] + rest, key, k), RowsOf([y] + out, key, k))
  {
    RowsOfCons(y, rest, key, k);
    RowsOfCons(y, out, key, k);
    if KeyOf(y, key) == k {
      AloneRight(p, y, RowsOf(rest, key, k), RowsOf(out, key, k));
    } else {
      assert RowsOf([y] + rest, key, k) == RowsOf(rest, key, k) && RowsOf([y] + out, key, k) == RowsOf(out, key, k);
    }
  }

  lemma OneSided(p: Policy, xs: seq<Row>)
    ensures Paired(p, xs, [], xs) && Paired(p, [], xs, xs)
  {
  }

  /** On sorted sources, whatever keys repeat: rows of one key are joined pair by pair in order, the surplus of either
      side and rows of keys that one source alone has come out as they are, and nothing else does. */
  lemma {:induction false} JoinPairs(p: Policy, a: seq<Row>, b: seq<Row>, key: Column, k: int)
    requires AllKeyed(a, key) && AllKeyed(b, key) && Sorted(a, key) && Sorted(b, key)
    ensures Paired(p, RowsOf(a, key, k), RowsOf(b, key, k), RowsOf(MergeJoin(p, a, b, key), key, k))
    decreases |a| + |b|
  {
    if a == [] {
      OneSided(p, RowsOf(b, key, k));
    } else if b == [] {
      OneSided(p, RowsOf(a, key, k));
    } else if KeyOf(a[0], key) == KeyOf(b[0], key) {
      SortedTail(a, key);
      SortedTail(b, key);
      JoinPairs(p, a[1..], b[1..], key, k);
      PairMatched(p, a, b, key, k);
    } else if KeyOf(a[0], key) < KeyOf(b[0], key) {
      SortedTail(a, key);
      JoinPairs(p, a[1..], b, key, k);
      NoneBelow(b, key, KeyOf(a[0], key));
      TakesLeft(p, a, b, key);
      assert a == [a[0]] + a[1..];
      LeftAhead(p, a[0], a[1..], b, MergeJoin(p, a[1..], b, key), key, k);
    } else {
      SortedTail(b, key);
      JoinPairs(p, a, b[1..], key, k);
      NoneBelow(a, key, KeyOf(b[0], key));
      TakesRight(p, a, b, key);
      assert b == [b[0]] + b[1..];
      RightAhead(p, b[0], b[1..], a, MergeJoin(p, a, b[1..], key), key, k);
    }
  }

  lemma JoinJoins(p: Policy, a: seq<Row>, b: seq<Row>, key: Column)
    requires AllKeyed(a, key) && AllKeyed(b, key) && Sorted(a, key) && Sorted(b, key)
    ensures Joins(p, a, b, key, MergeJoin(p, a, b, key))
  {
    forall k ensures Paired(p, RowsOf(a, key, k), RowsOf(b, key, k), RowsOf(MergeJoin(p, a, b, key), key, k)) {
      JoinPairs(p, a, b, key, k);
    }
  }

  // ---- hash join ----

  /** The columns used for merged rows: those of the first merge, widened only by a pair with more columns. */
  function Grow(cached: Option<set<Column>>, columns: set<Column>): set<Column> {
    match cached
    case None => columns
    case Some(c) => if |columns| > |c| then c + columns else c
  }

  /** Dict assignment and deletion on a list of rows by key. */
  function PutRow(index: seq<Row>, key: Column, r: Row): (out: seq<Row>)
    requires AllKeyed(index, key) && Keyed(r, key)
    ensures AllKeyed(out, key)
  {
    if index == [] then [r]
    else if KeyOf(index[0], key) == KeyOf(r, key) then [r] + index[1..]
    else [index[0]] + PutRow(index[1..], key, r)
  }

  function Without(index: seq<Row>, key: Column, k: int): (out: seq<Row>)
    requires AllKeyed(index, key)
    ensures AllKeyed(out, key)
  {
    if index == [] then []
    else if KeyOf(index[0], key) == k then index[1..]
    else [index[0]] + Without(index[1..], key, k)
  }

  function IndexRows(b: seq<Row>, key: Column): (index: seq<Row>)
    requires AllKeyed(b, key)
    ensures AllKeyed(index, key)
  {
    if b == [] then [] else PutRow(IndexRows(b[..|b| - 1], key), key, b[|b| - 1])
  }

  function HashJoin(p: Policy, a: seq<Row>, index: seq<Row>, cached: Option<set<Column>>, key: Column): seq<Row>
    requires AllKeyed(a, key) && AllKeyed(index, key)
    decreases |a|
  {
    if a == [] then index
    else
      var k := KeyOf(a[0], key);
      var found := AtKey(index, key, k);
      if found.None? then [a[0]] + HashJoin(p, a[1..], index, cached, key)
      else
        var columns := Grow(cached, a[0].Keys + found.value.Keys);
        [ResolveRow(p, a[0], found.value, columns)] + HashJoin(p, a[1..], Without(index, key, k), Some(columns), key)
  }

  function HashMatches(a: seq<Row>, index: seq<Row>, key: Column): nat
    requires AllKeyed(a, key) && AllKeyed(index, key)
    decreases |a|
  {
    if a == [] then 0
    else if AtKey(index, key, KeyOf(a[0], key)).None? then HashMatches(a[1..], index, key)
    else 1 + HashMatches(a[1..], Without(index, key, KeyOf(a[0], key)), key)
  }

  lemma {:induction false} WithoutLength(index: seq<Row>, key: Column, k: int)
    requires AllKeyed(index, key)
    ensures |Without(index, key, k)| + (if AtKey(index, key, k).Some? then 1 else 0) == |index|
    decreases |index|
  {
    if index != [] && KeyOf(index[0], key) != k { WithoutLength(index[1..], key, k); }
  }

  /** What the hash join has emitted after `i` rows of the first source, and what is still to come. */
  ghost predicate HashProgress(p: Policy, a: seq<Row>, i: nat, b: seq<Row>, key: Column, index: seq<Row>,
                               cached: Option<set<Column>>, out: seq<Row>, merged: nat)
    requires AllKeyed(a, key) && AllKeyed(b, key)
  {
    && i <= |a| && AllKeyed(index, key)
    && out + HashJoin(p, a[i..], index, cached, key) == HashJoin(p, a, IndexRows(b, key), None, key)
    && merged + HashMatches(a[i..], index, key) == HashMatches(a, IndexRows(b, key), key)
    && merged + |index| == |IndexRows(b, key)|
  }

  lemma HashTakesMatch(p: Policy, a: seq<Row>, index: seq<Row>, cached: Option<set<Column>>, key: Column)
    requires AllKeyed(a, key) && AllKeyed(index, key) && a != [] && AtKey(index, key, KeyOf(a[0], key)).Some?
    ensures var found := AtKey(index, key, KeyOf(a[0], key)).value;
            var columns, rest := Grow(cached, a[0].Keys + found.Keys), Without(index, key, KeyOf(a[0], key));
            && HashJoin(p, a, index, cached, key)
               == [ResolveRow(p, a[0], found, columns)] + HashJoin(p, a[1..], rest, Some(columns), key)
            && HashMatches(a, index, key) == 1 + HashMatches(a[1..], rest, key)
  {
  }

  lemma HashTakesRow(p: Policy, a: seq<Row>, index: seq<Row>, cached: Option<set<Column>>, key: Column)
    requires AllKeyed(a, key) && AllKeyed(index, key) && a != [] && AtKey(index, key, KeyOf(a[0], key)).None?
    ensures HashJoin(p, a, index, cached, key) == [a[0]] + HashJoin(p, a[1..], index, cached, key)
    ensures HashMatches(a, index, key) == HashMatches(a[1..], index, key)
  {
  }

  lemma MatchTurn(p: Policy, a: seq<Row>, i: nat, b: seq<Row>, key: Column, index: seq<Row>,
                  cached: Option<set<Column>>, out: seq<Row>, merged: nat)
    requires AllKeyed(a, key) && AllKeyed(b, key) && i < |a|
    requires HashProgress(p, a, i, b, key, index, cached, out, merged)
    requires AtKey(index, key, KeyOf(a[i], key)).Some?
    ensures var found := AtKey(index, key, KeyOf(a[i], key)).value;
            var columns := Grow(cached, a[i].Keys + found.Keys);
            HashProgress(p, a, i + 1, b, key, Without(index, key, KeyOf(a[i], key)), Some(columns),
                         out + [ResolveRow(p, a[i], found, columns)], merged + 1)
  {
    var found := AtKey(index, key, KeyOf(a[i], key)).value;
    var columns, left := Grow(cached, a[i].Keys + found.Keys), Without(index, key, KeyOf(a[i], key));
    assert a[i..][0] == a[i] && a[i..][1..] == a[i + 1..];
    HashTakesMatch(p, a[i..], index, cached, key);
    Regroup(out, ResolveRow(p, a[i], found, columns), HashJoin(p, a[i + 1..], left, Some(columns), key));
    WithoutLength(index, key, KeyOf(a[i], key));
  }

  lemma Regroup(out: seq<Row>, r: Row, rest: seq<Row>)
    ensures out + ([r] + rest) == out + [r] + rest
  {
  }

  lemma PassTurn(p: Policy, a: seq<Row>, i: nat, b: seq<Row>, key: Column, index: seq<Row>,
                 cached: Option<set<Column>>, out: seq<Row>, merged: nat)
    requires AllKeyed(a, key) && AllKeyed(b, key) && i < |a|
    requires HashProgress(p, a, i, b, key, index, cached, out, merged)
    requires AtKey(index, key, KeyOf(a[i], key)).None?
    ensures HashProgress(p, a, i + 1, b, key, index, cached, out + [a[i]], merged)
  {
    assert a[i..][0] == a[i] && a[i..][1..] == a[i + 1..];
    HashTakesRow(p, a[i..], index, cached, key);
    Regroup(out, a[i], HashJoin(p, a[i + 1..], index, cached, key));
  }

  /** Streams the first source against the index of the second. */
  method StreamFirst(p: Policy, a: seq<Row>, b: seq<Row>, key: Column, n: nat)
    returns (batches: seq<seq<Row>>, open: seq<Row>, index: seq<Row>, merged: nat, uniqueA: nat, ghost out: seq<Row>)
    requires AllKeyed(a, key) && AllKeyed(b, key) && n >= 1
    ensures AllKeyed(index, key) && Yielding(batches, open, n, out) && merged + uniqueA == |out| == |a|
    ensures out + index == HashJoin(p, a, IndexRows(b, key), None, key)
    ensures merged == HashMatches(a, IndexRows(b, key), key) && merged + |index| == |IndexRows(b, key)|
  {
    index := IndexRows(b, key);
    var cached: Option<set<Column>> := None;
    batches, open, merged, uniqueA, out := [], [], 0, 0, [];
    assert a[0..] == a;
    for i := 0 to |a|
      invariant HashProgress(p, a, i, b, key, index, cached, out, merged)
      invariant Yielding(batches, open, n, out) && merged + uniqueA == |out| == i
    {
      var found := AtKey(index, key, KeyOf(a[i], key));
      var r := a[i];
      if found.Some? {
        MatchTurn(p, a, i, b, key, index, cached, out, merged);
        cached := Some(Grow(cached, a[i].Keys + found.value.Keys));
        r := ResolveRow(p, a[i], found.value, cached.value);
        index := Without(index, key, KeyOf(a[i], key));
        merged := merged + 1;
      } else {
        PassTurn(p, a, i, b, key, index, cached, out, merged);
        uniqueA := uniqueA + 1;
      }
      EmitYields(batches, open, r, n, out);
      var step := Emit(batches, open, r, n);
      batches, open := step.0, step.1;
      out := out + [r];
    }
    StreamedAll(p, a, b, key, index, cached, out, merged);
  }

  lemma StreamedAll(p: Policy, a: seq<Row>, b: seq<Row>, key: Column, index: seq<Row>,
                    cached: Option<set<Column>>, out: seq<Row>, merged: nat)
    requires AllKeyed(a, key) && AllKeyed(b, key) && HashProgress(p, a, |a|, b, key, index, cached, out, merged)
    ensures AllKeyed(index, key) && out + index == HashJoin(p, a, IndexRows(b, key), None, key)
    ensures merged == HashMatches(a, IndexRows(b, key), key) && merged + |index| == |IndexRows(b, key)|
  {
    assert a[|a|..] == [];
  }

  /** The hash join loads the second source, streams the first against it, and then yields what was not matched. */
  method MergeStream(p: Policy, a: seq<Row>, b: seq<Row>, key: Column, batchSize: int) returns (batches: seq<seq<Row>>, stats: Stats)
    requires AllKeyed(a, key) && AllKeyed(b, key)
    ensures Flatten(batches) == HashJoin(p, a, IndexRows(b, key), None, key) && Batched(batches, if batchSize < 1 then 1 else batchSize)
    ensures HashJoins(p, a, b, key, Flatten(batches))
    ensures stats.merged == HashMatches(a, IndexRows(b, key), key)
    ensures stats.merged + stats.uniqueA == |a| && stats.merged + stats.uniqueB == |IndexRows(b, key)|
    ensures stats.processed == |Flatten(batches)| && stats.batches == |batches|
  {
    var n := Full(batchSize);
    var yielded, open, index, merged, uniqueA, out := StreamFirst(p, a, b, key, n);
    batches := DrainIndex(index, yielded, open, n, out);
    HashJoinJoins(p, a, b, key);
    stats := Stats(merged + uniqueA + |index|, merged, uniqueA, |index|, |batches|);
  }

  /** Yields the unmatched rows of the second source and closes the stream. */
  method DrainIndex(index: seq<Row>, batches: seq<seq<Row>>, open: seq<Row>, n: nat, ghost out: seq<Row>)
    returns (all: seq<seq<Row>>)
    requires n >= 1 && Yielding(batches, open, n, out)
    ensures Batched(all, n) && Flatten(all) == out + index
  {
    var rest := open;
    all := batches;
    for i := 0 to |index|
      invariant Yielding(all, rest, n, out + index[..i])
    {
      EmitYields(all, rest, index[i], n, out + index[..i]);
      assert out + index[..i + 1] == out + index[..i] + [index[i]];
      var step := Emit(all, rest, index[i], n);
      all, rest := step.0, step.1;
    }
    assert index[..|index|] == index;
    CloseYields(all, rest, n, out + index);
    all := Close(all, rest);
  }

  // ---- what the hash join puts out ----

  predicate HasKey(rs: seq<Row>, key: Column, k: int)
    requires AllKeyed(rs, key)
  {
    exists i :: 0 <= i < |rs| && KeyOf(rs[i], key) == k
  }

  predicate FirstOf(rs: seq<Row>, key: Column, i: int)
    requires AllKeyed(rs, key)
  {
    0 <= i < |rs| && forall j | 0 <= j < i :: KeyOf(rs[j], key) != KeyOf(rs[i], key)
  }

  predicate LastOf(rs: seq<Row>, key: Column, i: int)
    requires AllKeyed(rs, key)
  {
    0 <= i < |rs| && forall j | i < j < |rs| :: KeyOf(rs[j], key) != KeyOf(rs[i], key)
  }

  /** What row `i` of the first source becomes: the first row of a key is joined with the key's last row in the second
      source, and every other row comes out as given. */
  ghost predicate HashRow(p: Policy, a: seq<Row>, b: seq<Row>, key: Column, i: int, r: Row)
    requires AllKeyed(a, key) && AllKeyed(b, key) && 0 <= i < |a|
  {
    && (forall j | LastOf(b, key, j) && KeyOf(b[j], key) == KeyOf(a[i], key) && FirstOf(a, key, i) ::
          JoinedOver(p, a[i], b[j], r.Keys, r))
    && (!FirstOf(a, key, i) || !HasKey(b, key, KeyOf(a[i], key)) ==> r == a[i])
  }

  /** What a hash join puts out, by position: the rows of the first source, then the last rows of the keys that only the
      second source has, each once. */
  ghost predicate HashJoins(p: Policy, a: seq<Row>, b: seq<Row>, key: Column, out: seq<Row>)
    requires AllKeyed(a, key) && AllKeyed(b, key)
  {
    && |out| >= |a| && AllKeyed(out[|a|..], key) && DistinctKeys(out[|a|..], key)
    && (forall i | 0 <= i < |a| :: HashRow(p, a, b, key, i, out[i]))
    && (forall r :: r in out[|a|..] <==> exists j :: LastOf(b, key, j) && r == b[j] && !HasKey(a, key, KeyOf(b[j], key)))
  }

  /** All matching pairs have these columns between them. */
  ghost predicate OneWidth(a: seq<Row>, b: seq<Row>, columns: set<Column>, key: Column)
    requires AllKeyed(a, key) && AllKeyed(b, key)
  {
    forall x, y {:trigger PairFits(x, y, columns, key)} | x in a && y in b :: PairFits(x, y, columns, key)
  }

  predicate PairFits(x: Row, y: Row, columns: set<Column>, key: Column) {
    Cell(x, key) == Cell(y, key) ==> x.Keys + y.Keys == columns
  }

  lemma {:induction false} WithoutLookup(index: seq<Row>, key: Column, k: int, l: int)
    requires AllKeyed(index, key) && DistinctKeys(index, key)
    ensures DistinctKeys(Without(index, key, k), key)
    ensures AtKey(Without(index, key, k), key, l) == if l == k then None else AtKey(index, key, l)
    decreases |index|
  {
    if index != [] && KeyOf(index[0], key) != k {
      WithoutLookup(index[1..], key, k, l);
      WithoutLookup(index[1..], key, k, KeyOf(index[0], key));
    }
  }

  lemma {:induction false} WithoutHolds(index: seq<Row>, key: Column, k: int, r: Row)
    requires AllKeyed(index, key) && DistinctKeys(index, key)
    ensures r in Without(index, key, k) <==> r in index && KeyOf(r, key) != k
  {
    WithoutLookup(index, key, k, k);
    AtKeyFinds(index, key, r);
    AtKeyFinds(Without(index, key, k), key, r);
    if Keyed(r, key) { WithoutLookup(index, key, k, KeyOf(r, key)); }
  }

  /** `IndexedRow` is `HashRow` for an index of the second source. */
  predicate IndexedRow(p: Policy, a: seq<Row>, index: seq<Row>, key: Column, i: int, r: Row)
    requires AllKeyed(a, key) && AllKeyed(index, key) && 0 <= i < |a|
  {
    var y := AtKey(index, key, KeyOf(a[i], key));
    if y.Some? && FirstOf(a, key, i) then JoinedOver(p, a[i], y.value, r.Keys, r) else r == a[i]
  }

  lemma FirstOfTail(a: seq<Row>, key: Column, i: int)
    requires AllKeyed(a, key) && 0 < i < |a|
    ensures FirstOf(a, key, i) <==> FirstOf(a[1..], key, i - 1) && KeyOf(a[0], key) != KeyOf(a[i], key)
  {
    if FirstOf(a[1..], key, i - 1) && KeyOf(a[0], key) != KeyOf(a[i], key) {
      forall j | 0 <= j < i ensures KeyOf(a[j], key) != KeyOf(a[i], key) {
        assert j > 0 ==> a[j] == a[1..][j - 1];
      }
    }
    if FirstOf(a, key, i) {
      forall j | 0 <= j < i - 1 ensures KeyOf(a[1..][j], key) != KeyOf(a[1..][i - 1], key) {
        assert a[1..][j] == a[j + 1];
      }
    }
  }

  lemma {:induction false} HashPuts(p: Policy, a: seq<Row>, index: seq<Row>, cached: Option<set<Column>>, key: Column, i: nat)
    requires AllKeyed(a, key) && AllKeyed(index, key) && DistinctKeys(index, key) && i < |a|
    ensures i < |HashJoin(p, a, index, cached, key)|
    ensures IndexedRow(p, a, index, key, i, HashJoin(p, a, index, cached, key)[i])
    decreases |a|
  {
    var x := KeyOf(a[0], key);
    var found := AtKey(index, key, x);
    if found.Some? {
      var columns := Grow(cached, a[0].Keys + found.value.Keys);
      HashTakesMatch(p, a, index, cached, key);
      if i == 0 {
        ResolvedIsJoined(p, a[0], found.value, columns);
      } else {
        WithoutLookup(index, key, x, KeyOf(a[i], key));
        HashPuts(p, a[1..], Without(index, key, x), Some(columns), key, i - 1);
        FirstOfTail(a, key, i);
      }
    } else {
      HashTakesRow(p, a, index, cached, key);
      if i > 0 {
        HashPuts(p, a[1..], index, cached, key, i - 1);
        FirstOfTail(a, key, i);
      }
    }
  }

  /** What the rows of `a` leave of an index. */
  function Leftover(a: seq<Row>, index: seq<Row>, key: Column): (left: seq<Row>)
    requires AllKeyed(a, key) && AllKeyed(index, key)
    ensures AllKeyed(left, key)
    decreases |a|
  {
    if a == [] then index else Leftover(a[1..], Without(index, key, KeyOf(a[0], key)), key)
  }

  lemma {:induction false} WithoutAbsent(index: seq<Row>, key: Column, k: int)
    requires AllKeyed(index, key) && AtKey(index, key, k).None?
    ensures Without(index, key, k) == index
    decreases |index|
  {
    if index != [] { WithoutAbsent(index[1..], key, k); }
  }

  lemma {:induction false} HashTail(p: Policy, a: seq<Row>, index: seq<Row>, cached: Option<set<Column>>, key: Column)
    requires AllKeyed(a, key) && AllKeyed(index, key)
    ensures var out := HashJoin(p, a, index, cached, key);
            |out| >= |a| && out[|a|..] == Leftover(a, index, key)
    decreases |a|
  {
    if a != [] {
      var k := KeyOf(a[0], key);
      var found := AtKey(index, key, k);
      if found.Some? {
        var columns, left := Grow(cached, a[0].Keys + found.value.Keys), Without(index, key, k);
        HashTakesMatch(p, a, index, cached, key);
        HashTail(p, a[1..], left, Some(columns), key);
        TailOfCons(ResolveRow(p, a[0], found.value, columns), HashJoin(p, a[1..], left, Some(columns), key), |a|);
      } else {
        HashTakesRow(p, a, index, cached, key);
        WithoutAbsent(index, key, k);
        HashTail(p, a[1..], index, cached, key);
        TailOfCons(a[0], HashJoin(p, a[1..], index, cached, key), |a|);
      }
    }
  }

  lemma {:induction false} LeftoverHolds(a: seq<Row>, index: seq<Row>, key: Column, r: Row)
    requires AllKeyed(a, key) && AllKeyed(index, key) && DistinctKeys(index, key)
    ensures DistinctKeys(Leftover(a, index, key), key)
    ensures r in Leftover(a, index, key) <==> r in index && forall x | x in a :: KeyOf(x, key) != KeyOf(r, key)
    decreases |a|
  {
    if a != [] {
      var k := KeyOf(a[0], key);
      assert a == [a[0]] + a[1..];
      WithoutLookup(index, key, k, k);
      WithoutHolds(index, key, k, r);
      LeftoverHolds(a[1..], Without(index, key, k), key, r);
    }
  }

  lemma TailOfCons(r: Row, rest: seq<Row>, n: nat)
    requires 0 < n <= |rest| + 1
    ensures ([r] + rest)[n..] == rest[n - 1..]
  {
  }

  lemma {:induction false} PutRowLookup(index: seq<Row>, key: Column, r: Row, k: int)
    requires AllKeyed(index, key) && DistinctKeys(index, key) && Keyed(r, key)
    ensures DistinctKeys(PutRow(index, key, r), key)
    ensures AtKey(PutRow(index, key, r), key, k) == if k == KeyOf(r, key) then Some(r) else AtKey(index, key, k)
    decreases |index|
  {
    if index != [] {
      if KeyOf(index[0], key) == KeyOf(r, key) {
        assert ([r] + index[1..])[1..] == index[1..];
      } else {
        var rest := PutRow(index[1..], key, r);
        assert ([index[0]] + rest)[1..] == rest;
        PutRowLookup(index[1..], key, r, k);
        PutRowLookup(index[1..], key, r, KeyOf(index[0], key));
      }
    }
  }

  /** The index holds the last row of every key. */
  lemma {:induction false} IndexLookup(b: seq<Row>, key: Column, k: int)
    requires AllKeyed(b, key)
    ensures DistinctKeys(IndexRows(b, key), key)
    ensures AtKey(IndexRows(b, key), key, k).Some? <==> HasKey(b, key, k)
    ensures forall j | LastOf(b, key, j) && KeyOf(b[j], key) == k :: AtKey(IndexRows(b, key), key, k) == Some(b[j])
    decreases |b|
  {
    if b != [] {
      var n := |b| - 1;
      IndexLookup(b[..n], key, k);
      PutRowLookup(IndexRows(b[..n], key), key, b[n], k);
      HasKeyPrefix(b, key, k);
      forall j | LastOf(b, key, j) && KeyOf(b[j], key) == k ensures AtKey(IndexRows(b, key), key, k) == Some(b[j]) {
        LastOfPrefix(b, key, j);
        assert j < n ==> b[..n][j] == b[j];
      }
    }
  }

  lemma HasKeyPrefix(b: seq<Row>, key: Column, k: int)
    requires AllKeyed(b, key) && b != []
    ensures HasKey(b, key, k) <==> k == KeyOf(b[|b| - 1], key) || HasKey(b[..|b| - 1], key, k)
  {
    var n := |b| - 1;
    if i :| 0 <= i < n && KeyOf(b[i], key) == k {
      assert b[..n][i] == b[i];
    }
    if i :| 0 <= i < n && KeyOf(b[..n][i], key) == k {
      assert b[i] == b[..n][i];
    }
  }

  /** The last row of a key is the last row of all, or the last of that key among the others. */
  lemma LastOfPrefix(b: seq<Row>, key: Column, j: int)
    requires AllKeyed(b, key) && b != [] && LastOf(b, key, j)
    ensures j == |b| - 1 || (KeyOf(b[j], key) != KeyOf(b[|b| - 1], key) && LastOf(b[..|b| - 1], key, j))
  {
    var n := |b| - 1;
    if j < n {
      forall l | j < l < n ensures KeyOf(b[..n][l], key) != KeyOf(b[..n][j], key) {
        assert b[..n][l] == b[l] && b[..n][j] == b[j];
      }
    }
  }

  lemma {:induction false} HasLastOf(b: seq<Row>, key: Column, k: int) returns (j: int)
    requires AllKeyed(b, key) && HasKey(b, key, k)
    ensures LastOf(b, key, j) && KeyOf(b[j], key) == k
    decreases |b|
  {
    var n := |b| - 1;
    if KeyOf(b[n], key) == k {
      j := n;
    } else {
      var i :| 0 <= i < |b| && KeyOf(b[i], key) == k;
      assert b[..n][i] == b[i];
      j := HasLastOf(b[..n], key, k);
      assert b[..n][j] == b[j];
    }
  }

  lemma IndexIsLasts(b: seq<Row>, key: Column, r: Row)
    requires AllKeyed(b, key)
    ensures r in IndexRows(b, key) <==> exists j :: LastOf(b, key, j) && r == b[j]
  {
    var index := IndexRows(b, key);
    if Keyed(r, key) {
      IndexLookup(b, key, KeyOf(r, key));
      AtKeyFinds(index, key, r);
      if r in index {
        var j := HasLastOf(b, key, KeyOf(r, key));
      }
    }
    if j :| LastOf(b, key, j) && r == b[j] {
      assert b[j] in b;
    }
  }

  lemma HashRowOf(p: Policy, a: seq<Row>, b: seq<Row>, key: Column, i: nat)
    requires AllKeyed(a, key) && AllKeyed(b, key) && i < |a|
    ensures var out := HashJoin(p, a, IndexRows(b, key), None, key);
            i < |out| && HashRow(p, a, b, key, i, out[i])
  {
    IndexLookup(b, key, KeyOf(a[i], key));
    HashPuts(p, a, IndexRows(b, key), None, key, i);
  }

  lemma HashTailOf(p: Policy, a: seq<Row>, b: seq<Row>, key: Column, r: Row)
    requires AllKeyed(a, key) && AllKeyed(b, key)
    ensures var out := HashJoin(p, a, IndexRows(b, key), None, key);
            && |out| >= |a| && AllKeyed(out[|a|..], key) && DistinctKeys(out[|a|..], key)
            && (r in out[|a|..] <==> exists j :: LastOf(b, key, j) && r == b[j] && !HasKey(a, key, KeyOf(b[j], key)))
  {
    IndexLookup(b, key, 0);
    HashTail(p, a, IndexRows(b, key), None, key);
    LeftoverHolds(a, IndexRows(b, key), key, r);
    IndexIsLasts(b, key, r);
    if Keyed(r, key) {
      assert HasKey(a, key, KeyOf(r, key)) <==> exists x :: x in a && KeyOf(x, key) == KeyOf(r, key) by {
        if x :| x in a && KeyOf(x, key) == KeyOf(r, key) {
          var i :| 0 <= i < |a| && a[i] == x;
        }
      }
    }
  }

  lemma WidthOfFewer(a: seq<Row>, b: seq<Row>, c: seq<Row>, d: seq<Row>, columns: set<Column>, key: Column)
    requires AllKeyed(a, key) && AllKeyed(b, key) && AllKeyed(c, key) && AllKeyed(d, key) && OneWidth(a, b, columns, key)
    requires (forall r | r in c :: r in a) && (forall r | r in d :: r in b)
    ensures OneWidth(c, d, columns, key)
  {
    forall x, y | x in c && y in d ensures PairFits(x, y, columns, key) {
      assert x in a && y in b;
    }
  }

  lemma PairWidth(a: seq<Row>, index: seq<Row>, cached: Option<set<Column>>, columns: set<Column>, key: Column)
    requires AllKeyed(a, key) && AllKeyed(index, key) && a != [] && AtKey(index, key, KeyOf(a[0], key)).Some?
    requires OneWidth(a, index, columns, key) && CacheFits(cached, columns)
    ensures Grow(cached, a[0].Keys + AtKey(index, key, KeyOf(a[0], key)).value.Keys) == columns
  {
    assert a[0] in a && PairFits(a[0], AtKey(index, key, KeyOf(a[0], key)).value, columns, key);
  }

  predicate WideAt(out: seq<Row>, i: nat, columns: set<Column>) {
    i < |out| && out[i].Keys == columns
  }

  lemma WideCons(r: Row, rest: seq<Row>, i: nat, columns: set<Column>)
    requires if i == 0 then r.Keys == columns else WideAt(rest, i - 1, columns)
    ensures WideAt([r] + rest, i, columns)
  {
  }

  /** Where all matching pairs have the same columns between them, a joined row has them all. */
  lemma {:induction false} HashWidth(p: Policy, a: seq<Row>, index: seq<Row>, cached: Option<set<Column>>, columns: set<Column>,
                                     key: Column, i: nat)
    requires AllKeyed(a, key) && AllKeyed(index, key) && DistinctKeys(index, key) && i < |a|
    requires OneWidth(a, index, columns, key) && CacheFits(cached, columns)
    requires FirstOf(a, key, i) && AtKey(index, key, KeyOf(a[i], key)).Some?
    ensures WideAt(HashJoin(p, a, index, cached, key), i, columns)
    decreases |a|
  {
    var x := KeyOf(a[0], key);
    var found := AtKey(index, key, x);
    if i > 0 { FirstOfTail(a, key, i); }
    if found.Some? {
      HashTakesMatch(p, a, index, cached, key);
      PairWidth(a, index, cached, columns, key);
      if i > 0 {
        WithoutNarrows(a, index, columns, key, x, a[i]);
        HashWidth(p, a[1..], Without(index, key, x), Some(columns), columns, key, i - 1);
      }
      WideCons(ResolveRow(p, a[0], found.value, columns), HashJoin(p, a[1..], Without(index, key, x), Some(columns), key), i, columns);
    } else {
      HashTakesRow(p, a, index, cached, key);
      WidthOfFewer(a, index, a[1..], index, columns, key);
      HashWidth(p, a[1..], index, cached, columns, key, i - 1);
      WideCons(a[0], HashJoin(p, a[1..], index, cached, key), i, columns);
    }
  }

  lemma WithoutNarrows(a: seq<Row>, index: seq<Row>, columns: set<Column>, key: Column, k: int, r: Row)
    requires AllKeyed(a, key) && AllKeyed(index, key) && DistinctKeys(index, key) && a != [] && Keyed(r, key)
    requires OneWidth(a, index, columns, key) && KeyOf(r, key) != k
    ensures OneWidth(a[1..], Without(index, key, k), columns, key) && DistinctKeys(Without(index, key, k), key)
    ensures AtKey(Without(index, key, k), key, KeyOf(r, key)) == AtKey(index, key, KeyOf(r, key))
  {
    WithoutLookup(index, key, k, KeyOf(r, key));
    forall y | y in Without(index, key, k) ensures y in index {
      WithoutHolds(index, key, k, y);
    }
    WidthOfFewer(a, index, a[1..], Without(index, key, k), columns, key);
  }

  /** The columns are all there when all matching pairs have the same ones between them. */
  lemma HashJoinWidth(p: Policy, a: seq<Row>, b: seq<Row>, columns: set<Column>, key: Column, i: nat)
    requires AllKeyed(a, key) && AllKeyed(b, key) && i < |a| && OneWidth(a, b, columns, key)
    requires FirstOf(a, key, i) && HasKey(b, key, KeyOf(a[i], key))
    ensures var out := HashJoin(p, a, IndexRows(b, key), None, key);
            i < |out| && out[i].Keys == columns
  {
    IndexLookup(b, key, KeyOf(a[i], key));
    forall y | y in IndexRows(b, key) ensures y in b {
      IndexIsLasts(b, key, y);
    }
    WidthOfFewer(a, b, a, IndexRows(b, key), columns, key);
    HashWidth(p, a, IndexRows(b, key), None, columns, key, i);
  }

  /** A pair keeps all its columns exactly when the cached ones include them or are fewer. */
  lemma ColumnsKeptIff(cached: set<Column>, columns: set<Column>)
    ensures columns <= Grow(Some(cached), columns) <==> columns <= cached || |columns| > |cached|
  {
  }

  lemma OnePair(p: Policy, x: Row, y: Row, cached: Option<set<Column>>, key: Column)
    requires Keyed(x, key) && Keyed(y, key) && KeyOf(x, key) == KeyOf(y, key)
    ensures HashJoin(p, [x], [y], cached, key) == [ResolveRow(p, x, y, Grow(cached, x.Keys + y.Keys))]
  {
    HashTakesMatch(p, [x], [y], cached, key);
    assert [x][1..] == [] && [y][1..] == [];
  }

  lemma TwoPairs(p: Policy, x: Row, y: Row, x': Row, y': Row, key: Column)
    requires Keyed(x, key) && Keyed(y, key) && Keyed(x', key) && Keyed(y', key)
    requires KeyOf(x, key) == KeyOf(y, key) != KeyOf(x', key) == KeyOf(y', key)
    ensures var columns := x.Keys + y.Keys;
            HashJoin(p, [x, x'], [y, y'], None, key) ==
            [ResolveRow(p, x, y, columns), ResolveRow(p, x', y', Grow(Some(columns), x'.Keys + y'.Keys))]
  {
    HashTakesMatch(p, [x, x'], [y, y'], None, key);
    assert [x, x'][1..] == [x'] && [y, y'][1..] == [y'];
    OnePair(p, x', y', Some(x.Keys + y.Keys), key);
  }

  /** So the second of two pairs can lose a column that the first did not have. */
  lemma CacheDropsColumn(p: Policy, u: Value, v: Value)
    requires u != Null && v != Null
    ensures var a := [map["id" := Num(1), "p" := u], map["id" := Num(2), "q" := v]];
            var b := [map["id" := Num(1)], map["id" := Num(2)]];
            HashJoin(p, a, b, None, "id") == [map["id" := Num(1), "p" := u], map["id" := Num(2), "p" := Null]]
  {
    var x: Row, x': Row := map["id" := Num(1), "p" := u], map["id" := Num(2), "q" := v];
    var y: Row, y': Row := map["id" := Num(1)], map["id" := Num(2)];
    TwoPairs(p, x, y, x', y', "id");
    TwoColumns(p, Num(1), "p", u, x.Keys + y.Keys);
    SameSize(x', y');
    TwoColumns(p, Num(2), "q", v, x.Keys + y.Keys);
  }

  lemma SameSize(x: Row, y: Row)
    requires x.Keys == {"id", "q"} && y.Keys == {"id"}
    ensures Grow(Some({"id", "p"}), x.Keys + y.Keys) == {"id", "p"}
  {
    assert x.Keys + y.Keys == {"id", "q"};
  }

  /** A row with one cell besides its id, resolved against the bare id over the columns "id" and "p". */
  lemma TwoColumns(p: Policy, id: Value, c: Column, v: Value, columns: set<Column>)
    requires c != "id" && v != Null && columns == {"id", "p"}
    ensures ResolveRow(p, map["id" := id, c := v], map["id" := id], columns) ==
            map["id" := id, "p" := if c == "p" then v else Null]
  {
  }

  lemma HashJoinJoins(p: Policy, a: seq<Row>, b: seq<Row>, key: Column)
    requires AllKeyed(a, key) && AllKeyed(b, key)
    ensures HashJoins(p, a, b, key, HashJoin(p, a, IndexRows(b, key), None, key))
  {
    var out := HashJoin(p, a, IndexRows(b, key), None, key);
    forall r: Row
      ensures |out| >= |a| && AllKeyed(out[|a|..], key) && DistinctKeys(out[|a|..], key)
      ensures r in out[|a|..] <==> exists j :: LastOf(b, key, j) && r == b[j] && !HasKey(a, key, KeyOf(b[j], key))
    {
      HashTailOf(p, a, b, key, r);
    }
    HashTailOf(p, a, b, key, map[]);
    forall i | 0 <= i < |a| ensures HashRow(p, a, b, key, i, out[i]) {
      HashRowOf(p, a, b, key, i);
    }
  }

  // ---- the two joins agree ----

  predicate SameColumns(rs: seq<Row>, columns: set<Column>) {
    forall r | r in rs :: r.Keys == columns
  }

  /** The row either join owes to key `k`. */
  function JoinedAt(p: Policy, a: seq<Row>, b: seq<Row>, columns: set<Column>, key: Column, k: int): Option<Row>
    requires AllKeyed(a, key) && AllKeyed(b, key)
  {
    var x, y := AtKey(a, key, k), AtKey(b, key, k);
    if x.None? then y else if y.None? then x else Some(ResolveRow(p, x.value, y.value, columns))
  }

  lemma {:induction false} NotAtKey(rs: seq<Row>, key: Column, k: int)
    requires AllKeyed(rs, key) && AllAtLeast(rs, key, k + 1)
    ensures AtKey(rs, key, k).None?
    decreases |rs|
  {
    if rs != [] {
      assert rs[0] in rs;
      NotAtKey(rs[1..], key, k);
    }
  }

  /** Rows sorted by distinct keys: the head is below all that follow. */
  lemma HeadBelowTail(rs: seq<Row>, key: Column)
    requires AllKeyed(rs, key) && Sorted(rs, key) && DistinctKeys(rs, key) && rs != []
    ensures AllAtLeast(rs[1..], key, KeyOf(rs[0], key) + 1)
  {
    forall r | r in rs[1..] ensures KeyOf(r, key) > KeyOf(rs[0], key) {
      AtKeyFinds(rs[1..], key, r);
    }
  }

  ghost predicate Tidy(rs: seq<Row>, columns: set<Column>, key: Column) {
    AllKeyed(rs, key) && DistinctKeys(rs, key) && SameColumns(rs, columns)
  }

  ghost predicate TidySorted(rs: seq<Row>, columns: set<Column>, key: Column) {
    Tidy(rs, columns, key) && Sorted(rs, key)
  }

  lemma TidyTail(rs: seq<Row>, columns: set<Column>, key: Column)
    requires TidySorted(rs, columns, key) && rs != []
    ensures TidySorted(rs[1..], columns, key) && AllAtLeast(rs[1..], key, KeyOf(rs[0], key) + 1)
    ensures Keyed(rs[0], key) && rs[0].Keys == columns && key in columns
  {
    assert rs[0] in rs;
    HeadBelowTail(rs, key);
    SortedTail(rs, key);
  }

  lemma StillAtLeast(rs: seq<Row>, key: Column, k: int, l: int)
    requires AllKeyed(rs, key) && AllAtLeast(rs, key, l) && k <= l
    ensures AllAtLeast(rs, key, k)
  {
  }

  // The join at one key, given what the rest of the join holds there.
  lemma MatchedAt(p: Policy, a: seq<Row>, b: seq<Row>, columns: set<Column>, key: Column, k: int)
    requires AllKeyed(a, key) && AllKeyed(b, key) && a != [] && b != [] && KeyOf(a[0], key) == KeyOf(b[0], key)
    requires a[0].Keys == b[0].Keys == columns && key in columns
    requires AtKey(MergeJoin(p, a[1..], b[1..], key), key, k) == JoinedAt(p, a[1..], b[1..], columns, key, k)
    ensures AtKey(MergeJoin(p, a, b, key), key, k) == JoinedAt(p, a, b, columns, key, k)
  {
    assert a[0].Keys + b[0].Keys == columns;
    ResolveKeepsKey(p, a[0], b[0], columns, key);
  }

  lemma LeftAt(p: Policy, a: seq<Row>, b: seq<Row>, columns: set<Column>, key: Column, k: int)
    requires AllKeyed(a, key) && AllKeyed(b, key) && a != [] && b != [] && KeyOf(a[0], key) < KeyOf(b[0], key)
    requires AtKey(b, key, KeyOf(a[0], key)).None?
    requires AtKey(MergeJoin(p, a[1..], b, key), key, k) == JoinedAt(p, a[1..], b, columns, key, k)
    ensures AtKey(MergeJoin(p, a, b, key), key, k) == JoinedAt(p, a, b, columns, key, k)
  {
  }

  lemma RightAt(p: Policy, a: seq<Row>, b: seq<Row>, columns: set<Column>, key: Column, k: int)
    requires AllKeyed(a, key) && AllKeyed(b, key) && a != [] && b != [] && KeyOf(a[0], key) > KeyOf(b[0], key)
    requires AtKey(a, key, KeyOf(b[0], key)).None?
    requires AtKey(MergeJoin(p, a, b[1..], key), key, k) == JoinedAt(p, a, b[1..], columns, key, k)
    ensures AtKey(MergeJoin(p, a, b, key), key, k) == JoinedAt(p, a, b, columns, key, k)
  {
  }

  lemma {:induction false} MergeJoinAt(p: Policy, a: seq<Row>, b: seq<Row>, columns: set<Column>, key: Column, k: int)
    requires TidySorted(a, columns, key) && TidySorted(b, columns, key)
    ensures AtKey(MergeJoin(p, a, b, key), key, k) == JoinedAt(p, a, b, columns, key, k)
    decreases |a| + |b|
  {
    if a != [] && b != [] {
      TidyTail(a, columns, key);
      TidyTail(b, columns, key);
      var x, y := KeyOf(a[0], key), KeyOf(b[0], key);
      if x == y {
        MergeJoinAt(p, a[1..], b[1..], columns, key, k);
        MatchedAt(p, a, b, columns, key, k);
      } else if x < y {
        MergeJoinAt(p, a[1..], b, columns, key, k);
        StillAtLeast(b[1..], key, x + 1, y + 1);
        NotAtKey(b, key, x);
        LeftAt(p, a, b, columns, key, k);
      } else {
        MergeJoinAt(p, a, b[1..], columns, key, k);
        StillAtLeast(a[1..], key, y + 1, x + 1);
        NotAtKey(a, key, y);
        RightAt(p, a, b, columns, key, k);
      }
    }
  }

  lemma {:induction false} MergeJoinDistinct(p: Policy, a: seq<Row>, b: seq<Row>, columns: set<Column>, key: Column)
    requires TidySorted(a, columns, key) && TidySorted(b, columns, key)
    ensures DistinctKeys(MergeJoin(p, a, b, key), key)
    decreases |a| + |b|
  {
    if a != [] && b != [] {
      TidyTail(a, columns, key);
      TidyTail(b, columns, key);
      var x, y := KeyOf(a[0], key), KeyOf(b[0], key);
      if x == y {
        assert a[0].Keys + b[0].Keys == columns;
        ResolveKeepsKey(p, a[0], b[0], columns, key);
        MergeJoinDistinct(p, a[1..], b[1..], columns, key);
        JoinAtLeast(p, a[1..], b[1..], key, x + 1);
        NotAtKey(MergeJoin(p, a[1..], b[1..], key), key, x);
      } else if x < y {
        MergeJoinDistinct(p, a[1..], b, columns, key);
        StillAtLeast(b[1..], key, x + 1, y + 1);
        JoinAtLeast(p, a[1..], b, key, x + 1);
        NotAtKey(MergeJoin(p, a[1..], b, key), key, x);
      } else {
        MergeJoinDistinct(p, a, b[1..], columns, key);
        StillAtLeast(a[1..], key, y + 1, x + 1);
        JoinAtLeast(p, a, b[1..], key, y + 1);
        NotAtKey(MergeJoin(p, a, b[1..], key), key, y);
      }
    }
  }

  lemma {:induction false} WithoutAt(index: seq<Row>, columns: set<Column>, key: Column, k: int, l: int)
    requires Tidy(index, columns, key)
    ensures Tidy(Without(index, key, k), columns, key)
    ensures AtKey(Without(index, key, k), key, l) == if l == k then None else AtKey(index, key, l)
    decreases |index|
  {
    if index != [] {
      assert forall r | r in index[1..] :: r in index;
      assert index[0] in index;
      if KeyOf(index[0], key) != k {
        WithoutAt(index[1..], columns, key, k, l);
        WithoutAt(index[1..], columns, key, k, KeyOf(index[0], key));
        assert SameColumns(Without(index, key, k), columns);
      }
    }
  }

  ghost predicate CacheFits(cached: Option<set<Column>>, columns: set<Column>) {
    cached.Some? ==> cached.value == columns
  }

  /** The hash join owes each key the same row, and owes it once. */
  lemma {:induction false} HashJoinAt(p: Policy, a: seq<Row>, index: seq<Row>, cached: Option<set<Column>>,
                                      columns: set<Column>, key: Column, k: int)
    requires Tidy(a, columns, key) && Tidy(index, columns, key) && CacheFits(cached, columns)
    ensures var out := HashJoin(p, a, index, cached, key);
            AllKeyed(out, key) && AtKey(out, key, k) == JoinedAt(p, a, index, columns, key, k)
    decreases |a|
  {
    if a != [] {
      assert forall r | r in a[1..] :: r in a;
      assert a[0] in a && key in columns;
      var x := KeyOf(a[0], key);
      var found := AtKey(index, key, x);
      if found.Some? {
        assert found.value in index;
        assert Grow(cached, a[0].Keys + found.value.Keys) == columns;
        WithoutAt(index, columns, key, x, k);
        HashJoinAt(p, a[1..], Without(index, key, x), Some(columns), columns, key, k);
        HashMatchAt(p, a, index, cached, columns, key, k);
      } else {
        HashJoinAt(p, a[1..], index, cached, columns, key, k);
        HashPassAt(p, a, index, cached, columns, key, k);
      }
    }
  }

  lemma HashPassAt(p: Policy, a: seq<Row>, index: seq<Row>, cached: Option<set<Column>>, columns: set<Column>, key: Column, k: int)
    requires AllKeyed(a, key) && AllKeyed(index, key) && a != [] && AtKey(index, key, KeyOf(a[0], key)).None?
    requires var out := HashJoin(p, a[1..], index, cached, key);
             AllKeyed(out, key) && AtKey(out, key, k) == JoinedAt(p, a[1..], index, columns, key, k)
    ensures var out := HashJoin(p, a, index, cached, key);
            AllKeyed(out, key) && AtKey(out, key, k) == JoinedAt(p, a, index, columns, key, k)
  {
    HashTakesRow(p, a, index, cached, key);
  }

  lemma HashMatchAt(p: Policy, a: seq<Row>, index: seq<Row>, cached: Option<set<Column>>, columns: set<Column>, key: Column, k: int)
    requires AllKeyed(a, key) && AllKeyed(index, key) && a != [] && key in columns
    requires AtKey(index, key, KeyOf(a[0], key)).Some?
    requires Grow(cached, a[0].Keys + AtKey(index, key, KeyOf(a[0], key)).value.Keys) == columns
    requires var rest, left := a[1..], Without(index, key, KeyOf(a[0], key));
             && AtKey(left, key, k) == (if k == KeyOf(a[0], key) then None else AtKey(index, key, k))
             && var out := HashJoin(p, rest, left, Some(columns), key);
                AllKeyed(out, key) && AtKey(out, key, k) == JoinedAt(p, rest, left, columns, key, k)
    ensures var out := HashJoin(p, a, index, cached, key);
            AllKeyed(out, key) && AtKey(out, key, k) == JoinedAt(p, a, index, columns, key, k)
  {
    HashTakesMatch(p, a, index, cached, key);
    ResolveKeepsKey(p, a[0], AtKey(index, key, KeyOf(a[0], key)).value, columns, key);
  }

  lemma {:induction false} HashJoinDistinct(p: Policy, a: seq<Row>, index: seq<Row>, cached: Option<set<Column>>,
                                            columns: set<Column>, key: Column)
    requires Tidy(a, columns, key) && Tidy(index, columns, key) && CacheFits(cached, columns)
    ensures var out := HashJoin(p, a, index, cached, key);
            AllKeyed(out, key) && DistinctKeys(out, key)
    decreases |a|
  {
    if a != [] {
      assert forall r | r in a[1..] :: r in a;
      assert a[0] in a && key in columns;
      var x := KeyOf(a[0], key);
      var found := AtKey(index, key, x);
      if found.Some? {
        assert found.value in index;
        assert Grow(cached, a[0].Keys + found.value.Keys) == columns;
        ResolveKeepsKey(p, a[0], found.value, columns, key);
        WithoutAt(index, columns, key, x, x);
        HashJoinDistinct(p, a[1..], Without(index, key, x), Some(columns), columns, key);
        HashJoinAt(p, a[1..], Without(index, key, x), Some(columns), columns, key, x);
      } else {
        HashJoinDistinct(p, a[1..], index, cached, columns, key);
        HashJoinAt(p, a[1..], index, cached, columns, key, x);
      }
    }
  }

  lemma {:induction false} PutNewRow(index: seq<Row>, key: Column, r: Row)
    requires AllKeyed(index, key) && Keyed(r, key) && AtKey(index, key, KeyOf(r, key)).None?
    ensures PutRow(index, key, r) == index + [r]
    decreases |index|
  {
    if index != [] { PutNewRow(index[1..], key, r); }
  }

  lemma {:induction false} DistinctPrefix(rs: seq<Row>, key: Column)
    requires AllKeyed(rs, key) && DistinctKeys(rs, key) && rs != []
    ensures var init := rs[..|rs| - 1];
            DistinctKeys(init, key) && AtKey(init, key, KeyOf(rs[|rs| - 1], key)).None?
    decreases |rs|
  {
    var n := |rs| - 1;
    if n > 0 {
      var init, tail := rs[..n], rs[1..];
      assert init[1..] == tail[..n - 1] && tail[n - 1] == rs[n];
      DistinctPrefix(tail, key);
      assert tail == tail[..n - 1] + [tail[n - 1]];
      AtKeyOfPrefix(tail[..n - 1], [tail[n - 1]], key, KeyOf(rs[0], key));
    }
  }

  lemma {:induction false} AtKeyOfPrefix(x: seq<Row>, y: seq<Row>, key: Column, k: int)
    requires AllKeyed(x, key) && AllKeyed(y, key) && AllKeyed(x + y, key)
    ensures AtKey(x + y, key, k) == if AtKey(x, key, k).Some? then AtKey(x, key, k) else AtKey(y, key, k)
    decreases |x|
  {
    if x == [] {
      assert x + y == y;
    } else {
      assert (x + y)[1..] == x[1..] + y;
      AtKeyOfPrefix(x[1..], y, key, k);
    }
  }

  /** A source without repeated keys is its own index. */
  lemma {:induction false} DistinctIndex(b: seq<Row>, key: Column)
    requires AllKeyed(b, key) && DistinctKeys(b, key)
    ensures IndexRows(b, key) == b
    decreases |b|
  {
    if b != [] {
      var n := |b| - 1;
      DistinctPrefix(b, key);
      DistinctIndex(b[..n], key);
      PutNewRow(b[..n], key, b[n]);
    }
  }

  /** On sorted sources of one column set without repeated keys, the merge-join and the hash join yield the same rows. */
  lemma JoinsAgree(p: Policy, a: seq<Row>, b: seq<Row>, columns: set<Column>, key: Column)
    requires TidySorted(a, columns, key) && TidySorted(b, columns, key)
    ensures multiset(MergeJoin(p, a, b, key)) == multiset(HashJoin(p, a, IndexRows(b, key), None, key))
  {
    DistinctIndex(b, key);
    var x, y := MergeJoin(p, a, b, key), HashJoin(p, a, b, None, key);
    MergeJoinDistinct(p, a, b, columns, key);
    HashJoinDistinct(p, a, b, None, columns, key);
    forall k ensures AtKey(x, key, k) == AtKey(y, key, k) {
      MergeJoinAt(p, a, b, columns, key, k);
      HashJoinAt(p, a, b, None, columns, key, k);
    }
    SameRows(x, y, key);
  }
}
