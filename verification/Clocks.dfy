/** Vector clocks and dotted version vectors: causal comparison and the element-wise-max merge. */
module Clocks {
  import opened Options

  type NodeId = string

  /** Zero counters are stripped at construction, so equal clocks are equal maps. */
  type VectorClock = c: map<NodeId, nat> | forall n | n in c :: c[n] > 0 witness map[]

  datatype Ordering = BEFORE | AFTER | EQUAL | CONCURRENT

  function Get(c: VectorClock, n: NodeId): nat {
    if n in c then c[n] else 0
  }

  function Increment(c: VectorClock, n: NodeId): VectorClock {
    c[n := Get(c, n) + 1]
  }

  function Max(a: nat, b: nat): nat {
    if a >= b then a else b
  }

  function Merge(a: VectorClock, b: VectorClock): (m: VectorClock)
    ensures forall n :: Get(m, n) == Max(Get(a, n), Get(b, n))
  {
    map n | n in a.Keys + b.Keys :: Max(Get(a, n), Get(b, n))
  }

  /** With zeros stripped, a clock is determined by its counters. */
  lemma SameCounters(a: VectorClock, b: VectorClock)
    requires forall n :: Get(a, n) == Get(b, n)
    ensures a == b
  {
    forall n ensures n in a <==> n in b {
      assert Get(a, n) == Get(b, n);
    }
    assert a.Keys == b.Keys;
    forall n | n in a ensures a[n] == b[n] {
      assert Get(a, n) == Get(b, n);
    }
  }

  /** The pointwise order: every event `a` has counted, `b` has counted too. */
  predicate Leq(a: VectorClock, b: VectorClock) {
    forall n | n in a :: a[n] <= Get(b, n)
  }

  function Compare(a: VectorClock, b: VectorClock): Ordering {
    if Leq(a, b) then (if Leq(b, a) then EQUAL else BEFORE)
    else if Leq(b, a) then AFTER
    else CONCURRENT
  }

  /** One pass over the nodes of both clocks with two flags, leaving early once both are up. */
  method CompareByFlags(a: VectorClock, b: VectorClock) returns (o: Ordering)
    ensures o == Compare(a, b)
  {
    var rest := a.Keys + b.Keys;
    if rest == {} {
      return EQUAL;
    }
    var hasLess, hasGreater := false, false;
    while rest != {}
      invariant rest <= a.Keys + b.Keys
      invariant hasLess <==> exists n | n in a.Keys + b.Keys - rest :: Get(a, n) < Get(b, n)
      invariant hasGreater <==> exists n | n in a.Keys + b.Keys - rest :: Get(a, n) > Get(b, n)
      invariant !(hasLess && hasGreater)
      decreases |rest|
    {
      var n :| n in rest;
      ghost var seen := a.Keys + b.Keys - rest;
      rest := rest - {n};
      assert a.Keys + b.Keys - rest == seen + {n};
      if Get(a, n) < Get(b, n) {
        hasLess := true;
      } else if Get(a, n) > Get(b, n) {
        hasGreater := true;
      }
      if hasLess && hasGreater {
        ghost var x :| x in seen + {n} && Get(a, x) < Get(b, x);
        ghost var y :| y in seen + {n} && Get(a, y) > Get(b, y);
        assert !Leq(b, a) && !Leq(a, b);
        return CONCURRENT;
      }
    }
    assert a.Keys + b.Keys - rest == a.Keys + b.Keys;
    if hasLess && !hasGreater {
      return BEFORE;
    }
    if hasGreater && !hasLess {
      return AFTER;
    }
    return EQUAL;
  }

  /** EQUAL is equality of clocks: no two distinct clocks are confused. */
  lemma CompareEqual(a: VectorClock, b: VectorClock)
    ensures Compare(a, b) == EQUAL <==> a == b
  {
    if Leq(a, b) && Leq(b, a) {
      assert a.Keys == b.Keys;
      assert forall n | n in a :: a[n] == b[n];
    }
  }

  /** Swapping the operands swaps BEFORE and AFTER and fixes the other two verdicts. */
  lemma CompareMirrors(a: VectorClock, b: VectorClock)
    ensures Compare(b, a) == (match Compare(a, b) case BEFORE => AFTER case AFTER => BEFORE case o => o)
  {
  }

  lemma LeqTransitive(a: VectorClock, b: VectorClock, c: VectorClock)
    requires Leq(a, b) && Leq(b, c)
    ensures Leq(a, c)
  {
    forall n | n in a ensures a[n] <= Get(c, n) {
      assert n in b;
    }
  }

  /** An increment adds one to the node's own counter and nothing else. */
  lemma IncrementAddsOne(c: VectorClock, n: NodeId, m: NodeId)
    ensures Get(Increment(c, n), m) == Get(c, m) + if m == n then 1 else 0
  {
  }

  lemma IncrementAfter(c: VectorClock, n: NodeId, e: VectorClock)
    requires Leq(e, c)
    ensures Compare(e, Increment(c, n)) == BEFORE
  {
    assert Get(Increment(c, n), n) > Get(e, n);
  }

  /** Merge is the least upper bound of its operands in the causal order. */
  lemma MergeIsLub(a: VectorClock, b: VectorClock, u: VectorClock)
    ensures Leq(a, Merge(a, b)) && Leq(b, Merge(a, b))
    ensures Leq(a, u) && Leq(b, u) <==> Leq(Merge(a, b), u)
  {
    var m := Merge(a, b);
    forall n | n in a ensures a[n] <= Get(m, n) { assert Get(m, n) == Max(Get(a, n), Get(b, n)); }
    forall n | n in b ensures b[n] <= Get(m, n) { assert Get(m, n) == Max(Get(a, n), Get(b, n)); }
    if Leq(m, u) {
      LeqTransitive(a, m, u);
      LeqTransitive(b, m, u);
    }
    if Leq(a, u) && Leq(b, u) {
      forall n | n in m ensures m[n] <= Get(u, n) { assert Get(m, n) == Max(Get(a, n), Get(b, n)); }
    }
  }

  lemma MergeCommutes(a: VectorClock, b: VectorClock)
    ensures Merge(a, b) == Merge(b, a)
  {
    SameCounters(Merge(a, b), Merge(b, a));
  }

  lemma MergeAssociates(a: VectorClock, b: VectorClock, c: VectorClock)
    ensures Merge(Merge(a, b), c) == Merge(a, Merge(b, c))
  {
    SameCounters(Merge(Merge(a, b), c), Merge(a, Merge(b, c)));
  }

  lemma MergeIdempotent(a: VectorClock)
    ensures Merge(a, a) == a
  {
    SameCounters(Merge(a, a), a);
  }

  // ---- dotted version vectors ----

  /** `dot` is one outstanding event not yet folded into `base`. */
  datatype Dotted = Dotted(base: VectorClock, dot: Option<(NodeId, nat)>)

  function Fold(c: VectorClock, dot: Option<(NodeId, nat)>): (r: VectorClock)
    ensures forall n :: Get(r, n) == if dot.Some? && dot.value.0 == n then Max(Get(c, n), dot.value.1) else Get(c, n)
  {
    if dot.None? || Max(Get(c, dot.value.0), dot.value.1) == 0 then c
    else c[dot.value.0 := Max(Get(c, dot.value.0), dot.value.1)]
  }

  /** The clock a dotted vector stands for. */
  function Effective(d: Dotted): VectorClock {
    Fold(d.base, d.dot)
  }

  function Advance(d: Dotted, n: NodeId): Dotted {
    Dotted(d.base, Some((n, Get(d.base, n) + 1)))
  }

  lemma FoldIntoMerge(a: VectorClock, b: VectorClock, dot: Option<(NodeId, nat)>)
    ensures Fold(Merge(a, b), dot) == Merge(Fold(a, dot), b) == Merge(a, Fold(b, dot))
  {
    var l, m, r := Fold(Merge(a, b), dot), Merge(Fold(a, dot), b), Merge(a, Fold(b, dot));
    forall n ensures Get(l, n) == Get(m, n) == Get(r, n) {
      assert Get(Merge(a, b), n) == Max(Get(a, n), Get(b, n));
    }
    SameCounters(l, m);
    SameCounters(l, r);
  }

  method MergeDotted(a: Dotted, b: Dotted) returns (r: Dotted)
    ensures r.dot.None?
    ensures Effective(r) == Merge(Effective(a), Effective(b))
  {
    var clocks := Merge(a.base, b.base);
    if a.dot.Some? {
      clocks := Fold(clocks, a.dot);
    }
    FoldIntoMerge(a.base, b.base, a.dot);
    if b.dot.Some? {
      clocks := Fold(clocks, b.dot);
    }
    FoldIntoMerge(Effective(a), b.base, b.dot);
    r := Dotted(clocks, None);
  }

  predicate Descends(a: Dotted, b: Dotted) {
    Leq(Effective(b), Effective(a))
  }

  /** Advancing leaves the base alone, so it keeps what the vector already counted exactly when
      an outstanding dot is no newer than the base, or is the very event the advance mints. */
  lemma AdvanceKeepsHistory(d: Dotted, n: NodeId)
    ensures Descends(Advance(d, n), d) <==>
            d.dot.None? || d.dot.value.1 <= Get(d.base, d.dot.value.0) + (if d.dot.value.0 == n then 1 else 0)
  {
    var e, f := Effective(d), Effective(Advance(d, n));
    assert forall m :: Get(f, m) == Get(d.base, m) + if m == n then 1 else 0;
    if d.dot.Some? {
      var (m, c) := d.dot.value;
      assert Get(e, m) == Max(Get(d.base, m), c);
      assert forall o | o != m :: Get(e, o) == Get(d.base, o);
      if c <= Get(f, m) {
        assert forall o | o in e :: e[o] <= Get(f, o);
      } else {
        assert m in e && e[m] > Get(f, m);
      }
    }
  }

  /** Two advances of one base at different nodes are concurrent. */
  lemma AdvancesConcurrent(base: VectorClock, n: NodeId, m: NodeId)
    requires n != m
    ensures Compare(Effective(Advance(Dotted(base, None), n)), Effective(Advance(Dotted(base, None), m))) == CONCURRENT
  {
    var p, q := Effective(Advance(Dotted(base, None), n)), Effective(Advance(Dotted(base, None), m));
    assert Get(p, n) == Get(q, n) + 1 && Get(q, m) == Get(p, m) + 1;
    assert n in p && m in q;
  }
}
