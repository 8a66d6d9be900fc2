/** Grow-only and positive-negative counters, and what a merged counter counts. */
module Counters {
  import opened Histories

  type NodeId = string

  type Counts = map<NodeId, nat>

  function Slot(c: Counts, n: NodeId): nat {
    if n in c then c[n] else 0
  }

  function Max(a: nat, b: nat): nat {
    if a >= b then a else b
  }

  function Incremented(c: Counts, n: NodeId, amount: nat): Counts {
    c[n := Slot(c, n) + amount]
  }

  function Merged(a: Counts, b: Counts): (m: Counts)
    ensures forall n :: Slot(m, n) == Max(Slot(a, n), Slot(b, n))
  {
    map n | n in a.Keys + b.Keys :: Max(Slot(a, n), Slot(b, n))
  }

  /** The sum of the slots. */
  ghost function Value(c: Counts): nat
    decreases |c|
  {
    if c == map[] then 0
    else
      var n :| n in c;
      c[n] + Value(c - {n})
  }

  /** The sum does not depend on the order in which the slots are added. */
  lemma {:induction false} ValueSplits(c: Counts, n: NodeId)
    requires n in c
    ensures Value(c) == c[n] + Value(c - {n})
    decreases |c|
  {
    var m :| m in c && Value(c) == c[m] + Value(c - {m});
    if m != n {
      ValueSplits(c - {m}, n);
      ValueSplits(c - {n}, m);
      assert c - {m} - {n} == c - {n} - {m};
    }
  }

  lemma ValueAfterSet(c: Counts, n: NodeId, v: nat)
    ensures Value(c[n := v]) + Slot(c, n) == Value(c) + v
  {
    ValueSplits(c[n := v], n);
    assert c[n := v] - {n} == c - {n};
    if n in c {
      ValueSplits(c, n);
    } else {
      assert c - {n} == c;
    }
  }

  // ---- histories ----

  /** The local act: `node` adds `amount`. */
  datatype Act = Increment(node: NodeId, amount: nat)

  type History = Histories.History<Act>

  function CountsAt(h: History, i: nat): Counts
    requires i < |h|
  {
    match h[i]
    case New => map[]
    case Local(f, Increment(n, a)) => Incremented(CountsAt(h, f), n, a)
    case Merge(l, r) => Merged(CountsAt(h, l), CountsAt(h, r))
  }

  predicate By(h: History, j: nat, n: NodeId) {
    j < |h| && h[j].Local? && h[j].act.node == n
  }

  /** A node increments its own slot only on versions that contain its earlier increments. */
  ghost predicate OneReplicaPerNode(h: History) {
    forall j, k, n | 0 <= j < k && By(h, j, n) && By(h, k, n) :: j in Past(h, h[k].from)
  }

  /** The total that `n` added by the steps of `s` below `bound`. */
  function SumBy(h: History, s: set<nat>, n: NodeId, bound: nat): nat
    requires bound <= |h|
  {
    if bound == 0 then 0
    else SumBy(h, s, n, bound - 1) + if bound - 1 in s && By(h, bound - 1, n) then h[bound - 1].act.amount else 0
  }

  lemma {:induction false} SumGrows(h: History, s: set<nat>, t: set<nat>, n: NodeId, bound: nat)
    requires bound <= |h|
    requires forall j: nat | j < bound && j in s && By(h, j, n) :: j in t
    ensures SumBy(h, s, n, bound) <= SumBy(h, t, n, bound)
    ensures (forall j: nat | j < bound && j in t && By(h, j, n) :: j in s) ==> SumBy(h, s, n, bound) == SumBy(h, t, n, bound)
  {
    if bound > 0 { SumGrows(h, s, t, n, bound - 1); }
  }

  /** Of two versions, one has seen every increment by `n` that the other has. */
  lemma {:induction false} OneHasSeenMore(h: History, l: nat, r: nat, n: NodeId, bound: nat) returns (leftHas: bool)
    requires l < |h| && r < |h| && OneReplicaPerNode(h) && bound <= |h|
    ensures leftHas ==> forall j: nat | j < bound && j in Past(h, r) && By(h, j, n) :: j in Past(h, l)
    ensures !leftHas ==> forall j: nat | j < bound && j in Past(h, l) && By(h, j, n) :: j in Past(h, r)
  {
    if bound == 0 {
      leftHas := true;
    } else {
      var k := bound - 1;
      if By(h, k, n) && k in Past(h, l) {
        leftHas := true;
        PastIsClosed(h, k, l);
        PastIsClosed(h, h[k].from, k);
      } else if By(h, k, n) && k in Past(h, r) {
        leftHas := false;
        PastIsClosed(h, k, r);
        PastIsClosed(h, h[k].from, k);
      } else {
        leftHas := OneHasSeenMore(h, l, r, n, k);
      }
    }
  }

  /** Merging in any pattern neither loses nor double-counts: a slot holds the sum of all observed increments by its node. */
  lemma {:induction false} SlotCountsObserved(h: History, i: nat, n: NodeId)
    requires i < |h| && OneReplicaPerNode(h)
    ensures Slot(CountsAt(h, i), n) == SumBy(h, Past(h, i), n, |h|)
    decreases i
  {
    match h[i]
    case New => NothingObserved(h, i, n, |h|);
    case Local(f, Increment(m, a)) =>
      SlotCountsObserved(h, f, n);
      SumWithOneMore(h, Past(h, f), i, n, |h|);
    case Merge(l, r) =>
      SlotCountsObserved(h, l, n);
      SlotCountsObserved(h, r, n);
      var leftHas := OneHasSeenMore(h, l, r, n, |h|);
      var more, less := if leftHas then l else r, if leftHas then r else l;
      SumGrows(h, Past(h, less), Past(h, more), n, |h|);
      SumGrows(h, Past(h, more), Past(h, i), n, |h|);
  }

  lemma {:induction false} NothingObserved(h: History, i: nat, n: NodeId, bound: nat)
    requires i < |h| && h[i].New? && bound <= |h|
    ensures SumBy(h, {i}, n, bound) == 0
  {
    if bound > 0 { NothingObserved(h, i, n, bound - 1); }
  }

  lemma {:induction false} SumWithOneMore(h: History, s: set<nat>, i: nat, n: NodeId, bound: nat)
    requires i < |h| && i !in s && bound <= |h| && h[i].Local?
    ensures SumBy(h, s + {i}, n, bound) == SumBy(h, s, n, bound) + if i < bound && h[i].act.node == n then h[i].act.amount else 0
  {
    if bound > 0 { SumWithOneMore(h, s, i, n, bound - 1); }
  }

  // ---- the counters themselves ----

  class GCounter {
    var counts: Counts

    /** The initial amount counts only for a named node and a positive value. */
    constructor (node: NodeId, initial: int)
      ensures counts == if node != "" && initial > 0 then map[node := initial] else map[]
    {
      counts := map[];
      new;
      if node != "" && initial > 0 {
        counts := counts[node := initial];
      }
    }

    /** False stands for the ValueError on a negative amount. */
    method Increment(n: NodeId, amount: int) returns (ok: bool)
      modifies this
      ensures ok <==> amount >= 0
      ensures counts == if ok then Incremented(old(counts), n, amount) else old(counts)
      ensures Value(counts) == Value(old(counts)) + if ok then amount else 0
    {
      ok := amount >= 0;
      if ok {
        ValueAfterSet(counts, n, Slot(counts, n) + amount);
        counts := counts[n := Slot(counts, n) + amount];
      }
    }

    method MergeWith(other: GCounter) returns (r: GCounter)
      ensures fresh(r) && r.counts == Merged(counts, other.counts)
    {
      r := new GCounter("", 0);
      var rest := counts.Keys + other.counts.Keys;
      var merged: Counts := map[];
      while rest != {}
        invariant rest <= counts.Keys + other.counts.Keys
        invariant merged.Keys == counts.Keys + other.counts.Keys - rest
        invariant forall n | n in merged :: merged[n] == Max(Slot(counts, n), Slot(other.counts, n))
        decreases |rest|
      {
        var n :| n in rest;
        rest := rest - {n};
        merged := merged[n := Max(Slot(counts, n), Slot(other.counts, n))];
      }
      assert merged == Merged(counts, other.counts);
      r.counts := merged;
    }
  }

  /** Increments and decrements, each a grow-only counter. */
  datatype PNCounts = PNCounts(pos: Counts, neg: Counts)

  ghost function NetValue(c: PNCounts): int {
    Value(c.pos) - Value(c.neg)
  }

  function MergedPN(a: PNCounts, b: PNCounts): PNCounts {
    PNCounts(Merged(a.pos, b.pos), Merged(a.neg, b.neg))
  }

  class PNCounter {
    var pos: GCounter
    var neg: GCounter

    constructor ()
      ensures fresh(pos) && fresh(neg) && pos != neg
      ensures Model() == PNCounts(map[], map[])
    {
      pos := new GCounter("", 0);
      neg := new GCounter("", 0);
    }

    function Model(): PNCounts
      reads this, pos, neg
    {
      PNCounts(pos.counts, neg.counts)
    }

    method Increment(n: NodeId, amount: int) returns (ok: bool)
      requires pos != neg
      modifies pos
      ensures ok <==> amount >= 0
      ensures NetValue(Model()) == NetValue(old(Model())) + if ok then amount else 0
      ensures Model() == if ok then old(Model()).(pos := Incremented(old(pos.counts), n, amount)) else old(Model())
    {
      ok := pos.Increment(n, amount);
    }

    method Decrement(n: NodeId, amount: int) returns (ok: bool)
      requires pos != neg
      modifies neg
      ensures ok <==> amount >= 0
      ensures NetValue(Model()) == NetValue(old(Model())) - if ok then amount else 0
      ensures Model() == if ok then old(Model()).(neg := Incremented(old(neg.counts), n, amount)) else old(Model())
    {
      ok := neg.Increment(n, amount);
    }

    method MergeWith(other: PNCounter) returns (r: PNCounter)
      ensures fresh(r) && r.Model() == MergedPN(Model(), other.Model())
    {
      r := new PNCounter();
      r.pos := pos.MergeWith(other.pos);
      r.neg := neg.MergeWith(other.neg);
    }
  }
}
