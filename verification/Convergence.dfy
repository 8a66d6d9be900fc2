/**
 One theorem for every mergeable type: whatever the grouping, order and repetition of merges, the
 result depends only on which states were merged. `good` marks the states the type can be in;
 the laws are asked for only there.
*/
module Convergence {

  datatype Tree<S> = Leaf(state: S) | Node(left: Tree<S>, right: Tree<S>)

  ghost function Leaves<S>(t: Tree<S>): set<S> {
    match t
    case Leaf(s) => {s}
    case Node(l, r) => Leaves(l) + Leaves(r)
  }

  function MergeAll<S>(t: Tree<S>, merge: (S, S) -> S): S {
    match t
    case Leaf(s) => s
    case Node(l, r) => merge(MergeAll(l, merge), MergeAll(r, merge))
  }

  /** Closure, commutativity and idempotence for `a` and `b`, and associativity with `c`. */
  ghost predicate Laws<S>(merge: (S, S) -> S, good: S -> bool, a: S, b: S, c: S) {
    && good(merge(a, b))
    && merge(a, b) == merge(b, a)
    && merge(a, a) == a
    && merge(merge(a, b), c) == merge(a, merge(b, c))
  }

  ghost predicate Semilattice<S(!new)>(merge: (S, S) -> S, good: S -> bool) {
    forall a, b, c {:trigger Laws(merge, good, a, b, c)} :: good(a) && good(b) && good(c) ==> Laws(merge, good, a, b, c)
  }

  ghost predicate AllGood<S>(t: Tree<S>, good: S -> bool) {
    forall s | s in Leaves(t) :: good(s)
  }

  lemma {:induction false} MergeStaysGood<S(!new)>(t: Tree<S>, merge: (S, S) -> S, good: S -> bool)
    requires Semilattice(merge, good) && AllGood(t, good)
    ensures good(MergeAll(t, merge))
  {
    match t
    case Leaf(s) =>
    case Node(l, r) =>
      MergeStaysGood(l, merge, good);
      MergeStaysGood(r, merge, good);
      assert Laws(merge, good, MergeAll(l, merge), MergeAll(r, merge), MergeAll(l, merge));
  }

  /** Every leaf is absorbed by the result. */
  lemma {:induction false} LeafAbsorbed<S(!new)>(t: Tree<S>, s: S, merge: (S, S) -> S, good: S -> bool)
    requires Semilattice(merge, good) && AllGood(t, good) && s in Leaves(t)
    ensures merge(s, MergeAll(t, merge)) == MergeAll(t, merge)
  {
    match t
    case Leaf(x) => assert Laws(merge, good, x, x, x);
    case Node(l, r) =>
      MergeStaysGood(l, merge, good);
      MergeStaysGood(r, merge, good);
      var x, y := MergeAll(l, merge), MergeAll(r, merge);
      assert Laws(merge, good, x, y, s);
      if s in Leaves(l) {
        LeafAbsorbed(l, s, merge, good);
        assert Laws(merge, good, s, x, y);
      } else {
        LeafAbsorbed(r, s, merge, good);
        assert Laws(merge, good, s, y, x);
        assert Laws(merge, good, y, x, s);
      }
  }

  /** Whatever absorbs every leaf absorbs the result. */
  lemma {:induction false} ResultAbsorbed<S(!new)>(t: Tree<S>, u: S, merge: (S, S) -> S, good: S -> bool)
    requires Semilattice(merge, good) && AllGood(t, good) && good(u)
    requires forall s | s in Leaves(t) :: merge(s, u) == u
    ensures merge(MergeAll(t, merge), u) == u
  {
    match t
    case Leaf(x) =>
    case Node(l, r) =>
      ResultAbsorbed(l, u, merge, good);
      ResultAbsorbed(r, u, merge, good);
      MergeStaysGood(l, merge, good);
      MergeStaysGood(r, merge, good);
      assert Laws(merge, good, MergeAll(l, merge), MergeAll(r, merge), u);
  }

  /** Two merge trees over the same states, in any shape, order and multiplicity, give the same state. */
  lemma TreesConverge<S(!new)>(t: Tree<S>, u: Tree<S>, merge: (S, S) -> S, good: S -> bool)
    requires Semilattice(merge, good)
    requires Leaves(t) == Leaves(u) && AllGood(t, good)
    ensures MergeAll(t, merge) == MergeAll(u, merge)
  {
    var x, y := MergeAll(t, merge), MergeAll(u, merge);
    MergeStaysGood(t, merge, good);
    MergeStaysGood(u, merge, good);
    forall s | s in Leaves(t) ensures merge(s, x) == x && merge(s, y) == y {
      LeafAbsorbed(t, s, merge, good);
      LeafAbsorbed(u, s, merge, good);
    }
    ResultAbsorbed(t, y, merge, good);
    ResultAbsorbed(u, x, merge, good);
    assert Laws(merge, good, x, y, x);
  }
}
