/**
 Histories of replicated values: any web of replicas.

 Each step makes a new version: a fresh replica, one local act on an earlier version, or the merge of
 two earlier ones. So replicas may be copied, go stale and be merged in any order.
*/
module Histories {

  datatype Op<Act> =
    | New
    | Local(from: nat, act: Act)
    | Merge(left: nat, right: nat)

  type History<Act> = h: seq<Op<Act>> | BuildsOnEarlier(h) witness []

  predicate BuildsOnEarlier<Act>(h: seq<Op<Act>>) {
    forall i | 0 <= i < |h| ::
      match h[i]
      case New => true
      case Local(f, _) => f < i
      case Merge(l, r) => l < i && r < i
  }

  /** The steps that version `i` descends from, itself included. */
  function Past<Act>(h: History<Act>, i: nat): (past: set<nat>)
    requires i < |h|
    ensures i in past && forall p | p in past :: p <= i
  {
    match h[i]
    case New => {i}
    case Local(f, _) => Past(h, f) + {i}
    case Merge(l, r) => Past(h, l) + Past(h, r) + {i}
  }

  lemma {:induction false} PastIsClosed<Act>(h: History<Act>, i: nat, j: nat)
    requires j < |h| && i in Past(h, j)
    ensures i <= j && Past(h, i) <= Past(h, j)
    decreases j
  {
    match h[j]
    case New =>
    case Local(f, _) =>
      if i != j { PastIsClosed(h, i, f); }
    case Merge(l, r) =>
      if i in Past(h, l) { PastIsClosed(h, i, l); } else if i in Past(h, r) { PastIsClosed(h, i, r); }
  }
}
