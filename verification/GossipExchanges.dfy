/**
 Exchanges as runs: the digest, push and pull between two nodes add nothing to what a network of
 single deliveries can do.
*/
module GossipExchanges {
  import opened Clocks
  import opened Gossip
  import opened GossipRuns

  /** Equal states and an equal step lead to equal states. */
  lemma StepsAlike(run: Run, all: Run, render: Render, n: NodeId, t: nat)
    requires t < |run| && t < |all| && run[t] == all[t]
    requires At(run, render, n, t) == At(all, render, n, t)
    requires run[t].Deliver? ==> Minted(run, render, run[t].source) == Minted(all, render, run[t].source)
    ensures At(run, render, n, t + 1) == At(all, render, n, t + 1)
  {
  }

  /** What has happened is not changed by what comes after. */
  lemma {:induction false} AtPrefix(run: Run, all: Run, render: Render, n: NodeId, t: nat)
    requires run <= all && t <= |run|
    ensures At(run, render, n, t) == At(all, render, n, t)
    decreases t, 0
  {
    if t > 0 {
      assert run[t - 1] == all[t - 1];
      AtPrefix(run, all, render, n, t - 1);
      if run[t - 1].Deliver? {
        MintedPrefix(run, all, render, run[t - 1].source);
      }
      StepsAlike(run, all, render, n, t - 1);
    }
  }

  lemma MintedAlike(run: Run, all: Run, render: Render, w: nat)
    requires Write(run, w) && Write(all, w) && run[w] == all[w]
    requires At(run, render, run[w].node, w) == At(all, render, run[w].node, w)
    ensures Minted(run, render, w) == Minted(all, render, w)
  {
  }

  lemma {:induction false} MintedPrefix(run: Run, all: Run, render: Render, w: nat)
    requires run <= all && Write(run, w)
    ensures Write(all, w) && Minted(run, render, w) == Minted(all, render, w)
    decreases w, 1
  {
    assert run[w] == all[w];
    AtPrefix(run, all, render, run[w].node, w);
    MintedAlike(run, all, render, w);
  }

  /** The state of node `n` at the end of the run. */
  function End(run: Run, render: Render, n: NodeId): Node {
    At(run, render, n, |run|)
  }

  ghost predicate IsMinted(run: Run, render: Render, e: Entry) {
    exists w: nat :: Write(run, w) && Minted(run, render, w) == e
  }

  lemma StillMinted(run: Run, all: Run, render: Render, e: Entry)
    requires run <= all && IsMinted(run, render, e)
    ensures IsMinted(all, render, e)
  {
    var w: nat :| Write(run, w) && Minted(run, render, w) == e;
    MintedPrefix(run, all, render, w);
  }

  /** `all` goes on from `run` with deliveries to `nodes` only. */
  ghost predicate Delivers(run: Run, all: Run, nodes: set<NodeId>) {
    run <= all && forall i | |run| <= i < |all| :: all[i].Deliver? && all[i].node in nodes
  }

  /** No node but `n` is changed by what `all` adds to `run`. */
  ghost predicate Untouched(run: Run, all: Run, render: Render, n: NodeId) {
    forall m | m != n :: End(all, render, m) == End(run, render, m)
  }

  function Delivered(run: Run, n: NodeId, w: nat): (all: Run)
    requires Write(run, w)
    ensures |all| == |run| + 1 && run <= all && all[|run|] == Deliver(n, w)
  {
    run + [Deliver(n, w)]
  }

  lemma StepDelivers(run: Run, render: Render, n: NodeId, w: nat, t: nat, s: Node, e: Entry)
    requires t < |run| && Write(run, w) && run[t] == Deliver(n, w)
    requires s == At(run, render, n, t) && e == Minted(run, render, w)
    ensures At(run, render, n, t + 1) == Receive(s, e, render)
  {
  }

  lemma DeliveredThere(run: Run, render: Render, n: NodeId, w: nat, s: Node, e: Entry)
    requires Write(run, w) && s == End(run, render, n) && e == Minted(run, render, w)
    ensures End(Delivered(run, n, w), render, n) == Receive(s, e, render)
  {
    MintedPrefix(run, Delivered(run, n, w), render, w);
    AtPrefix(run, Delivered(run, n, w), render, n, |run|);
    StepDelivers(Delivered(run, n, w), render, n, w, |run|, s, e);
  }

  lemma DeliveredElsewhere(run: Run, render: Render, n: NodeId, w: nat, m: NodeId)
    requires Write(run, w) && m != n
    ensures End(Delivered(run, n, w), render, m) == End(run, render, m)
  {
    AtPrefix(run, Delivered(run, n, w), render, m, |run|);
  }

  lemma DeliveryTouchesOne(run: Run, render: Render, n: NodeId, w: nat)
    requires Write(run, w)
    ensures Untouched(run, Delivered(run, n, w), render, n)
  {
    forall m | m != n ensures End(Delivered(run, n, w), render, m) == End(run, render, m) {
      DeliveredElsewhere(run, render, n, w, m);
    }
  }

  /** Receiving a list of minted entries is a run of deliveries. */
  lemma {:induction false} DeliverAll(run: Run, render: Render, n: NodeId, es: seq<Entry>) returns (all: Run)
    requires forall e | e in es :: IsMinted(run, render, e)
    ensures Delivers(run, all, {n}) && Untouched(run, all, render, n)
    ensures End(all, render, n) == ReceiveAll(End(run, render, n), es, render)
    decreases |es|
  {
    if es == [] {
      all := run;
    } else {
      assert es[0] in es;
      var w: nat :| Write(run, w) && Minted(run, render, w) == es[0];
      var next := Delivered(run, n, w);
      DeliveredThere(run, render, n, w, End(run, render, n), es[0]);
      DeliveryTouchesOne(run, render, n, w);
      StayMinted(run, next, render, es);
      all := DeliverAll(next, render, n, es[1..]);
    }
  }

  lemma StayMinted(run: Run, all: Run, render: Render, es: seq<Entry>)
    requires run <= all && forall e | e in es :: IsMinted(run, render, e)
    ensures forall e | e in es :: IsMinted(all, render, e)
  {
    forall e | e in es ensures IsMinted(all, render, e) {
      StillMinted(run, all, render, e);
    }
  }

  /** Entries listed from a node's store were minted in the run. */
  lemma ListedAreMinted(run: Run, render: Render, n: NodeId, es: seq<Entry>, keys: set<Key>)
    requires Lists(es, End(run, render, n).entries, keys)
    ensures forall e | e in es :: IsMinted(run, render, e)
  {
    forall e | e in es ensures IsMinted(run, render, e) {
      var w := EntriesAreMinted(run, render, n, |run|, e.key);
    }
  }

  /** An exchange between two nodes of a run is the run itself, continued by deliveries to the two; no other node
      changes. So it leaves a reachable state, and what holds of every run holds after it. */
  lemma ExchangeIsRun(run: Run, render: Render, hash: Hash, n: NodeId, m: NodeId, a': Node, b': Node) returns (all: Run)
    requires n != m
    requires Exchanged(End(run, render, n), End(run, render, m), a', b', render, hash)
    ensures Delivers(run, all, {n, m})
    ensures End(all, render, n) == a' && End(all, render, m) == b'
    ensures forall o | o != n && o != m :: End(all, render, o) == End(run, render, o)
  {
    var a, b := End(run, render, n), End(run, render, m);
    var da, db := DigestOf(a.entries, hash), DigestOf(b.entries, hash);
    var pushed: seq<Entry>, pulled: seq<Entry> :| Shipped(a, b, b', da, db, pushed, pulled)
      && b' == ReceiveAll(b, pushed, render)
      && a' == ReceiveAll(a, pulled, render);
    ListedAreMinted(run, render, n, pushed, PushKeys(da, db));
    var middle := DeliverAll(run, render, m, pushed);
    if Lists(pulled, b.entries, PullKeys(da, db)) {
      ListedAreMinted(run, render, m, pulled, PullKeys(da, db));
      StayMinted(run, middle, render, pulled);
    } else {
      ListedAreMinted(middle, render, m, pulled, PullKeys(da, db));
    }
    all := DeliverAll(middle, render, n, pulled);
  }
}
