/**
 Whole runs of the gossip protocol.

 A run is a sequence of steps by any number of nodes. `Deliver` hands a node one entry minted
 anywhere earlier, any number of times and in any order, or never: the network may lose,
 duplicate and reorder. Happened-before is a chain of steps; clocks enter only in deciding which
 deliveries were accepted, and so carry the past of a write to the receiver.
*/
module GossipRuns {
  import opened Clocks
  import opened Gossip
  import opened Options

  datatype Step =
    | Update(node: NodeId, key: Key, value: Value)
    | Delete(node: NodeId, key: Key)
    | Deliver(node: NodeId, source: nat)

  type Run = r: seq<Step> | ValidRun(r) witness []

  predicate ValidRun(r: seq<Step>) {
    forall i | 0 <= i < |r| && r[i].Deliver? :: r[i].source < i && !r[r[i].source].Deliver?
  }

  predicate Write(run: Run, w: int) {
    0 <= w < |run| && !run[w].Deliver?
  }

  /** The state of node `n` after the first `t` steps. */
  function At(run: Run, render: Render, n: NodeId, t: nat): Node
    requires t <= |run|
    decreases t, 0
  {
    if t == 0 then Node(map[], map[])
    else
      var s := At(run, render, n, t - 1);
      if run[t - 1].node != n then s
      else match run[t - 1]
        case Update(_, k, v) => Updated(s, n, k, v, None, render)
        case Delete(_, k) => Deleted(s, n, k)
        case Deliver(_, w) => Receive(s, Minted(run, render, w), render)
  }

  /** The entry that the write at step `w` mints. */
  function Minted(run: Run, render: Render, w: nat): (e: Entry)
    requires Write(run, w)
    ensures e.clock == Increment(At(run, render, run[w].node, w).clock, run[w].node)
    ensures e.key == run[w].key
    decreases w, 1
  {
    var s := At(run, render, run[w].node, w);
    var c := Increment(s.clock, run[w].node);
    match run[w]
    case Update(_, k, v) => Entry(k, v, c, false)
    case Delete(_, k) => Entry(k, if k in s.entries then s.entries[k].value else Absent, c, true)
  }

  function ClockOf(run: Run, render: Render, w: nat): VectorClock
    requires Write(run, w)
  {
    Minted(run, render, w).clock
  }

  // ---- happened-before ----

  /** Step `j` accepted the entry minted by the write at step `i`. */
  predicate Carries(run: Run, render: Render, i: nat, j: nat)
    requires j < |run|
  {
    && run[j].Deliver? && run[j].source == i
    && Wins(At(run, render, run[j].node, j), Minted(run, render, i).key, ClockOf(run, render, i), render)
  }

  predicate Edge(run: Run, render: Render, i: nat, j: nat)
    requires i < j < |run|
  {
    run[i].node == run[j].node || Carries(run, render, i, j)
  }

  /** Some chain of same-node and carried-entry edges leads from step `i` to step `j`. */
  ghost predicate HappenedBefore(run: Run, render: Render, i: nat, j: nat)
    requires j < |run|
    decreases j
  {
    exists m: nat | m < j :: Edge(run, render, m, j) && (m == i || HappenedBefore(run, render, i, m))
  }

  /** After `t` steps, write `x` is in the causal history of node `n`. */
  ghost predicate Knows(run: Run, render: Render, n: NodeId, t: nat, x: nat)
    requires t <= |run|
  {
    exists m: nat | m < t :: run[m].node == n && (m == x || HappenedBefore(run, render, x, m))
  }

  lemma {:induction false} EarlierOnly(run: Run, render: Render, i: nat, j: nat)
    requires j < |run| && HappenedBefore(run, render, i, j)
    ensures i < j
    decreases j
  {
    var m: nat :| m < j && Edge(run, render, m, j) && (m == i || HappenedBefore(run, render, i, m));
    if m != i { EarlierOnly(run, render, i, m); }
  }

  /** How one step at node `n` extends what `n` knows. */
  lemma KnowsStep(run: Run, render: Render, t: nat, x: nat)
    requires t < |run| && Write(run, x)
    ensures var n := run[t].node;
            Knows(run, render, n, t + 1, x) <==>
              || Knows(run, render, n, t, x) || t == x
              || (run[t].Deliver? && Carries(run, render, run[t].source, t)
                  && (run[t].source == x || HappenedBefore(run, render, x, run[t].source)))
  {
    var n := run[t].node;
    if Knows(run, render, n, t + 1, x) {
      var m: nat :| m < t + 1 && run[m].node == n && (m == x || HappenedBefore(run, render, x, m));
      if m == t && t != x {
        var p: nat :| p < t && Edge(run, render, p, t) && (p == x || HappenedBefore(run, render, x, p));
        assert run[p].node == n ==> Knows(run, render, n, t, x);
      } else if m < t {
        assert Knows(run, render, n, t, x);
      }
    }
    if Knows(run, render, n, t, x) {
      var m: nat :| m < t && run[m].node == n && (m == x || HappenedBefore(run, render, x, m));
      assert Knows(run, render, n, t + 1, x);
    }
    if run[t].Deliver? && Carries(run, render, run[t].source, t)
       && (run[t].source == x || HappenedBefore(run, render, x, run[t].source)) {
      assert Edge(run, render, run[t].source, t);
      assert HappenedBefore(run, render, x, t);
    }
  }

  lemma KnowsElsewhere(run: Run, render: Render, n: NodeId, t: nat, x: nat)
    requires t < |run| && run[t].node != n
    ensures Knows(run, render, n, t + 1, x) <==> Knows(run, render, n, t, x)
  {
    if Knows(run, render, n, t + 1, x) {
      var m: nat :| m < t + 1 && run[m].node == n && (m == x || HappenedBefore(run, render, x, m));
      assert m < t;
    }
    if Knows(run, render, n, t, x) {
      var m: nat :| m < t && run[m].node == n && (m == x || HappenedBefore(run, render, x, m));
      assert m < t + 1;
    }
  }

  /** A node that has just written `w` knows `w` and what happened before it. */
  lemma KnowsAtWrite(run: Run, render: Render, w: nat, x: nat)
    requires Write(run, w) && w + 1 <= |run|
    ensures Knows(run, render, run[w].node, w + 1, x) <==> x == w || HappenedBefore(run, render, x, w)
  {
    if Knows(run, render, run[w].node, w + 1, x) {
      var m: nat :| m < w + 1 && run[m].node == run[w].node && (m == x || HappenedBefore(run, render, x, m));
      assert m < w ==> Edge(run, render, m, w);
    }
  }

  // ---- clocks count exactly the known writes ----

  /** The clock after a step, by kind of step. */
  lemma ClockAfter(run: Run, render: Render, t: nat)
    requires t < |run|
    ensures var n := run[t].node;
            var c, c' := At(run, render, n, t).clock, At(run, render, n, t + 1).clock;
            c' == if run[t].Deliver?
                  then (if Carries(run, render, run[t].source, t) then Merge(c, ClockOf(run, render, run[t].source)) else c)
                  else ClockOf(run, render, t)
  {
  }

  lemma {:induction false} ClocksGrow(run: Run, render: Render, n: NodeId, s: nat, t: nat)
    requires s <= t <= |run|
    ensures Leq(At(run, render, n, s).clock, At(run, render, n, t).clock)
    decreases t
  {
    if s < t {
      ClocksGrow(run, render, n, s, t - 1);
      var c, c' := At(run, render, n, t - 1).clock, At(run, render, n, t).clock;
      assert Leq(c, c') by {
        if run[t - 1].node == n {
          ClockAfter(run, render, t - 1);
          if run[t - 1].Deliver? {
            MergeIsLub(c, ClockOf(run, render, run[t - 1].source), c);
          }
        }
      }
      LeqTransitive(At(run, render, n, s).clock, c, c');
    }
  }

  /** Reaching a counter after a delivery: it was reached before, or the carried clock reaches it. */
  lemma DeliveryCounts(run: Run, render: Render, n: NodeId, p: nat, x: nat)
    requires p < |run| && Write(run, x) && run[p].Deliver? && run[p].node == n
    requires var c, o := Get(ClockOf(run, render, x), run[x].node), run[x].node;
             && (Knows(run, render, n, p, x) <==> c <= Get(At(run, render, n, p).clock, o))
             && var w := run[p].source;
                Knows(run, render, run[w].node, w + 1, x) <==> c <= Get(At(run, render, run[w].node, w + 1).clock, o)
    ensures Knows(run, render, n, p + 1, x) <==>
            Get(ClockOf(run, render, x), run[x].node) <= Get(At(run, render, n, p + 1).clock, run[x].node)
  {
    var w := run[p].source;
    KnowsStep(run, render, p, x);
    ClockAfter(run, render, p);
    KnowsAtWrite(run, render, w, x);
    ClockAfter(run, render, w);
  }

  /** Reaching a counter after a write at the node: it was reached before, or the step is the write itself. */
  lemma WriteCounts(run: Run, render: Render, n: NodeId, p: nat, x: nat)
    requires p < |run| && Write(run, x) && Write(run, p) && run[p].node == n
    requires Knows(run, render, n, p, x) <==>
             Get(ClockOf(run, render, x), run[x].node) <= Get(At(run, render, n, p).clock, run[x].node)
    ensures Knows(run, render, n, p + 1, x) <==>
            Get(ClockOf(run, render, x), run[x].node) <= Get(At(run, render, n, p + 1).clock, run[x].node)
  {
    KnowsStep(run, render, p, x);
    ClockAfter(run, render, p);
    if run[x].node == n && x < p {
      assert Knows(run, render, n, p, x);
    } else if run[x].node == n && x > p {
      ClocksGrow(run, render, n, p + 1, x);
    }
  }

  /** Node `n` knows a write exactly when its clock has reached the write's own counter. */
  lemma {:induction false} ClockCountsKnown(run: Run, render: Render, n: NodeId, t: nat, x: nat)
    requires t <= |run| && Write(run, x)
    ensures Knows(run, render, n, t, x) <==>
            Get(ClockOf(run, render, x), run[x].node) <= Get(At(run, render, n, t).clock, run[x].node)
    decreases t
  {
    if t > 0 {
      var p := t - 1;
      ClockCountsKnown(run, render, n, p, x);
      if run[p].node != n {
        KnowsElsewhere(run, render, n, p, x);
      } else if run[p].Deliver? {
        var w := run[p].source;
        ClockCountsKnown(run, render, run[w].node, w + 1, x);
        DeliveryCounts(run, render, n, p, x);
      } else {
        WriteCounts(run, render, n, p, x);
      }
    }
  }

  /** Nothing a node knows is missing from its clock. */
  lemma {:induction false} KnownBelowClock(run: Run, render: Render, n: NodeId, t: nat, x: nat)
    requires t <= |run| && Write(run, x) && Knows(run, render, n, t, x)
    ensures Leq(ClockOf(run, render, x), At(run, render, n, t).clock)
    decreases t
  {
    var p := t - 1;
    if run[p].node != n {
      KnowsElsewhere(run, render, n, p, x);
      KnownBelowClock(run, render, n, p, x);
    } else {
      KnowsStep(run, render, p, x);
      ClockAfter(run, render, p);
      ClocksGrow(run, render, n, p, t);
      if Knows(run, render, n, p, x) {
        KnownBelowClock(run, render, n, p, x);
        LeqTransitive(ClockOf(run, render, x), At(run, render, n, p).clock, At(run, render, n, t).clock);
      } else if p != x {
        var w := run[p].source;
        KnowsAtWrite(run, render, w, x);
        KnownBelowClock(run, render, run[w].node, w + 1, x);
        ClockAfter(run, render, w);
        MergeIsLub(At(run, render, n, p).clock, ClockOf(run, render, w), At(run, render, n, t).clock);
        LeqTransitive(ClockOf(run, render, x), ClockOf(run, render, w), At(run, render, n, t).clock);
      }
    }
  }

  /** The clock of write `y` has reached the counter of write `x` exactly when `x` is `y` or happened before it. */
  lemma CounterReached(run: Run, render: Render, x: nat, y: nat)
    requires Write(run, x) && Write(run, y)
    ensures x == y || HappenedBefore(run, render, x, y) <==>
            Get(ClockOf(run, render, x), run[x].node) <= Get(ClockOf(run, render, y), run[x].node)
  {
    KnowsAtWrite(run, render, y, x);
    ClockCountsKnown(run, render, run[y].node, y + 1, x);
    ClockAfter(run, render, y);
  }

  lemma PastBelow(run: Run, render: Render, x: nat, y: nat)
    requires Write(run, x) && Write(run, y) && HappenedBefore(run, render, x, y)
    ensures Leq(ClockOf(run, render, x), ClockOf(run, render, y))
  {
    var n := run[y].node;
    KnowsAtWrite(run, render, y, x);
    assert Knows(run, render, n, y + 1, x);
    KnownBelowClock(run, render, n, y + 1, x);
    ClockAfter(run, render, y);
    assert At(run, render, n, y + 1).clock == ClockOf(run, render, y);
  }

  /** Comparing the clocks of two writes decides happened-before, in every run. */
  lemma ClocksDecideCausality(run: Run, render: Render, x: nat, y: nat)
    requires Write(run, x) && Write(run, y)
    ensures Compare(ClockOf(run, render, x), ClockOf(run, render, y)) ==
            if x == y then EQUAL
            else if HappenedBefore(run, render, x, y) then BEFORE
            else if HappenedBefore(run, render, y, x) then AFTER
            else CONCURRENT
  {
    var a, b := ClockOf(run, render, x), ClockOf(run, render, y);
    CounterReached(run, render, x, y);
    CounterReached(run, render, y, x);
    assert run[x].node in a && run[y].node in b;
    if HappenedBefore(run, render, x, y) {
      PastBelow(run, render, x, y);
      EarlierOnly(run, render, x, y);
      if HappenedBefore(run, render, y, x) { EarlierOnly(run, render, y, x); }
    } else if HappenedBefore(run, render, y, x) {
      PastBelow(run, render, y, x);
      EarlierOnly(run, render, y, x);
    }
  }

  // ---- what every reachable store satisfies ----

  /** Every held entry was minted by a write its holder knows. */
  lemma {:induction false} EntriesAreMinted(run: Run, render: Render, n: NodeId, t: nat, k: Key) returns (w: nat)
    requires t <= |run| && k in At(run, render, n, t).entries
    ensures Write(run, w) && At(run, render, n, t).entries[k] == Minted(run, render, w) && Knows(run, render, n, t, w)
    decreases t
  {
    var p := t - 1;
    var s := At(run, render, n, p);
    if run[p].node != n {
      w := EntriesAreMinted(run, render, n, p, k);
      KnowsElsewhere(run, render, n, p, w);
    } else {
      if !run[p].Deliver? && At(run, render, n, t).entries[k] == Minted(run, render, p) {
        w := p;
      } else if run[p].Deliver? && Carries(run, render, run[p].source, p) && Minted(run, render, run[p].source).key == k {
        w := run[p].source;
      } else {
        assert k in s.entries && s.entries[k] == At(run, render, n, t).entries[k] by {
          if run[p].Update? && run[p].key == k {
            BelowEverywhere(run, render, n, p);
            LocalUpdateTakesEffect(s, n, k, run[p].value, render);
          }
        }
        w := EntriesAreMinted(run, render, n, p, k);
      }
      KnowsStep(run, render, p, w);
    }
  }

  /** In every reachable state entry clocks are below the holder's clock. */
  lemma {:induction false} BelowEverywhere(run: Run, render: Render, n: NodeId, t: nat)
    requires t <= |run|
    ensures EntriesBelow(At(run, render, n, t))
    decreases t
  {
    if t > 0 {
      BelowEverywhere(run, render, n, t - 1);
      var s := At(run, render, n, t - 1);
      if run[t - 1].node == n {
        match run[t - 1]
        case Update(_, k, v) =>
          LocalUpdateTakesEffect(s, n, k, v, render);
          var ticked := s.(clock := Increment(s.clock, n));
          BelowAfter(s, ticked);
          PutKeepsBelow(ticked, Entry(k, v, ticked.clock, false));
        case Delete(_, k) => DeleteKeepsBelow(s, n, k);
        case Deliver(_, w) => ReceiveKeepsBelow(s, Minted(run, render, w), render);
      }
    }
  }

  /** So a local update always takes effect, and what it stores is the entry it mints. */
  lemma UpdatesTakeEffect(run: Run, render: Render, t: nat)
    requires t < |run| && run[t].Update?
    ensures At(run, render, run[t].node, t + 1).entries ==
            At(run, render, run[t].node, t).entries[run[t].key := Minted(run, render, t)]
  {
    BelowEverywhere(run, render, run[t].node, t);
    LocalUpdateTakesEffect(At(run, render, run[t].node, t), run[t].node, run[t].key, run[t].value, render);
  }

  /** Equal clocks under one key, on any two nodes at any two times, mean the same entry. */
  lemma EqualClocksSameEntry(run: Run, render: Render, n: NodeId, s: nat, m: NodeId, t: nat)
    requires s <= |run| && t <= |run|
    ensures ClocksIdentify(At(run, render, n, s).entries, At(run, render, m, t).entries)
  {
    var a, b := At(run, render, n, s).entries, At(run, render, m, t).entries;
    forall k | k in a && k in b && a[k].clock == b[k].clock ensures a[k] == b[k] {
      var x := EntriesAreMinted(run, render, n, s, k);
      var y := EntriesAreMinted(run, render, m, t, k);
      ClocksDecideCausality(run, render, x, y);
      CompareEqual(a[k].clock, b[k].clock);
    }
  }

  /** From any two reachable states, one exchange leaves the stores equal unless a hash collides. */
  lemma ReachableExchangeAgrees(run: Run, render: Render, hash: Hash, n: NodeId, s: nat, m: NodeId, t: nat,
                                a: Node, b: Node, a': Node, b': Node)
    requires s <= |run| && t <= |run| && Injective(render)
    requires a == At(run, render, n, s) && b == At(run, render, m, t)
    requires Exchanged(a, b, a', b', render, hash)
    ensures a'.entries == b'.entries <==> forall k :: !Collides(a.entries, b.entries, hash, k)
  {
    EqualClocksSameEntry(run, render, n, s, m, t);
    ExchangeAgrees(a, b, a', b', render, hash);
  }
}
