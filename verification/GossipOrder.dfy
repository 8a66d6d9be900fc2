/**
 Does the order in which entries arrive matter?

 The tie-break between concurrent clocks is not transitive, so three or more entries of one key
 can beat each other in a circle. Replicas that receive the same entries in different orders
 agree exactly when one of those entries beats every other.
*/
module GossipOrder {
  import opened Clocks
  import opened Gossip
  import opened Options
  import Lex

  const NOTHING := Node(map[], map[])

  ghost predicate OneKey(es: seq<Entry>, k: Key) {
    && es != []
    && (forall e | e in es :: e.key == k)
    && (forall e, f | e in es && f in es && e.clock == f.clock :: e == f)
  }

  /** What a fresh replica holds for `k` after receiving `es` in this order. */
  function Final(es: seq<Entry>, k: Key, render: Render): Option<Entry> {
    var r := ReceiveAll(NOTHING, es, render).entries;
    if k in r then Some(r[k]) else None
  }

  predicate Beats(e: Entry, f: Entry, render: Render) {
    ShouldUpdate(f.clock, e.clock, render)
  }

  /** `c` beats every other entry of the list. */
  ghost predicate Champion(c: Entry, es: seq<Entry>, render: Render) {
    c in es && forall e | e in es && e != c :: Beats(c, e, render)
  }

  ghost predicate SameEntries(es: seq<Entry>, fs: seq<Entry>) {
    forall e :: e in es <==> e in fs
  }

  /** Receiving one more entry at the end is one contest. */
  lemma LastArrival(es: seq<Entry>, f: Entry, k: Key, render: Render)
    requires f.key == k
    ensures var before := Final(es, k, render);
            Final(es + [f], k, render) == if before.None? || Beats(f, before.value, render) then Some(f) else before
  {
    BatchIsSingles(NOTHING, es, [f], render);
    assert ReceiveAll(ReceiveAll(NOTHING, es, render), [f], render) == Receive(ReceiveAll(NOTHING, es, render), f, render);
  }

  lemma {:induction false} FinalArrived(es: seq<Entry>, k: Key, render: Render)
    requires forall e | e in es :: e.key == k
    ensures if es == [] then Final(es, k, render).None? else Final(es, k, render).Some? && Final(es, k, render).value in es
    decreases |es|
  {
    if es != [] {
      var n := |es| - 1;
      assert es == es[..n] + [es[n]];
      FinalArrived(es[..n], k, render);
      LastArrival(es[..n], es[n], k, render);
    }
  }

  lemma {:induction false} ChampionStays(es: seq<Entry>, all: seq<Entry>, c: Entry, k: Key, render: Render)
    requires Injective(render) && OneKey(all, k) && Champion(c, all, render)
    requires forall e | e in es :: e in all
    requires c in es
    ensures Final(es, k, render) == Some(c)
    decreases |es|
  {
    var n := |es| - 1;
    assert es == es[..n] + [es[n]];
    FinalArrived(es[..n], k, render);
    LastArrival(es[..n], es[n], k, render);
    if c in es[..n] {
      ChampionStays(es[..n], all, c, k, render);
      if es[n] == c {
        CompareEqual(c.clock, c.clock);
      } else {
        ExactlyOneWins(es[n].clock, c.clock, render);
      }
    }
  }

  function Without(es: seq<Entry>, f: Entry): (r: seq<Entry>)
    ensures forall e :: e in r <==> e in es && e != f
  {
    if es == [] then [] else (if es[0] == f then [] else [es[0]]) + Without(es[1..], f)
  }

  /** Moving an entry that the survivor does not beat to the end changes the survivor. */
  lemma SurvivorCanChange(es: seq<Entry>, w: Entry, f: Entry, k: Key, render: Render)
    requires Injective(render) && OneKey(es, k) && w in es && f in es && f != w && !Beats(w, f, render)
    ensures SameEntries(Without(es, f) + [f], es)
    ensures Final(Without(es, f) + [f], k, render) != Some(w)
  {
    FinalArrived(Without(es, f), k, render);
    LastArrival(Without(es, f), f, k, render);
    ExactlyOneWins(w.clock, f.clock, render);
  }

  /** All arrival orders of the same entries leave the same entry if and only if one of them beats all the others. */
  lemma OrderIrrelevantIffChampion(es: seq<Entry>, k: Key, render: Render)
    requires Injective(render) && OneKey(es, k)
    ensures (forall fs, gs | SameEntries(fs, es) && SameEntries(gs, es) :: Final(fs, k, render) == Final(gs, k, render))
            <==> exists c :: Champion(c, es, render)
  {
    if exists c :: Champion(c, es, render) {
      var c :| Champion(c, es, render);
      forall fs | SameEntries(fs, es) ensures Final(fs, k, render) == Some(c) {
        ChampionStays(fs, es, c, k, render);
      }
    } else {
      FinalArrived(es, k, render);
      var w := Final(es, k, render).value;
      assert !Champion(w, es, render);
      var f :| f in es && f != w && !Beats(w, f, render);
      SurvivorCanChange(es, w, f, k, render);
      assert SameEntries(es, es);
    }
  }

  /** Two entries always have a champion: a pair of replicas agrees whatever the order. */
  lemma PairsAgree(e: Entry, f: Entry, render: Render)
    requires Injective(render) && (e.clock == f.clock ==> e == f)
    ensures exists c :: Champion(c, [e, f], render)
  {
    if e != f {
      ExactlyOneWins(e.clock, f.clock, render);
      var c := if Beats(e, f, render) then e else f;
      assert Champion(c, [e, f], render);
    } else {
      assert Champion(e, [e, f], render);
    }
  }

  const NINE: VectorClock := map["a" := 9]
  const TEN: VectorClock := map["a" := 10]
  const FIVE_ONE: VectorClock := map["a" := 5, "b" := 1]

  /** Strings that agree up to position `i` compare as their characters there. */
  lemma {:induction false} LexAt(a: string, b: string, i: nat)
    requires i < |a| && i < |b| && a[..i] == b[..i] && a[i] < b[i]
    ensures Lex.Leq(a, b)
    decreases i
  {
    if i > 0 {
      assert a[0] == a[..i][0] == b[..i][0] == b[0];
      assert a[1..][..i - 1] == a[..i][1..] && b[1..][..i - 1] == b[..i][1..];
      LexAt(a[1..], b[1..], i - 1);
    }
  }

  lemma CircleTexts(nine: string, ten: string, five: string)
    requires |nine| > 7 && |ten| > 7 && |five| > 7
    requires nine[..7] == ten[..7] == five[..7] == "[('a', "
    requires nine[7] == '9' && ten[7] == '1' && five[7] == '5'
    ensures Lex.Leq(ten, five) && Lex.Leq(five, nine)
  {
    LexAt(ten, five, 7);
    LexAt(five, nine, 7);
  }

  lemma CircleOrder()
    ensures Compare(NINE, TEN) == BEFORE && Compare(TEN, FIVE_ONE) == CONCURRENT && Compare(FIVE_ONE, NINE) == CONCURRENT
  {
    assert Get(NINE, "a") == 9 && Get(TEN, "a") == 10 && Get(FIVE_ONE, "a") == 5;
    assert Get(NINE, "b") == 0 && Get(TEN, "b") == 0 && Get(FIVE_ONE, "b") == 1;
    assert "a" in TEN && "a" in NINE && "b" in FIVE_ONE;
  }

  lemma CircleContests(render: Render)
    requires Injective(render)
    requires Compare(NINE, TEN) == BEFORE && Compare(TEN, FIVE_ONE) == CONCURRENT && Compare(FIVE_ONE, NINE) == CONCURRENT
    requires Lex.Leq(render(TEN), render(FIVE_ONE)) && Lex.Leq(render(FIVE_ONE), render(NINE))
    ensures ShouldUpdate(NINE, TEN, render) && !ShouldUpdate(TEN, NINE, render)
    ensures ShouldUpdate(TEN, FIVE_ONE, render) && !ShouldUpdate(FIVE_ONE, TEN, render)
    ensures ShouldUpdate(FIVE_ONE, NINE, render) && !ShouldUpdate(NINE, FIVE_ONE, render)
  {
    ExactlyOneWins(NINE, TEN, render);
    ExactlyOneWins(TEN, FIVE_ONE, render);
    ExactlyOneWins(FIVE_ONE, NINE, render);
  }

  lemma CircleHasNoChampion(e: Entry, f: Entry, g: Entry, render: Render)
    requires e != f && f != g && g != e
    requires !Beats(e, f, render) && !Beats(f, g, render) && !Beats(g, e, render)
    ensures !exists c :: Champion(c, [e, f, g], render)
  {
    var es := [e, f, g];
    assert es[0] in es && es[1] in es && es[2] in es;
    forall c ensures !Champion(c, es, render) {
      assert c in es ==> c == es[0] || c == es[1] || c == es[2];
    }
  }

  /** Three entries of one key that beat each other in a circle: no order-independent outcome exists. */
  lemma ThreeWayCycle(e: Entry, f: Entry, g: Entry, render: Render)
    requires Injective(render)
    requires render(NINE) == "[('a', 9)]" && render(TEN) == "[('a', 10)]" && render(FIVE_ONE) == "[('a', 5), ('b', 1)]"
    requires e.clock == NINE && f.clock == TEN && g.clock == FIVE_ONE
    ensures Beats(f, e, render) && Beats(g, f, render) && Beats(e, g, render)
    ensures !exists c :: Champion(c, [e, f, g], render)
  {
    CircleTexts(render(NINE), render(TEN), render(FIVE_ONE));
    CircleOrder();
    CircleContests(render);
    CircleHasNoChampion(e, f, g, render);
  }
}
