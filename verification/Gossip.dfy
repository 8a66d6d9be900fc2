/**
 The gossip store: one vector-clocked entry per key, local writes, and anti-entropy by digest.

 Each operation is a function on `Node` values; the class `GossipState` holds the same data in
 fields that its methods update, and every method is proved to compute the function.

 `render` stands for the text Python makes of a clock's sorted items (used only to break ties
 between concurrent clocks) and `hash` for the truncated SHA-256 of an entry's content.
*/
module Gossip {
  import opened Clocks
  import opened Options
  import Lex
  import SortedKeys

  type Key = string

  datatype Value = Absent | Payload(text: string)

  datatype Entry = Entry(key: Key, value: Value, clock: VectorClock, tombstone: bool)

  type Store = s: map<Key, Entry> | forall k | k in s :: s[k].key == k witness map[]

  datatype Node = Node(entries: Store, clock: VectorClock)

  type Render = VectorClock -> string

  type Hash = (Value, VectorClock, bool) -> string

  type Digest = map<Key, string>

  ghost predicate Injective(render: Render) {
    forall a, b :: render(a) == render(b) ==> a == b
  }

  // ---- conflict resolution and writes ----

  predicate ShouldUpdate(held: VectorClock, offered: VectorClock, render: Render) {
    match Compare(held, offered)
    case BEFORE => true
    case CONCURRENT => Lex.Leq(render(held), render(offered))
    case _ => false
  }

  /** Between two distinct clocks exactly one direction is an update. */
  lemma ExactlyOneWins(a: VectorClock, b: VectorClock, render: Render)
    requires Injective(render) && a != b
    ensures ShouldUpdate(a, b, render) <==> !ShouldUpdate(b, a, render)
  {
    CompareEqual(a, b);
    CompareMirrors(a, b);
    Lex.Total(render(a), render(b));
    if Lex.Leq(render(a), render(b)) && Lex.Leq(render(b), render(a)) {
      Lex.Antisymmetric(render(a), render(b));
    }
  }

  predicate Wins(s: Node, key: Key, clock: VectorClock, render: Render) {
    key in s.entries ==> ShouldUpdate(s.entries[key].clock, clock, render)
  }

  function Put(s: Node, e: Entry): Node {
    s.(entries := s.entries[e.key := e])
  }

  function Updated(s: Node, id: NodeId, key: Key, value: Value, external: Option<VectorClock>, render: Render): Node {
    var ticked := s.(clock := Increment(s.clock, id));
    var c := if external.Some? then Merge(external.value, ticked.clock) else ticked.clock;
    if Wins(s, key, c, render) then Put(ticked, Entry(key, value, c, false)) else ticked
  }

  function Deleted(s: Node, id: NodeId, key: Key): Node {
    var ticked := s.(clock := Increment(s.clock, id));
    var v := if key in s.entries then s.entries[key].value else Absent;
    Put(ticked, Entry(key, v, ticked.clock, true))
  }

  // ---- applying remote entries ----

  function Receive(s: Node, e: Entry, render: Render): Node {
    if Wins(s, e.key, e.clock, render) then Put(s, e).(clock := Merge(s.clock, e.clock)) else s
  }

  function ReceiveAll(s: Node, es: seq<Entry>, render: Render): Node
    decreases |es|
  {
    if es == [] then s else ReceiveAll(Receive(s, es[0], render), es[1..], render)
  }

  function CountWins(s: Node, es: seq<Entry>, render: Render): nat
    decreases |es|
  {
    if es == [] then 0
    else (if Wins(s, es[0].key, es[0].clock, render) then 1 else 0) + CountWins(Receive(s, es[0], render), es[1..], render)
  }

  /** An entry counts when it wins against what the entries before it left. */
  lemma {:induction false} CountsEachWin(s: Node, es: seq<Entry>, e: Entry, render: Render)
    ensures CountWins(s, [], render) == 0
    ensures CountWins(s, es + [e], render) ==
            CountWins(s, es, render) + if Wins(ReceiveAll(s, es, render), e.key, e.clock, render) then 1 else 0
    decreases |es|
  {
    if es == [] {
      assert es + [e] == [e];
    } else {
      assert (es + [e])[1..] == es[1..] + [e];
      CountsEachWin(Receive(s, es[0], render), es[1..], e, render);
    }
  }

  /** A batch is the same as its pieces one after the other, so runs may deliver entries singly. */
  lemma {:induction false} BatchIsSingles(s: Node, es: seq<Entry>, fs: seq<Entry>, render: Render)
    ensures ReceiveAll(s, es + fs, render) == ReceiveAll(ReceiveAll(s, es, render), fs, render)
    decreases |es|
  {
    if es == [] {
      assert es + fs == fs;
    } else {
      assert (es + fs)[1..] == es[1..] + fs;
      BatchIsSingles(Receive(s, es[0], render), es[1..], fs, render);
    }
  }

  ghost predicate DistinctKeys(es: seq<Entry>) {
    forall i, j | 0 <= i < j < |es| :: es[i].key != es[j].key
  }

  /** `es` lists exactly the entries held under `keys`, in any order. */
  ghost predicate Lists(es: seq<Entry>, entries: Store, keys: set<Key>) {
    && DistinctKeys(es)
    && (forall e | e in es :: e.key in keys && e.key in entries && entries[e.key] == e)
    && (forall k | k in keys && k in entries :: entries[k] in es)
  }

  /** Applying a list with one entry per key decides every key on its own. */
  lemma {:induction false} ReceiveAllPointwise(s: Node, es: seq<Entry>, render: Render, k: Key)
    requires DistinctKeys(es)
    ensures var r := ReceiveAll(s, es, render).entries;
            if exists e | e in es :: e.key == k && Wins(s, k, e.clock, render)
            then k in r && r[k] in es && r[k].key == k && Wins(s, k, r[k].clock, render)
            else (k in r <==> k in s.entries) && (k in r ==> r[k] == s.entries[k])
    decreases |es|
  {
    if es != [] {
      var s1 := Receive(s, es[0], render);
      ReceiveAllPointwise(s1, es[1..], render, k);
      if es[0].key == k {
        assert forall e | e in es[1..] :: e.key != k;
        assert forall e | e in es && e.key == k :: e == es[0];
      } else {
        assert forall e | e in es && e.key == k :: e in es[1..];
      }
    }
  }

  // ---- digests and anti-entropy ----

  function DigestOf(entries: Store, hash: Hash): Digest {
    map k | k in entries :: hash(entries[k].value, entries[k].clock, entries[k].tombstone)
  }

  function PushKeys(local: Digest, remote: Digest): set<Key> {
    set k | k in local && (k !in remote || remote[k] != local[k])
  }

  function PullKeys(local: Digest, remote: Digest): set<Key> {
    PushKeys(remote, local)
  }

  /** The stateless comparison of two digests: three sorted lists that make up the push and pull sets. */
  method ClassifyKeys(local: Digest, remote: Digest)
    returns (missingLocal: seq<Key>, missingRemote: seq<Key>, different: seq<Key>)
    ensures SortedKeys.Ascending(Lex.Leq, missingLocal) && SortedKeys.Ascending(Lex.Leq, missingRemote)
    ensures SortedKeys.Ascending(Lex.Leq, different)
    ensures forall k :: k in PushKeys(local, remote) <==> k in missingRemote || k in different
    ensures forall k :: k in PullKeys(local, remote) <==> k in missingLocal || k in different
    ensures forall k :: k in different <==> k in PushKeys(local, remote) && k in PullKeys(local, remote)
  {
    SortedKeys.StringsOrdered();
    missingLocal := SortedKeys.SortKeys(Lex.Leq, remote.Keys - local.Keys);
    missingRemote := SortedKeys.SortKeys(Lex.Leq, local.Keys - remote.Keys);
    different := SortedKeys.SortKeys(Lex.Leq, set k | k in local && k in remote && local[k] != remote[k]);
  }

  /** `k` is held on both sides with equal hashes and different entries. */
  ghost predicate Collides(a: Store, b: Store, hash: Hash, k: Key) {
    k in a && k in b && DigestOf(a, hash)[k] == DigestOf(b, hash)[k] && a[k] != b[k]
  }

  /** Held under one key, an equal clock means the same write. */
  ghost predicate ClocksIdentify(a: Store, b: Store) {
    forall k | k in a && k in b && a[k].clock == b[k].clock :: a[k] == b[k]
  }

  ghost predicate Shipped(a: Node, b: Node, b': Node, da: Digest, db: Digest, pushed: seq<Entry>, pulled: seq<Entry>) {
    && Lists(pushed, a.entries, PushKeys(da, db))
    && (Lists(pulled, b.entries, PullKeys(da, db)) || Lists(pulled, b'.entries, PullKeys(da, db)))
  }

  /** One push-pull exchange: `b` applies what `a` pushes, then `a` applies what it pulls; the pulled
      entries are read from `b` either before or after it applied the push. */
  ghost predicate Exchanged(a: Node, b: Node, a': Node, b': Node, render: Render, hash: Hash) {
    exists pushed: seq<Entry>, pulled: seq<Entry> ::
      && Shipped(a, b, b', DigestOf(a.entries, hash), DigestOf(b.entries, hash), pushed, pulled)
      && b' == ReceiveAll(b, pushed, render)
      && a' == ReceiveAll(a, pulled, render)
  }

  /** What one exchange does to one key, seen from a side that receives at most `e` for it. */
  lemma ReceivedKey(s: Node, es: seq<Entry>, src: Store, keys: set<Key>, render: Render, k: Key)
    requires Lists(es, src, keys)
    ensures var r := ReceiveAll(s, es, render).entries;
            if k in keys && k in src && Wins(s, k, src[k].clock, render) then k in r && r[k] == src[k]
            else (k in r <==> k in s.entries) && (k in r ==> r[k] == s.entries[k])
  {
    ReceiveAllPointwise(s, es, render, k);
    var r := ReceiveAll(s, es, render).entries;
    if k in keys && k in src && Wins(s, k, src[k].clock, render) {
      assert src[k] in es;
    }
    assert forall e | e in es && e.key == k :: e == src[k];
  }

  lemma AgreeOnKey(a: Node, b: Node, pushed: seq<Entry>, pulled: seq<Entry>, late: bool, render: Render, hash: Hash, k: Key)
    requires Injective(render) && ClocksIdentify(a.entries, b.entries)
    requires var da, db := DigestOf(a.entries, hash), DigestOf(b.entries, hash);
             && Lists(pushed, a.entries, PushKeys(da, db))
             && Lists(pulled, if late then ReceiveAll(b, pushed, render).entries else b.entries, PullKeys(da, db))
    ensures var a', b' := ReceiveAll(a, pulled, render).entries, ReceiveAll(b, pushed, render).entries;
            && (k in a' <==> k in b')
            && (k in a' <==> k in a.entries || k in b.entries)
            && (k in a' ==> (a'[k] == b'[k] <==> !Collides(a.entries, b.entries, hash, k)))
  {
    var da, db := DigestOf(a.entries, hash), DigestOf(b.entries, hash);
    var b' := ReceiveAll(b, pushed, render);
    ReceivedKey(b, pushed, a.entries, PushKeys(da, db), render, k);
    ReceivedKey(a, pulled, if late then b'.entries else b.entries, PullKeys(da, db), render, k);
    if k in a.entries && k in b.entries && da[k] != db[k] {
      ExactlyOneWins(a.entries[k].clock, b.entries[k].clock, render);
      CompareEqual(a.entries[k].clock, a.entries[k].clock);
    }
  }

  /** Two stores over the keys of `a` and `b` that differ exactly where `a` and `b` collide. */
  ghost predicate DifferByCollisions(x: Store, y: Store, a: Store, b: Store, hash: Hash) {
    forall k :: && (k in x <==> k in a || k in b) && (k in y <==> k in a || k in b)
                && (k in x && k in y ==> (x[k] == y[k] <==> !Collides(a, b, hash, k)))
  }

  lemma SameKeys(x: Store, y: Store, a: Store, b: Store, hash: Hash)
    requires DifferByCollisions(x, y, a, b, hash)
    ensures x.Keys == y.Keys == a.Keys + b.Keys
  {
  }

  lemma EqualIffNoCollision(x: Store, y: Store, a: Store, b: Store, hash: Hash)
    requires DifferByCollisions(x, y, a, b, hash)
    ensures x.Keys == y.Keys == a.Keys + b.Keys
    ensures x == y <==> forall k :: !Collides(a, b, hash, k)
  {
    SameKeys(x, y, a, b, hash);
    if k :| Collides(a, b, hash, k) {
      assert x[k] != y[k];
    } else {
      forall k | k in x ensures x[k] == y[k] {
        assert !Collides(a, b, hash, k);
      }
    }
  }

  /** After one exchange the two stores hold the same entries exactly when no hash collision hid a difference. */
  lemma ExchangeAgrees(a: Node, b: Node, a': Node, b': Node, render: Render, hash: Hash)
    requires Injective(render) && ClocksIdentify(a.entries, b.entries)
    requires Exchanged(a, b, a', b', render, hash)
    ensures a'.entries.Keys == b'.entries.Keys == a.entries.Keys + b.entries.Keys
    ensures a'.entries == b'.entries <==> forall k :: !Collides(a.entries, b.entries, hash, k)
  {
    var da, db := DigestOf(a.entries, hash), DigestOf(b.entries, hash);
    var pushed: seq<Entry>, pulled: seq<Entry> :| Shipped(a, b, b', da, db, pushed, pulled)
      && b' == ReceiveAll(b, pushed, render)
      && a' == ReceiveAll(a, pulled, render);
    assert DifferByCollisions(a'.entries, b'.entries, a.entries, b.entries, hash) by {
      forall k {
        AgreeOnKey(a, b, pushed, pulled, Lists(pulled, b'.entries, PullKeys(da, db)), render, hash, k);
      }
    }
    EqualIffNoCollision(a'.entries, b'.entries, a.entries, b.entries, hash);
  }

  /** An exchange ships a key only if the two sides held different entries for it. */
  lemma ShipsOnlyDifferences(a: Store, b: Store, hash: Hash, k: Key)
    requires var da, db := DigestOf(a, hash), DigestOf(b, hash); k in PushKeys(da, db) + PullKeys(da, db)
    ensures !(k in a && k in b && a[k] == b[k])
  {
  }

  // ---- whole-state merge ----

  /** `text` stands for `str()` of a value; contents are ordered by that text and then the tombstone flag. */
  type Text = Value -> string

  predicate ContentGeq(a: Entry, b: Entry, text: Text) {
    if text(a.value) == text(b.value) then b.tombstone ==> a.tombstone
    else Lex.Leq(text(b.value), text(a.value))
  }

  function MergeEntries(a: Entry, b: Entry, text: Text): Entry {
    var w := if ContentGeq(a, b, text) then a else b;
    Entry(a.key, w.value, Merge(a.clock, b.clock), w.tombstone)
  }

  /** Of two entries the merge keeps the value of the larger text, of equal texts a deleted one, and of equals the first;
      the flag comes with the value and the clock covers both. */
  lemma MergeKeepsLarger(a: Entry, b: Entry, text: Text)
    ensures var m := MergeEntries(a, b, text);
            && m.key == a.key && m.clock == Merge(a.clock, b.clock)
            && ((m.value == a.value && m.tombstone == a.tombstone) || (m.value == b.value && m.tombstone == b.tombstone))
            && Lex.Leq(text(a.value), text(m.value)) && Lex.Leq(text(b.value), text(m.value))
            && (text(a.value) == text(b.value) ==> m.tombstone == (a.tombstone || b.tombstone))
            && (text(a.value) == text(b.value) && a.tombstone == b.tombstone ==> m.value == a.value)
  {
    Lex.Total(text(a.value), text(b.value));
    Lex.Reflexive(text(a.value));
    Lex.Reflexive(text(b.value));
  }

  function MergedEntry(a: Store, b: Store, k: Key, text: Text): (e: Entry)
    requires k in a || k in b
    ensures e.key == k
  {
    if k !in b then a[k] else if k !in a then b[k] else MergeEntries(a[k], b[k], text)
  }

  function MergeStores(a: Store, b: Store, text: Text): Store {
    map k | k in a.Keys + b.Keys :: MergedEntry(a, b, k, text)
  }

  lemma IsUnion(m: map<Key, Entry>, a: Store, b: Store, text: Text)
    requires forall k :: k in m <==> k in a.Keys + b.Keys
    requires forall k | k in m :: m[k] == MergedEntry(a, b, k, text)
    ensures m == MergeStores(a, b, text)
  {
    assert m.Keys == a.Keys + b.Keys;
  }

  function MergeNodes(a: Node, b: Node, text: Text): Node {
    Node(MergeStores(a.entries, b.entries, text), Merge(a.clock, b.clock))
  }

  // ---- what writes keep ----

  /** Every entry's clock is counted in the holder's own clock. */
  ghost predicate EntriesBelow(s: Node) {
    forall k | k in s.entries :: Leq(s.entries[k].clock, s.clock)
  }

  lemma BelowAfter(s: Node, t: Node)
    requires EntriesBelow(s)
    requires t.entries == s.entries && Leq(s.clock, t.clock)
    ensures EntriesBelow(t)
  {
    forall k | k in t.entries ensures Leq(t.entries[k].clock, t.clock) {
      LeqTransitive(s.entries[k].clock, s.clock, t.clock);
    }
  }

  lemma PutKeepsBelow(s: Node, e: Entry)
    requires EntriesBelow(s) && Leq(e.clock, s.clock)
    ensures EntriesBelow(Put(s, e))
  {
  }

  lemma DeleteKeepsBelow(s: Node, id: NodeId, key: Key)
    requires EntriesBelow(s)
    ensures EntriesBelow(Deleted(s, id, key))
  {
    var ticked := s.(clock := Increment(s.clock, id));
    BelowAfter(s, ticked);
    var v := if key in s.entries then s.entries[key].value else Absent;
    PutKeepsBelow(ticked, Entry(key, v, ticked.clock, true));
  }

  lemma ReceiveKeepsBelow(s: Node, e: Entry, render: Render)
    requires EntriesBelow(s)
    ensures EntriesBelow(Receive(s, e, render))
  {
    var merged := s.(clock := Merge(s.clock, e.clock));
    MergeIsLub(s.clock, e.clock, s.clock);
    BelowAfter(s, merged);
    PutKeepsBelow(merged, e);
  }

  /** A local write without an external clock always takes effect. */
  lemma LocalUpdateTakesEffect(s: Node, id: NodeId, key: Key, value: Value, render: Render)
    requires EntriesBelow(s)
    ensures Updated(s, id, key, value, None, render) ==
            Put(s.(clock := Increment(s.clock, id)), Entry(key, value, Increment(s.clock, id), false))
  {
    if key in s.entries {
      IncrementAfter(s.clock, id, s.entries[key].clock);
    }
  }

  /** With entries below the node clock, a write under an external clock is stored too. */
  lemma ExternalWriteStored(s: Node, id: NodeId, key: Key, value: Value, external: VectorClock, render: Render)
    requires EntriesBelow(s)
    ensures var ticked := s.(clock := Increment(s.clock, id));
            Updated(s, id, key, value, Some(external), render) ==
            Put(ticked, Entry(key, value, Merge(external, ticked.clock), false))
  {
    var ticked := s.(clock := Increment(s.clock, id));
    var c := Merge(external, ticked.clock);
    if key in s.entries {
      var held := s.entries[key].clock;
      IncrementAfter(s.clock, id, held);
      MergeIsLub(external, ticked.clock, c);
      LeqTransitive(held, ticked.clock, c);
      if Leq(c, held) {
        LeqTransitive(ticked.clock, c, held);
      }
    }
  }

  /** An external clock keeps entries below the node clock exactly when the node had already counted it. */
  lemma ExternalClockKeepsBelow(s: Node, id: NodeId, key: Key, value: Value, external: VectorClock, render: Render)
    requires EntriesBelow(s)
    ensures EntriesBelow(Updated(s, id, key, value, Some(external), render)) <==> Leq(external, Increment(s.clock, id))
  {
    var ticked := s.(clock := Increment(s.clock, id));
    ExternalWriteStored(s, id, key, value, external, render);
    MergeIsLub(external, ticked.clock, ticked.clock);
    BelowAfter(s, ticked);
    assert Updated(s, id, key, value, Some(external), render).entries[key].clock == Merge(external, ticked.clock);
  }

  /** The node clock at the next local write against the clock of an entry written under an external clock. */
  lemma TickedTwice(c: VectorClock, id: NodeId, external: VectorClock)
    ensures var ticked := Increment(c, id);
            var held, next := Merge(external, ticked), Increment(ticked, id);
            && (Leq(next, held) <==> Get(external, id) >= Get(c, id) + 2)
            && (Leq(held, next) <==> Leq(external, next))
  {
    var ticked := Increment(c, id);
    AheadByTwo(c, id, external);
    IncrementAfter(ticked, id, ticked);
    MergeIsLub(external, ticked, Increment(ticked, id));
    if Leq(Merge(external, ticked), Increment(ticked, id)) {
      LeqTransitive(external, Merge(external, ticked), Increment(ticked, id));
    }
  }

  lemma AheadByTwo(c: VectorClock, id: NodeId, external: VectorClock)
    ensures Leq(Increment(Increment(c, id), id), Merge(external, Increment(c, id))) <==> Get(external, id) >= Get(c, id) + 2
  {
    var ticked := Increment(c, id);
    var held, next := Merge(external, ticked), Increment(ticked, id);
    if Get(external, id) >= Get(c, id) + 2 {
      forall n ensures Get(next, n) <= Get(held, n) {}
    } else {
      assert Get(next, id) > Get(held, id);
    }
  }

  /** After a write under an external clock the next local write of the key is lost exactly when the external clock is
      ahead on this very node, or is not covered by then and the text of the node clock loses the tie. */
  lemma NextWriteLostIff(s: Node, id: NodeId, key: Key, v: Value, w: Value, external: VectorClock, render: Render)
    requires EntriesBelow(s)
    ensures var t := Updated(s, id, key, v, Some(external), render);
            var held, next := Merge(external, Increment(s.clock, id)), Increment(Increment(s.clock, id), id);
            && t.entries == s.entries[key := Entry(key, v, held, false)]
            && (Updated(t, id, key, w, None, render).entries == t.entries <==>
                || Get(external, id) >= Get(s.clock, id) + 2
                || (!Leq(external, next) && !Lex.Leq(render(held), render(next))))
  {
    ExternalWriteStored(s, id, key, v, external, render);
    TickedTwice(s.clock, id, external);
    var held, next := Merge(external, Increment(s.clock, id)), Increment(Increment(s.clock, id), id);
    CompareEqual(held, next);
    assert ShouldUpdate(held, next, render) <==>
           !Leq(next, held) && (Leq(external, next) || Lex.Leq(render(held), render(next)));
  }

  /** After a write under an external clock that is ahead on this very node, the next local write is dropped. */
  lemma ExternalClockDropsNextWrite(id: NodeId, key: Key, v: Value, w: Value, external: VectorClock, render: Render)
    requires Get(external, id) >= 2
    ensures var s := Updated(Node(map[], map[]), id, key, v, Some(external), render);
            Updated(s, id, key, w, None, render).entries == s.entries == map[key := Entry(key, v, external, false)]
  {
    assert Merge(external, Increment(map[], id)) == external by {
      SameCounters(Merge(external, Increment(map[], id)), external);
    }
    NextWriteLostIff(Node(map[], map[]), id, key, v, w, external, render);
  }

  // ---- the store itself ----

  class GossipState {
    const nodeId: NodeId
    const fanout: nat
    const render: Render
    const hash: Hash
    const text: Text
    var entries: Store
    var clock: VectorClock

    constructor (nodeId: NodeId, fanout: nat, render: Render, hash: Hash, text: Text)
      ensures this.nodeId == nodeId && this.fanout == fanout
      ensures this.render == render && this.hash == hash && this.text == text
      ensures State() == Node(map[], map[])
    {
      this.nodeId, this.fanout, this.render, this.hash, this.text := nodeId, fanout, render, hash, text;
      entries, clock := map[], map[];
    }

    function State(): Node
      reads this
    {
      Node(entries, clock)
    }

    /** The live value of a key: missing and tombstoned keys both read as absent. */
    function Read(key: Key): (v: Value)
      reads this
      ensures v.Payload? ==> key in entries && !entries[key].tombstone && entries[key].value == v
    {
      if key in entries && !entries[key].tombstone then entries[key].value else Absent
    }

    method Update(key: Key, value: Value, external: Option<VectorClock>) returns (c: VectorClock)
      modifies this`entries, this`clock
      ensures State() == Updated(old(State()), nodeId, key, value, external, render)
      ensures clock == Increment(old(clock), nodeId)
      ensures entries == old(entries) || entries == old(entries)[key :=
                Entry(key, value, if external.Some? then Merge(external.value, clock) else clock, false)]
      ensures c == clock
    {
      clock := Increment(clock, nodeId);
      var entryClock := clock;
      if external.Some? {
        entryClock := Merge(external.value, clock);
      }
      if key !in entries || ShouldUpdate(entries[key].clock, entryClock, render) {
        entries := entries[key := Entry(key, value, entryClock, false)];
      }
      c := clock;
    }

    method Delete(key: Key) returns (c: VectorClock)
      modifies this`entries, this`clock
      ensures State() == Deleted(old(State()), nodeId, key)
      ensures clock == Increment(old(clock), nodeId) && entries.Keys == old(entries).Keys + {key}
      ensures entries[key] == Entry(key, if key in old(entries) then old(entries)[key].value else Absent, clock, true)
      ensures forall k | k in entries && k != key :: entries[k] == old(entries)[k]
      ensures c == clock
      ensures Read(key) == Absent
    {
      clock := Increment(clock, nodeId);
      if key in entries {
        entries := entries[key := Entry(key, entries[key].value, clock, true)];
      } else {
        entries := entries[key := Entry(key, Absent, clock, true)];
      }
      c := clock;
    }

    method GetEntries(keys: set<Key>) returns (es: seq<Entry>)
      ensures Lists(es, entries, keys)
    {
      es := [];
      var rest := keys;
      while rest != {}
        invariant rest <= keys
        invariant Lists(es, entries, keys - rest)
        decreases |rest|
      {
        var k :| k in rest;
        ghost var before := keys - rest;
        rest := rest - {k};
        assert keys - rest == before + {k};
        if k in entries {
          es := es + [entries[k]];
        }
      }
      assert keys - rest == keys;
    }

    method DigestEntries() returns (d: Digest)
      ensures d == DigestOf(entries, hash)
      ensures d.Keys == entries.Keys
      ensures forall k | k in entries :: d[k] == hash(entries[k].value, entries[k].clock, entries[k].tombstone)
    {
      d := map[];
      var rest := entries.Keys;
      while rest != {}
        invariant rest <= entries.Keys
        invariant d.Keys == entries.Keys - rest
        invariant forall k | k in d :: d[k] == hash(entries[k].value, entries[k].clock, entries[k].tombstone)
        decreases |rest|
      {
        var k :| k in rest;
        rest := rest - {k};
        d := d[k := hash(entries[k].value, entries[k].clock, entries[k].tombstone)];
      }
    }

    method AntiEntropyPush(remote: Digest) returns (keys: set<Key>)
      ensures keys == PushKeys(DigestOf(entries, hash), remote)
    {
      var local := DigestEntries();
      keys := Differing(local, remote);
    }

    method AntiEntropyPull(remote: Digest) returns (keys: set<Key>)
      ensures keys == PullKeys(DigestOf(entries, hash), remote)
    {
      var local := DigestEntries();
      keys := Differing(remote, local);
    }

    static method Differing(from: Digest, to: Digest) returns (keys: set<Key>)
      ensures keys == PushKeys(from, to)
    {
      keys := {};
      var rest := from.Keys;
      while rest != {}
        invariant rest <= from.Keys
        invariant keys == set k | k in from.Keys - rest && (k !in to || to[k] != from[k])
        decreases |rest|
      {
        var k :| k in rest;
        rest := rest - {k};
        if k !in to || to[k] != from[k] {
          keys := keys + {k};
        }
      }
    }

    method ApplyEntries(es: seq<Entry>) returns (updates: nat)
      modifies this`entries, this`clock
      ensures State() == ReceiveAll(old(State()), es, render)
      ensures updates == CountWins(old(State()), es, render)
    {
      updates := 0;
      for i := 0 to |es|
        invariant ReceiveAll(State(), es[i..], render) == ReceiveAll(old(State()), es, render)
        invariant updates + CountWins(State(), es[i..], render) == CountWins(old(State()), es, render)
      {
        var e := es[i];
        assert es[i..][0] == e && es[i..][1..] == es[i + 1..];
        if e.key !in entries || ShouldUpdate(entries[e.key].clock, e.clock, render) {
          entries := entries[e.key := e];
          clock := Merge(clock, e.clock);
          updates := updates + 1;
        }
      }
    }

    static method UnionStores(a: Store, b: Store, text: Text) returns (r: Store)
      ensures r == MergeStores(a, b, text)
    {
      var all := a.Keys + b.Keys;
      var rest := all;
      var merged: map<Key, Entry> := map[];
      while rest != {}
        invariant rest <= all
        invariant forall k :: k in merged <==> k in all && k !in rest
        invariant forall k | k in merged :: merged[k] == MergedEntry(a, b, k, text)
        decreases |rest|
      {
        var k :| k in rest;
        rest := rest - {k};
        merged := merged[k := MergedEntry(a, b, k, text)];
      }
      IsUnion(merged, a, b, text);
      r := merged;
    }

    method MergeWith(other: GossipState) returns (r: GossipState)
      ensures fresh(r) && r.nodeId == nodeId && r.fanout == fanout
      ensures r.State() == MergeNodes(State(), other.State(), text)
    {
      r := new GossipState(nodeId, fanout, render, hash, text);
      r.clock := Merge(clock, other.clock);
      r.entries := UnionStores(entries, other.entries, text);
    }
  }

  /** The documented exchange: compare digests, push what the peer lacks, pull what it has. */
  method PushPull(a: GossipState, b: GossipState)
    requires a != b && a.render == b.render && a.hash == b.hash
    modifies a, b
    ensures Exchanged(old(a.State()), old(b.State()), a.State(), b.State(), a.render, a.hash)
  {
    var remote := b.DigestEntries();
    var toPush := a.AntiEntropyPush(remote);
    var toPull := a.AntiEntropyPull(remote);
    var pushed := a.GetEntries(toPush);
    var _ := b.ApplyEntries(pushed);
    var pulled := b.GetEntries(toPull);
    var _ := a.ApplyEntries(pulled);
    assert Shipped(old(a.State()), old(b.State()), b.State(),
                   DigestOf(old(a.entries), a.hash), DigestOf(old(b.entries), a.hash), pushed, pulled);
  }
}
