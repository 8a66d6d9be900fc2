/** The convergence theorem for each replicated type. */
module Replicas {
  import opened Convergence
  import Clocks
  import Counters
  import Gossip
  import LWWMap
  import Lex
  import opened Maps
  import MerkleTrees
  import ORSet

  ghost predicate Any<S>(s: S) {
    true
  }

  // ---- vector clocks and counters ----

  lemma ClocksConverge(t: Tree<Clocks.VectorClock>, u: Tree<Clocks.VectorClock>)
    requires Leaves(t) == Leaves(u)
    ensures MergeAll(t, Clocks.Merge) == MergeAll(u, Clocks.Merge)
  {
    forall a: Clocks.VectorClock, b, c ensures Laws(Clocks.Merge, Any, a, b, c) {
      Clocks.MergeCommutes(a, b);
      Clocks.MergeIdempotent(a);
      Clocks.MergeAssociates(a, b, c);
    }
    TreesConverge(t, u, Clocks.Merge, Any);
  }

  lemma CountsAssociate(a: Counters.Counts, b: Counters.Counts, c: Counters.Counts)
    ensures Counters.Merged(Counters.Merged(a, b), c) == Counters.Merged(a, Counters.Merged(b, c))
    ensures Counters.Merged(a, b) == Counters.Merged(b, a)
    ensures Counters.Merged(a, a) == a
  {
    var l, r := Counters.Merged(Counters.Merged(a, b), c), Counters.Merged(a, Counters.Merged(b, c));
    forall n ensures SameAt(l, r, n) {
      CountsAssociateAt(a, b, c, n);
    }
    SameEverywhere(l, r);
  }

  lemma CountsAssociateAt(a: Counters.Counts, b: Counters.Counts, c: Counters.Counts, n: Counters.NodeId)
    ensures SameAt(Counters.Merged(Counters.Merged(a, b), c), Counters.Merged(a, Counters.Merged(b, c)), n)
  {
  }

  lemma GCountersConverge(t: Tree<Counters.Counts>, u: Tree<Counters.Counts>)
    requires Leaves(t) == Leaves(u)
    ensures MergeAll(t, Counters.Merged) == MergeAll(u, Counters.Merged)
  {
    forall a: Counters.Counts, b, c ensures Laws(Counters.Merged, Any, a, b, c) {
      CountsAssociate(a, b, c);
    }
    TreesConverge(t, u, Counters.Merged, Any);
  }

  lemma PNCountersConverge(t: Tree<Counters.PNCounts>, u: Tree<Counters.PNCounts>)
    requires Leaves(t) == Leaves(u)
    ensures MergeAll(t, Counters.MergedPN) == MergeAll(u, Counters.MergedPN)
  {
    forall a: Counters.PNCounts, b, c ensures Laws(Counters.MergedPN, Any, a, b, c) {
      CountsAssociate(a.pos, b.pos, c.pos);
      CountsAssociate(a.neg, b.neg, c.neg);
    }
    TreesConverge(t, u, Counters.MergedPN, Any);
  }

  // ---- observed-remove sets ----

  lemma ORSetAssociates(a: ORSet.State, b: ORSet.State, c: ORSet.State)
    ensures ORSet.Merged(ORSet.Merged(a, b), c) == ORSet.Merged(a, ORSet.Merged(b, c))
  {
    var l, r := ORSet.Merged(ORSet.Merged(a, b), c), ORSet.Merged(a, ORSet.Merged(b, c));
    assert l.tombstones == r.tombstones;
    forall e ensures SameAt(l.elements, r.elements, e) {
      ORSetTagsAssociate(a, b, c, e);
    }
    SameEverywhere(l.elements, r.elements);
  }

  lemma ORSetTagsAssociate(a: ORSet.State, b: ORSet.State, c: ORSet.State, e: ORSet.Element)
    ensures SameAt(ORSet.Merged(ORSet.Merged(a, b), c).elements, ORSet.Merged(a, ORSet.Merged(b, c)).elements, e)
  {
    var ab, bc := ORSet.Merged(a, b), ORSet.Merged(b, c);
    forall t ensures t in ORSet.Tags(ORSet.Merged(ab, c), e) <==> t in ORSet.Tags(ORSet.Merged(a, bc), e) {
      MergedTag(a, b, e, t);
      MergedTag(b, c, e, t);
      MergedTag(ab, c, e, t);
      MergedTag(a, bc, e, t);
    }
    assert ORSet.Tags(ORSet.Merged(ab, c), e) == ORSet.Tags(ORSet.Merged(a, bc), e);
  }

  lemma MergedTag(a: ORSet.State, b: ORSet.State, e: ORSet.Element, t: ORSet.Tag)
    ensures t in ORSet.Tags(ORSet.Merged(a, b), e) <==>
            (t in ORSet.Tags(a, e) || t in ORSet.Tags(b, e)) && t !in a.tombstones && t !in b.tombstones
  {
  }

  lemma ORSetCommutes(a: ORSet.State, b: ORSet.State)
    ensures ORSet.Merged(a, b) == ORSet.Merged(b, a)
  {
    forall e ensures SameAt(ORSet.Merged(a, b).elements, ORSet.Merged(b, a).elements, e) {
      assert ORSet.Tags(a, e) + ORSet.Tags(b, e) == ORSet.Tags(b, e) + ORSet.Tags(a, e);
      assert a.tombstones + b.tombstones == b.tombstones + a.tombstones;
    }
    SameEverywhere(ORSet.Merged(a, b).elements, ORSet.Merged(b, a).elements);
  }

  lemma ORSetMergeStaysDisjoint(a: ORSet.State, b: ORSet.State)
    ensures ORSet.Disjoint(ORSet.Merged(a, b))
  {
  }

  lemma ORSetIdempotent(a: ORSet.State)
    requires ORSet.Disjoint(a)
    ensures ORSet.Merged(a, a) == a
  {
    forall e ensures SameAt(ORSet.Merged(a, a).elements, a.elements, e) {
      assert ORSet.Tags(a, e) + ORSet.Tags(a, e) - (a.tombstones + a.tombstones) == ORSet.Tags(a, e);
    }
    SameEverywhere(ORSet.Merged(a, a).elements, a.elements);
  }

  lemma ORSetLaws(a: ORSet.State, b: ORSet.State, c: ORSet.State)
    requires ORSet.Disjoint(a) && ORSet.Disjoint(b) && ORSet.Disjoint(c)
    ensures Laws(ORSet.Merged, ORSet.Disjoint, a, b, c)
  {
    ORSetMergeStaysDisjoint(a, b);
    ORSetCommutes(a, b);
    ORSetIdempotent(a);
    ORSetAssociates(a, b, c);
  }

  lemma ORSetsConverge(t: Tree<ORSet.State>, u: Tree<ORSet.State>)
    requires Leaves(t) == Leaves(u) && AllGood(t, ORSet.Disjoint)
    ensures MergeAll(t, ORSet.Merged) == MergeAll(u, ORSet.Merged)
  {
    forall a, b, c | ORSet.Disjoint(a) && ORSet.Disjoint(b) && ORSet.Disjoint(c)
      ensures Laws(ORSet.Merged, ORSet.Disjoint, a, b, c)
    {
      ORSetLaws(a, b, c);
    }
    TreesConverge(t, u, ORSet.Merged, ORSet.Disjoint);
  }

  // ---- last-writer-wins maps ----

  /** Which value a stamp on a key stands for: distinct writes carry distinct stamps. */
  type Stamped = (LWWMap.Key, real, string) -> LWWMap.Value

  ghost predicate StampedBy(s: LWWMap.State, names: Stamped) {
    forall k | k in s.registers :: s.registers[k].value == names(k, s.registers[k].timestamp, s.registers[k].node)
  }

  ghost function GoodStamps(names: Stamped): LWWMap.State -> bool {
    s => StampedBy(s, names)
  }

  lemma RegisterLaws(a: LWWMap.Register, b: LWWMap.Register, c: LWWMap.Register)
    requires a.timestamp == b.timestamp && a.node == b.node ==> a == b
    requires b.timestamp == c.timestamp && b.node == c.node ==> b == c
    requires a.timestamp == c.timestamp && a.node == c.node ==> a == c
    ensures LWWMap.MergeRegisters(a, b) == LWWMap.MergeRegisters(b, a)
    ensures LWWMap.MergeRegisters(LWWMap.MergeRegisters(a, b), c) == LWWMap.MergeRegisters(a, LWWMap.MergeRegisters(b, c))
  {
    TotalOn(a.node, b.node, c.node);
    TotalOn(b.node, c.node, a.node);
    TotalOn(c.node, a.node, b.node);
  }

  lemma TotalOn(a: string, b: string, c: string)
    ensures Lex.Leq(a, b) || Lex.Leq(b, a)
    ensures Lex.Leq(a, b) && Lex.Leq(b, a) ==> a == b
    ensures Lex.Leq(a, b) && Lex.Leq(b, c) ==> Lex.Leq(a, c)
    ensures Lex.Leq(b, a) && Lex.Leq(c, b) ==> Lex.Leq(c, a)
  {
    Lex.Total(a, b);
    if Lex.Leq(a, b) && Lex.Leq(b, a) { Lex.Antisymmetric(a, b); }
    if Lex.Leq(a, b) && Lex.Leq(b, c) { Lex.Transitive(a, b, c); }
    if Lex.Leq(b, a) && Lex.Leq(c, b) { Lex.Transitive(c, b, a); }
  }

  lemma RegistersAssociate(a: LWWMap.State, b: LWWMap.State, c: LWWMap.State, names: Stamped)
    requires StampedBy(a, names) && StampedBy(b, names) && StampedBy(c, names)
    ensures LWWMap.Merged(LWWMap.Merged(a, b), c).registers == LWWMap.Merged(a, LWWMap.Merged(b, c)).registers
  {
    var l, r := LWWMap.Merged(LWWMap.Merged(a, b), c).registers, LWWMap.Merged(a, LWWMap.Merged(b, c)).registers;
    forall k ensures SameAt(l, r, k) {
      if k in a.registers && k in b.registers && k in c.registers {
        RegisterLaws(a.registers[k], b.registers[k], c.registers[k]);
      }
    }
    SameEverywhere(l, r);
  }

  lemma RegistersCommute(a: LWWMap.State, b: LWWMap.State, names: Stamped)
    requires StampedBy(a, names) && StampedBy(b, names)
    ensures LWWMap.Merged(a, b).registers == LWWMap.Merged(b, a).registers
  {
    var x, y := LWWMap.Merged(a, b).registers, LWWMap.Merged(b, a).registers;
    forall k ensures SameAt(x, y, k) {
      if k in a.registers && k in b.registers {
        RegisterLaws(a.registers[k], b.registers[k], a.registers[k]);
      }
    }
    SameEverywhere(x, y);
  }

  lemma TombstonesLaws(a: LWWMap.State, b: LWWMap.State, c: LWWMap.State)
    ensures LWWMap.Merged(LWWMap.Merged(a, b), c).tombstones == LWWMap.Merged(a, LWWMap.Merged(b, c)).tombstones
    ensures LWWMap.Merged(a, b).tombstones == LWWMap.Merged(b, a).tombstones
  {
    var l, r := LWWMap.Merged(LWWMap.Merged(a, b), c).tombstones, LWWMap.Merged(a, LWWMap.Merged(b, c)).tombstones;
    forall k ensures SameAt(l, r, k) {
      TombstoneAssociates(a, b, c, k);
    }
    SameEverywhere(l, r);
    TombstonesCommute(a, b);
  }

  lemma TombstonesCommute(a: LWWMap.State, b: LWWMap.State)
    ensures LWWMap.Merged(a, b).tombstones == LWWMap.Merged(b, a).tombstones
  {
    var x, y := LWWMap.Merged(a, b).tombstones, LWWMap.Merged(b, a).tombstones;
    forall k ensures SameAt(x, y, k) {
      TombstoneAt(a, b, k);
      TombstoneAt(b, a, k);
    }
    SameEverywhere(x, y);
  }

  lemma TombstoneAt(a: LWWMap.State, b: LWWMap.State, k: LWWMap.Key)
    ensures k in LWWMap.Merged(a, b).tombstones <==> k in a.tombstones || k in b.tombstones
    ensures k in LWWMap.Merged(a, b).tombstones ==> LWWMap.Merged(a, b).tombstones[k] == LWWMap.MergedTombstone(a, b, k)
  {
  }

  lemma TombstoneAssociates(a: LWWMap.State, b: LWWMap.State, c: LWWMap.State, k: LWWMap.Key)
    ensures SameAt(LWWMap.Merged(LWWMap.Merged(a, b), c).tombstones, LWWMap.Merged(a, LWWMap.Merged(b, c)).tombstones, k)
  {
    TombstoneAt(a, b, k);
    TombstoneAt(b, c, k);
    TombstoneAt(LWWMap.Merged(a, b), c, k);
    TombstoneAt(a, LWWMap.Merged(b, c), k);
  }

  lemma LWWMapIdempotent(a: LWWMap.State)
    ensures LWWMap.Merged(a, a) == a
  {
    assert LWWMap.Merged(a, a).registers == a.registers;
    assert LWWMap.Merged(a, a).tombstones == a.tombstones;
  }

  lemma LWWMapsConverge(t: Tree<LWWMap.State>, u: Tree<LWWMap.State>, names: Stamped)
    requires Leaves(t) == Leaves(u)
    requires forall s | s in Leaves(t) :: StampedBy(s, names)
    ensures MergeAll(t, LWWMap.Merged) == MergeAll(u, LWWMap.Merged)
  {
    var good := GoodStamps(names);
    forall a, b, c | good(a) && good(b) && good(c) ensures Laws(LWWMap.Merged, good, a, b, c) {
      RegistersAssociate(a, b, c, names);
      RegistersCommute(a, b, names);
      TombstonesLaws(a, b, c);
      LWWMapIdempotent(a);
    }
    TreesConverge(t, u, LWWMap.Merged, good);
  }

  // ---- gossip stores ----

  function GossipMerge(text: Gossip.Text): (Gossip.Node, Gossip.Node) -> Gossip.Node {
    (a, b) => Gossip.MergeNodes(a, b, text)
  }

  ghost predicate InjectiveText(text: Gossip.Text) {
    forall v, w :: text(v) == text(w) ==> v == w
  }

  lemma EntryLaws(a: Gossip.Entry, b: Gossip.Entry, c: Gossip.Entry, text: Gossip.Text)
    requires a.key == b.key == c.key && InjectiveText(text)
    ensures Gossip.MergeEntries(a, b, text) == Gossip.MergeEntries(b, a, text)
    ensures Gossip.MergeEntries(a, a, text) == a
    ensures Gossip.MergeEntries(Gossip.MergeEntries(a, b, text), c, text) == Gossip.MergeEntries(a, Gossip.MergeEntries(b, c, text), text)
  {
    Clocks.MergeCommutes(a.clock, b.clock);
    Clocks.MergeIdempotent(a.clock);
    Clocks.MergeAssociates(a.clock, b.clock, c.clock);
    TotalOn(text(a.value), text(b.value), text(c.value));
    TotalOn(text(b.value), text(c.value), text(a.value));
    TotalOn(text(c.value), text(a.value), text(b.value));
  }

  lemma StoresCommute(a: Gossip.Store, b: Gossip.Store, text: Gossip.Text)
    requires InjectiveText(text)
    ensures Gossip.MergeStores(a, b, text) == Gossip.MergeStores(b, a, text)
  {
    forall k | k in a.Keys + b.Keys ensures Gossip.MergedEntry(a, b, k, text) == Gossip.MergedEntry(b, a, k, text) {
      if k in a && k in b { EntryLaws(a[k], b[k], a[k], text); }
    }
    Gossip.IsUnion(Gossip.MergeStores(a, b, text), b, a, text);
  }

  lemma StoreIdempotent(a: Gossip.Store, text: Gossip.Text)
    requires InjectiveText(text)
    ensures Gossip.MergeStores(a, a, text) == a
  {
    forall k | k in a ensures Gossip.MergedEntry(a, a, k, text) == a[k] {
      EntryLaws(a[k], a[k], a[k], text);
    }
    Gossip.IsUnion(a, a, a, text);
  }

  lemma StoresAssociate(a: Gossip.Store, b: Gossip.Store, c: Gossip.Store, text: Gossip.Text)
    requires InjectiveText(text)
    ensures Gossip.MergeStores(Gossip.MergeStores(a, b, text), c, text) == Gossip.MergeStores(a, Gossip.MergeStores(b, c, text), text)
  {
    var ab, bc := Gossip.MergeStores(a, b, text), Gossip.MergeStores(b, c, text);
    forall k | k in ab.Keys + c.Keys ensures Gossip.MergedEntry(ab, c, k, text) == Gossip.MergedEntry(a, bc, k, text) {
      if k in a && k in b && k in c { EntryLaws(a[k], b[k], c[k], text); }
    }
    Gossip.IsUnion(Gossip.MergeStores(ab, c, text), a, bc, text);
  }

  lemma GossipLaws(a: Gossip.Node, b: Gossip.Node, c: Gossip.Node, text: Gossip.Text)
    requires InjectiveText(text)
    ensures Laws(GossipMerge(text), Any, a, b, c)
  {
    GossipCommutes(a, b, text);
    GossipIdempotent(a, text);
    GossipAssociates(a, b, c, text);
  }

  lemma GossipCommutes(a: Gossip.Node, b: Gossip.Node, text: Gossip.Text)
    requires InjectiveText(text)
    ensures Gossip.MergeNodes(a, b, text) == Gossip.MergeNodes(b, a, text)
  {
    StoresCommute(a.entries, b.entries, text);
    Clocks.MergeCommutes(a.clock, b.clock);
  }

  lemma GossipIdempotent(a: Gossip.Node, text: Gossip.Text)
    requires InjectiveText(text)
    ensures Gossip.MergeNodes(a, a, text) == a
  {
    StoreIdempotent(a.entries, text);
    Clocks.MergeIdempotent(a.clock);
  }

  lemma GossipAssociates(a: Gossip.Node, b: Gossip.Node, c: Gossip.Node, text: Gossip.Text)
    requires InjectiveText(text)
    ensures Gossip.MergeNodes(Gossip.MergeNodes(a, b, text), c, text) == Gossip.MergeNodes(a, Gossip.MergeNodes(b, c, text), text)
  {
    StoresAssociate(a.entries, b.entries, c.entries, text);
    Clocks.MergeAssociates(a.clock, b.clock, c.clock);
  }

  lemma GossipStatesConverge(t: Tree<Gossip.Node>, u: Tree<Gossip.Node>, text: Gossip.Text)
    requires Leaves(t) == Leaves(u) && InjectiveText(text)
    ensures MergeAll(t, GossipMerge(text)) == MergeAll(u, GossipMerge(text))
  {
    var merge := GossipMerge(text);
    forall a: Gossip.Node, b, c ensures Laws(merge, Any, a, b, c) {
      GossipLaws(a, b, c, text);
    }
    TreesConverge(t, u, merge, Any);
  }

  // ---- Merkle record sets ----

  /** The data a content hash stands for under a key: equal hashes mean equal content. */
  type Filed = (string, string) -> string

  ghost predicate FiledBy(rs: MerkleTrees.Records, names: Filed) {
    forall k | k in rs :: rs[k].data == names(k, rs[k].hash)
  }

  ghost function GoodFiles(names: Filed): MerkleTrees.Records -> bool {
    rs => FiledBy(rs, names)
  }

  lemma RecordLaws(a: MerkleTrees.Record, b: MerkleTrees.Record, c: MerkleTrees.Record)
    requires (a.hash == b.hash ==> a == b) && (b.hash == c.hash ==> b == c) && (a.hash == c.hash ==> a == c)
    ensures MerkleTrees.MergeRecords(a, b) == MerkleTrees.MergeRecords(b, a)
    ensures MerkleTrees.MergeRecords(MerkleTrees.MergeRecords(a, b), c) == MerkleTrees.MergeRecords(a, MerkleTrees.MergeRecords(b, c))
  {
    TotalOn(a.hash, b.hash, c.hash);
    TotalOn(b.hash, c.hash, a.hash);
    TotalOn(c.hash, a.hash, b.hash);
  }

  lemma RecordsLaws(a: MerkleTrees.Records, b: MerkleTrees.Records, c: MerkleTrees.Records, names: Filed)
    requires FiledBy(a, names) && FiledBy(b, names) && FiledBy(c, names)
    ensures MerkleTrees.Merged(a, b) == MerkleTrees.Merged(b, a)
    ensures MerkleTrees.Merged(MerkleTrees.Merged(a, b), c) == MerkleTrees.Merged(a, MerkleTrees.Merged(b, c))
    ensures FiledBy(MerkleTrees.Merged(a, b), names)
  {
    forall k ensures SameAt(MerkleTrees.Merged(a, b), MerkleTrees.Merged(b, a), k) {
      if k in a && k in b { RecordLaws(a[k], b[k], a[k]); }
    }
    SameEverywhere(MerkleTrees.Merged(a, b), MerkleTrees.Merged(b, a));
    var l, r := MerkleTrees.Merged(MerkleTrees.Merged(a, b), c), MerkleTrees.Merged(a, MerkleTrees.Merged(b, c));
    forall k ensures SameAt(l, r, k) {
      if k in a && k in b && k in c { RecordLaws(a[k], b[k], c[k]); }
    }
    SameEverywhere(l, r);
  }

  lemma RecordsIdempotent(a: MerkleTrees.Records)
    ensures MerkleTrees.Merged(a, a) == a
  {
    SameEverywhere(MerkleTrees.Merged(a, a), a);
  }

  lemma MerkleTreesConverge(t: Tree<MerkleTrees.Records>, u: Tree<MerkleTrees.Records>, names: Filed)
    requires Leaves(t) == Leaves(u)
    requires forall s | s in Leaves(t) :: FiledBy(s, names)
    ensures MergeAll(t, MerkleTrees.Merged) == MergeAll(u, MerkleTrees.Merged)
  {
    var good := GoodFiles(names);
    forall a, b, c | good(a) && good(b) && good(c) ensures Laws(MerkleTrees.Merged, good, a, b, c) {
      RecordsLaws(a, b, c, names);
      RecordsIdempotent(a);
    }
    TreesConverge(t, u, MerkleTrees.Merged, good);
  }
}
