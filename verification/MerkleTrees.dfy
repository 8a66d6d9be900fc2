/**
 Record sets with a lazily rebuilt Merkle tree: mutation, the root hash, merge and diff.
*/
module MerkleTrees {
  import opened Options
  import Lex
  import opened Merkle
  import opened SortedKeys

  /** A record as stored: its content hash and its data. */
  datatype Record = Record(hash: string, data: string)

  type Records = map<Key, Record>

  /** The content hash of a record filed under a key; the field holding the key is excluded. */
  type Content = (Key, string) -> string

  ghost predicate Genuine(sha: Sha, rs: Records) {
    forall k | k in rs :: ContentHash(sha, rs[k].hash)
  }

  function LeavesOf(rs: Records, ks: seq<Key>): (ls: seq<Node>)
    requires forall k | k in ks :: k in rs
    ensures |ls| == |ks| && forall i | 0 <= i < |ks| :: ls[i] == Leaf(rs[ks[i]].hash, ks[i])
  {
    seq(|ks|, i requires 0 <= i < |ks| => Leaf(rs[ks[i]].hash, ks[i]))
  }

  ghost function KeysInOrder(rs: Records): (ks: seq<Key>)
    ensures SortedOf(Lex.Leq, ks, rs.Keys)
  {
    StringsOrdered();
    Sorted(Lex.Leq, rs.Keys)
  }

  ghost function AllLeavesOf(rs: Records): (ls: seq<Node>)
    ensures AllLeaves(ls) && |ls| == |rs|
  {
    SortedLength(KeysInOrder(rs), rs.Keys);
    LeavesOf(rs, KeysInOrder(rs))
  }

  /** The tree a fresh build of the records gives; none for no records. */
  ghost function FreshRoot(sha: Sha, rs: Records, b: nat): Option<Node>
    requires b >= 2
  {
    if rs == map[] then None else Some(Build(sha, AllLeavesOf(rs), b))
  }

  ghost function RootHashOf(sha: Sha, rs: Records, b: nat): string
    requires b >= 2
  {
    if rs == map[] then sha(EMPTY_INPUT) else Build(sha, AllLeavesOf(rs), b).hash
  }

  /** The content hashes in key order. */
  ghost function Contents(rs: Records): seq<string> {
    Hashes(AllLeavesOf(rs))
  }

  lemma {:induction false} SortedLength(ks: seq<string>, s: set<string>)
    requires SortedOf(Lex.Leq, ks, s)
    ensures |ks| == |s|
    decreases |ks|
  {
    if ks == [] {
      assert s == {};
    } else {
      assert ks[0] in ks;
      StringsOrdered();
      TailSorted(Lex.Leq, ks, s);
      SortedLength(ks[1..], s - {ks[0]});
    }
  }

  lemma ContentsGenuine(sha: Sha, rs: Records)
    requires Genuine(sha, rs)
    ensures ContentHashes(sha, Contents(rs)) && |Contents(rs)| == |rs|
  {
    var ks := KeysInOrder(rs);
    assert forall i | 0 <= i < |ks| :: ks[i] in ks;
  }

  /** Two trees of one branching factor, empty ones included, have equal root hashes exactly when their
      key-ordered content hashes are equal. */
  lemma RootHashesEqualIff(sha: Sha, x: Records, y: Records, b: nat)
    requires b >= 2 && Ideal(sha) && Genuine(sha, x) && Genuine(sha, y)
    ensures RootHashOf(sha, x, b) == RootHashOf(sha, y, b) <==> Contents(x) == Contents(y)
  {
    RootHashesEqual(sha, x, b, y, b);
    assert Contents(x) == Contents(y) ==> |x| == |y| by {
      ContentsGenuine(sha, x);
      ContentsGenuine(sha, y);
    }
    if Contents(x) == Contents(y) && x != map[] {
      BuildHash(sha, AllLeavesOf(x), b);
      BuildHash(sha, AllLeavesOf(y), b);
    }
  }

  /** Even across branching factors equal root hashes mean equal contents. */
  lemma RootHashesEqual(sha: Sha, x: Records, b: nat, y: Records, c: nat)
    requires b >= 2 && c >= 2 && Ideal(sha) && Genuine(sha, x) && Genuine(sha, y)
    ensures RootHashOf(sha, x, b) == RootHashOf(sha, y, c) ==> Contents(x) == Contents(y)
  {
    ContentsGenuine(sha, x);
    ContentsGenuine(sha, y);
    if x != map[] {
      BuildHash(sha, AllLeavesOf(x), b);
      RootIsNotEmptyHash(sha, Contents(x), b);
    }
    if y != map[] {
      BuildHash(sha, AllLeavesOf(y), c);
      RootIsNotEmptyHash(sha, Contents(y), c);
    }
    if x != map[] && y != map[] {
      RootsEqualIffContentsEqual(sha, Contents(x), b, Contents(y), c);
    } else if x == map[] && y == map[] {
      assert Contents(x) == Contents(y);
    }
  }

  // ---- diff ----

  datatype Diff = Diff(onlyLeft: set<Key>, onlyRight: set<Key>, different: set<Key>)

  const IDENTICAL := Diff({}, {}, {})

  /** The exhaustive scan of both key sets. */
  function Scan(x: Records, y: Records): Diff {
    Diff(x.Keys - y.Keys, y.Keys - x.Keys, set k | k in x && k in y && x[k].hash != y[k].hash)
  }

  ghost function DiffOf(sha: Sha, x: Records, b: nat, y: Records, c: nat): Diff
    requires b >= 2 && c >= 2
  {
    if RootHashOf(sha, x, b) == RootHashOf(sha, y, c) then IDENTICAL else Scan(x, y)
  }

  /** Over one key set, equal contents leave nothing for the scan to find. */
  lemma EqualContentsScanEmpty(x: Records, y: Records)
    requires x.Keys == y.Keys && Contents(x) == Contents(y)
    ensures Scan(x, y) == IDENTICAL
  {
    var ks := KeysInOrder(x);
    forall k | k in x ensures x[k].hash == y[k].hash {
      var i :| 0 <= i < |ks| && ks[i] == k;
      assert Contents(x)[i] == x[k].hash && Contents(y)[i] == y[k].hash;
    }
  }

  lemma DifferentKeysSeen(x: Records, y: Records)
    requires x.Keys != y.Keys
    ensures Scan(x, y) != IDENTICAL
  {
    assert x.Keys - y.Keys == {} && y.Keys - x.Keys == {} ==> x.Keys <= y.Keys <= x.Keys;
  }

  /** The root shortcut reports what the exhaustive scan would, except when equal roots hide different key sets. */
  lemma ShortcutAgreesWithScan(sha: Sha, x: Records, b: nat, y: Records, c: nat)
    requires b >= 2 && c >= 2 && Ideal(sha) && Genuine(sha, x) && Genuine(sha, y)
    ensures DiffOf(sha, x, b, y, c) == Scan(x, y) <==>
            RootHashOf(sha, x, b) != RootHashOf(sha, y, c) || x.Keys == y.Keys
  {
    if RootHashOf(sha, x, b) == RootHashOf(sha, y, c) {
      RootHashesEqual(sha, x, b, y, c);
      if x.Keys == y.Keys {
        EqualContentsScanEmpty(x, y);
      } else {
        DifferentKeysSeen(x, y);
      }
    }
  }

  /** Keys are not hashed: one record filed under two different keys gives equal roots and an empty diff. */
  lemma RenamedKeyGoesUnnoticed(sha: Sha, k: Key, l: Key, r: Record, b: nat)
    requires b >= 2 && k != l
    ensures DiffOf(sha, map[k := r], b, map[l := r], b) == IDENTICAL != Scan(map[k := r], map[l := r])
  {
    var x, y := map[k := r], map[l := r];
    StringsOrdered();
    assert SortedOf(Lex.Leq, [k], {k}) && SortedOf(Lex.Leq, [l], {l});
    SortedUnique(Lex.Leq, [k], KeysInOrder(x), x.Keys);
    SortedUnique(Lex.Leq, [l], KeysInOrder(y), y.Keys);
    assert k in Scan(x, y).onlyLeft;
  }

  // ---- merge ----

  function MergeRecords(x: Record, y: Record): Record {
    if Lex.Leq(y.hash, x.hash) then x else y
  }

  /** The kept record is the one with the larger content hash, the first of equals. */
  lemma MergeKeepsLarger(x: Record, y: Record)
    ensures var m := MergeRecords(x, y);
            && (m == x || m == y) && Lex.Leq(x.hash, m.hash) && Lex.Leq(y.hash, m.hash) && (x.hash == y.hash ==> m == x)
  {
    Lex.Total(x.hash, y.hash);
    Lex.Reflexive(x.hash);
    Lex.Reflexive(y.hash);
  }

  function MergedRecord(x: Records, y: Records, k: Key): Record
    requires k in x || k in y
  {
    if k !in y then x[k] else if k !in x then y[k] else MergeRecords(x[k], y[k])
  }

  function Merged(x: Records, y: Records): Records {
    map k | k in x.Keys + y.Keys :: MergedRecord(x, y, k)
  }

  lemma IsMerged(x: Records, y: Records, m: Records)
    requires forall k :: k in m <==> k in x.Keys + y.Keys
    requires forall k | k in m :: m[k] == MergedRecord(x, y, k)
    ensures m == Merged(x, y)
  {
    assert m.Keys == x.Keys + y.Keys;
  }

  // ---- the tree itself ----

  class MerkleTree {
    const branching: nat
    const sha: Sha
    const content: Content
    var records: Records
    var root: Option<Node>
    var dirty: bool

    constructor (branching: int, sha: Sha, content: Content)
      ensures Valid() && this.branching == (if branching < 2 then 2 else branching)
      ensures this.sha == sha && this.content == content && records == map[]
    {
      this.branching := if branching < 2 then 2 else branching;
      this.sha, this.content := sha, content;
      records, root, dirty := map[], None, true;
    }

    /** Unless marked dirty, the stored tree is the fresh build of the current records. */
    ghost predicate Valid()
      reads this
    {
      branching >= 2 && (!dirty ==> root == FreshRoot(sha, records, branching))
    }

    method Rebuild()
      requires Valid()
      modifies this`root, this`dirty
      ensures Valid() && !dirty
      ensures root == FreshRoot(sha, records, branching)
    {
      if records == map[] {
        root, dirty := None, false;
        return;
      }
      StringsOrdered();
      var keys := SortKeys(Lex.Leq, records.Keys);
      SortedLength(keys, records.Keys);
      var level := LeavesOf(records, keys);
      while |level| > 1
        invariant level != []
        invariant Build(sha, level, branching) == Build(sha, AllLeavesOf(records), branching)
        decreases |level|
      {
        level := BuildLevel(sha, level, branching);
      }
      root, dirty := Some(level[0]), false;
    }

    static method BuildLevel(sha: Sha, level: seq<Node>, b: nat) returns (next: seq<Node>)
      requires b >= 2
      ensures next == NextLevel(sha, level, b)
    {
      next := [];
      var rest := level;
      while rest != []
        invariant next + NextLevel(sha, rest, b) == NextLevel(sha, level, b)
        decreases |rest|
      {
        var m := GroupSize(|rest|, b);
        var parent, tail := Parent(sha, rest[..m]), rest[m..];
        ghost var above := NextLevel(sha, tail, b);
        assert NextLevel(sha, rest, b) == [parent] + above;
        assert next + ([parent] + above) == (next + [parent]) + above;
        next, rest := next + [parent], tail;
      }
    }

    method RootHash() returns (h: string)
      requires Valid()
      modifies this`root, this`dirty
      ensures Valid() && !dirty && h == RootHashOf(sha, records, branching)
    {
      if dirty {
        Rebuild();
      }
      h := if root.Some? then root.value.hash else sha(EMPTY_INPUT);
    }

    method TreeHeight() returns (h: nat)
      requires Valid()
      modifies this`root, this`dirty
      ensures Valid() && !dirty
      ensures h == if records == map[] then 0 else Height(|records|, branching)
    {
      if dirty {
        Rebuild();
      }
      if root.None? {
        return 0;
      }
      BuildOverLeaves(sha, AllLeavesOf(records), branching);
      h := Depth(root.value, Height(|records|, branching), branching);
    }

    /** Walks down the first children of a shaped tree. */
    static method Depth(top: Node, ghost height: nat, ghost b: nat) returns (h: nat)
      requires Shaped(top, height, b)
      ensures h == height
    {
      h := 1;
      var node := top;
      while node.Inner?
        invariant 1 <= h <= height && Shaped(node, height - h + 1, b)
        decreases height - h
      {
        assert node.children[0] in node.children;
        h, node := h + 1, node.children[0];
      }
    }

    method Insert(key: Key, data: string)
      requires Valid()
      modifies this`records, this`dirty
      ensures Valid() && dirty
      ensures records == old(records)[key := Record(content(key, data), data)]
    {
      records := records[key := Record(content(key, data), data)];
      dirty := true;
    }

    method Delete(key: Key) returns (existed: bool)
      requires Valid()
      modifies this`records, this`dirty
      ensures Valid() && (existed <==> key in old(records))
      ensures records == old(records) - {key}
    {
      existed := key in records;
      if existed {
        records := records - {key};
        dirty := true;
      } else {
        assert records == records - {key};
      }
    }

    method MergeWith(other: MerkleTree) returns (r: MerkleTree)
      requires Valid()
      ensures fresh(r) && r.Valid() && r.branching == branching && r.sha == sha
      ensures r.records == Merged(records, other.records)
    {
      r := new MerkleTree(branching, sha, content);
      r.records := UnionRecords(records, other.records);
      r.dirty := true;
    }

    static method UnionRecords(x: Records, y: Records) returns (m: Records)
      ensures m == Merged(x, y)
    {
      m := map[];
      var rest := x.Keys + y.Keys;
      while rest != {}
        invariant rest <= x.Keys + y.Keys
        invariant forall k :: k in m <==> k in x.Keys + y.Keys && k !in rest
        invariant forall k | k in m :: m[k] == MergedRecord(x, y, k)
        decreases |rest|
      {
        var k :| k in rest;
        rest := rest - {k};
        m := m[k := MergedRecord(x, y, k)];
      }
      IsMerged(x, y, m);
    }
  }

  method CompareCommon(x: Records, y: Records) returns (different: set<Key>, comparisons: nat)
    ensures different == Scan(x, y).different
    ensures comparisons == |x.Keys * y.Keys|
  {
    comparisons := 0;
    var common := x.Keys * y.Keys;
    var rest := common;
    different := {};
    while rest != {}
      invariant rest <= common
      invariant different == set k | k in common && k !in rest && x[k].hash != y[k].hash
      invariant comparisons == |common| - |rest|
      decreases |rest|
    {
      var k :| k in rest;
      rest := rest - {k};
      comparisons := comparisons + 1;
      if x[k].hash != y[k].hash {
        different := different + {k};
      }
    }
  }

  /** One comparison of roots, and a scan of the common keys only if they differ. */
  method MerkleDiff(x: MerkleTree, y: MerkleTree) returns (d: Diff, comparisons: nat)
    requires x != y && x.Valid() && y.Valid() && x.sha == y.sha
    modifies x`root, x`dirty, y`root, y`dirty
    ensures x.Valid() && y.Valid()
    ensures d == DiffOf(x.sha, x.records, x.branching, y.records, y.branching)
    ensures if RootHashOf(x.sha, x.records, x.branching) == RootHashOf(x.sha, y.records, y.branching) then d == Diff({}, {}, {})
            else forall k ::
                   && (k in d.onlyLeft <==> k in x.records && k !in y.records)
                   && (k in d.onlyRight <==> k in y.records && k !in x.records)
                   && (k in d.different <==> k in x.records && k in y.records && x.records[k].hash != y.records[k].hash)
    ensures comparisons == 1 + if RootHashOf(x.sha, x.records, x.branching) == RootHashOf(x.sha, y.records, y.branching) then 0
                               else |x.records.Keys * y.records.Keys|
  {
    comparisons := 1;
    var hx := x.RootHash();
    var hy := y.RootHash();
    if hx == hy {
      return IDENTICAL, comparisons;
    }
    var left, right := x.records, y.records;
    var different, scanned := CompareCommon(left, right);
    d := Diff(left.Keys - right.Keys, right.Keys - left.Keys, different);
    comparisons := comparisons + scanned;
  }
}
