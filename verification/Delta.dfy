/**
 Deltas between keyed record sets: computing, applying and composing them, and a store that emits
 one per snapshot. Keys are their texts (the code converts removed keys with `str`), and `hash`
 stands for the hash of a record's content without its key.

 The order of records inside a delta is left open: it comes from dict and set iteration.
*/
module Delta {
  import opened Options
  import opened Maps

  type Key = string

  datatype Record = Record(key: Key, body: string)

  /** An input row may lack the key field; such rows are skipped. */
  datatype Row = Row(key: Option<Key>, body: string)

  type Set = map<Key, Record>

  type Hash = Record -> string

  datatype Delta = Delta(added: seq<Record>, modified: seq<Record>, removed: seq<Key>, version: nat)

  // ---- applying ----

  function Upsert(s: Set, rs: seq<Record>): Set
    decreases |rs|
  {
    if rs == [] then s else Upsert(s[rs[0].key := rs[0]], rs[1..])
  }

  function Drop(s: Set, ks: seq<Key>): Set
    decreases |ks|
  {
    if ks == [] then s else Drop(s - {ks[0]}, ks[1..])
  }

  function Applied(s: Set, d: Delta): Set {
    Upsert(Upsert(Drop(s, d.removed), d.modified), d.added)
  }

  function AppliedAll(s: Set, ds: seq<Delta>): Set
    decreases |ds|
  {
    if ds == [] then s else AppliedAll(Applied(s, ds[0]), ds[1..])
  }

  method ApplyDelta(s: Set, d: Delta) returns (r: Set)
    ensures r == Applied(s, d)
  {
    r := s;
    for i := 0 to |d.removed|
      invariant Drop(r, d.removed[i..]) == Drop(s, d.removed)
    {
      r := r - {d.removed[i]};
    }
    ghost var dropped := r;
    for i := 0 to |d.modified|
      invariant Upsert(r, d.modified[i..]) == Upsert(dropped, d.modified)
    {
      r := r[d.modified[i].key := d.modified[i]];
    }
    ghost var changed := r;
    for i := 0 to |d.added|
      invariant Upsert(r, d.added[i..]) == Upsert(changed, d.added)
    {
      r := r[d.added[i].key := d.added[i]];
    }
  }

  // ---- net changes ----

  /** The net change of one key after some deltas. */
  datatype Change = Added(record: Record) | Modified(record: Record) | Removed

  type Net = map<Key, Change>

  function NetRemove(n: Net, k: Key): Net {
    n[k := Removed]
  }

  /** A removed key that is modified again counts as added; an added one stays added. */
  function NetModify(n: Net, r: Record): Net {
    n[r.key := if r.key in n && !n[r.key].Modified? then Added(r) else Modified(r)]
  }

  function NetAdd(n: Net, r: Record): Net {
    n[r.key := Added(r)]
  }

  function NetRemoveAll(n: Net, ks: seq<Key>): Net
    decreases |ks|
  {
    if ks == [] then n else NetRemoveAll(NetRemove(n, ks[0]), ks[1..])
  }

  function NetModifyAll(n: Net, rs: seq<Record>): Net
    decreases |rs|
  {
    if rs == [] then n else NetModifyAll(NetModify(n, rs[0]), rs[1..])
  }

  function NetAddAll(n: Net, rs: seq<Record>): Net
    decreases |rs|
  {
    if rs == [] then n else NetAddAll(NetAdd(n, rs[0]), rs[1..])
  }

  /** One delta on top of the net changes so far. */
  function Accumulated(n: Net, d: Delta): Net {
    NetAddAll(NetModifyAll(NetRemoveAll(n, d.removed), d.modified), d.added)
  }

  function NetOf(n: Net, ds: seq<Delta>): Net
    decreases |ds|
  {
    if ds == [] then n else NetOf(Accumulated(n, ds[0]), ds[1..])
  }

  /** A delta that lists exactly the net changes, each once, in some order. */
  ghost predicate Lists(d: Delta, n: Net) {
    && (forall r | r in d.added :: r.key in n && n[r.key] == Added(r))
    && (forall r | r in d.modified :: r.key in n && n[r.key] == Modified(r))
    && (forall k | k in d.removed :: k in n && n[k] == Removed)
    && (forall k | k in n ::
         match n[k]
         case Added(r) => r.key == k && r in d.added
         case Modified(r) => r.key == k && r in d.modified
         case Removed => k in d.removed)
  }

  // ---- net changes act on record sets ----

  function ActAt(s: Set, n: Net, k: Key): Option<Record> {
    if k in n then (if n[k].Removed? then None else Some(n[k].record))
    else if k in s then Some(s[k])
    else None
  }

  function Act(s: Set, n: Net): Set {
    map k | k in s.Keys + n.Keys && ActAt(s, n, k).Some? :: ActAt(s, n, k).value
  }

  lemma ActLookup(s: Set, n: Net, k: Key)
    ensures k in Act(s, n) <==> ActAt(s, n, k).Some?
    ensures k in Act(s, n) ==> Act(s, n)[k] == ActAt(s, n, k).value
  {
  }

  lemma ActRemove(s: Set, n: Net, k: Key)
    ensures Act(s, NetRemove(n, k)) == Act(s, n) - {k}
  {
    forall x ensures SameAt(Act(s, NetRemove(n, k)), Act(s, n) - {k}, x) {
      ActLookup(s, n, x);
      ActLookup(s, NetRemove(n, k), x);
    }
    SameEverywhere(Act(s, NetRemove(n, k)), Act(s, n) - {k});
  }

  lemma ActPut(s: Set, n: Net, m: Net, r: Record)
    requires m == NetModify(n, r) || m == NetAdd(n, r)
    ensures Act(s, m) == Act(s, n)[r.key := r]
  {
    var before, after := Act(s, n)[r.key := r], Act(s, m);
    forall x ensures SameAt(after, before, x) {
      ActLookup(s, n, x);
      ActLookup(s, m, x);
    }
    SameEverywhere(after, before);
  }

  lemma {:induction false} ActRemoveAll(s: Set, n: Net, ks: seq<Key>)
    ensures Act(s, NetRemoveAll(n, ks)) == Drop(Act(s, n), ks)
    decreases |ks|
  {
    if ks != [] {
      ActRemove(s, n, ks[0]);
      ActRemoveAll(s, NetRemove(n, ks[0]), ks[1..]);
    }
  }

  lemma {:induction false} ActModifyAll(s: Set, n: Net, rs: seq<Record>)
    ensures Act(s, NetModifyAll(n, rs)) == Upsert(Act(s, n), rs)
    decreases |rs|
  {
    if rs != [] {
      ActPut(s, n, NetModify(n, rs[0]), rs[0]);
      ActModifyAll(s, NetModify(n, rs[0]), rs[1..]);
    }
  }

  lemma {:induction false} ActAddAll(s: Set, n: Net, rs: seq<Record>)
    ensures Act(s, NetAddAll(n, rs)) == Upsert(Act(s, n), rs)
    decreases |rs|
  {
    if rs != [] {
      ActPut(s, n, NetAdd(n, rs[0]), rs[0]);
      ActAddAll(s, NetAdd(n, rs[0]), rs[1..]);
    }
  }

  lemma ActAccumulated(s: Set, n: Net, d: Delta)
    ensures Act(s, Accumulated(n, d)) == Applied(Act(s, n), d)
  {
    ActRemoveAll(s, n, d.removed);
    ActModifyAll(s, NetRemoveAll(n, d.removed), d.modified);
    ActAddAll(s, NetModifyAll(NetRemoveAll(n, d.removed), d.modified), d.added);
  }

  lemma {:induction false} ActNetOf(s: Set, n: Net, ds: seq<Delta>)
    ensures Act(s, NetOf(n, ds)) == AppliedAll(Act(s, n), ds)
    decreases |ds|
  {
    if ds != [] {
      ActAccumulated(s, n, ds[0]);
      ActNetOf(s, Accumulated(n, ds[0]), ds[1..]);
    }
  }

  lemma ActNothing(s: Set)
    ensures Act(s, map[]) == s
  {
    forall k ensures SameAt(Act(s, map[]), s, k) {
      ActLookup(s, map[], k);
    }
    SameEverywhere(Act(s, map[]), s);
  }

  // ---- a delta that lists a net accumulates to that net ----

  lemma {:induction false} RemoveAllAt(n: Net, ks: seq<Key>, k: Key)
    ensures var m := NetRemoveAll(n, ks);
            if k in ks then k in m && m[k] == Removed else (k in m <==> k in n) && (k in m ==> m[k] == n[k])
    decreases |ks|
  {
    if ks != [] { RemoveAllAt(NetRemove(n, ks[0]), ks[1..], k); }
  }

  lemma {:induction false} ModifyAllAt(n: Net, rs: seq<Record>, k: Key)
    requires forall r | r in rs :: r.key !in n || n[r.key].Modified?
    ensures var m := NetModifyAll(n, rs);
            if exists r | r in rs :: r.key == k then k in m && m[k].Modified? && m[k].record in rs && m[k].record.key == k
            else (k in m <==> k in n) && (k in m ==> m[k] == n[k])
    decreases |rs|
  {
    if rs != [] {
      ModifyAllAt(NetModify(n, rs[0]), rs[1..], k);
      assert forall r :: r in rs <==> r == rs[0] || r in rs[1..];
    }
  }

  lemma {:induction false} AddAllAt(n: Net, rs: seq<Record>, k: Key)
    ensures var m := NetAddAll(n, rs);
            if exists r | r in rs :: r.key == k then k in m && m[k].Added? && m[k].record in rs && m[k].record.key == k
            else (k in m <==> k in n) && (k in m ==> m[k] == n[k])
    decreases |rs|
  {
    if rs != [] {
      AddAllAt(NetAdd(n, rs[0]), rs[1..], k);
      assert forall r :: r in rs <==> r == rs[0] || r in rs[1..];
    }
  }

  lemma ListingAccumulates(d: Delta, n: Net)
    requires Lists(d, n)
    ensures Accumulated(map[], d) == n
  {
    var a := NetRemoveAll(map[], d.removed);
    var b := NetModifyAll(a, d.modified);
    var c := NetAddAll(b, d.added);
    forall r | r in d.modified ensures r.key !in a {
      RemoveAllAt(map[], d.removed, r.key);
    }
    forall k ensures SameAt(c, n, k) {
      RemoveAllAt(map[], d.removed, k);
      ModifyAllAt(a, d.modified, k);
      AddAllAt(b, d.added, k);
    }
    SameEverywhere(c, n);
  }

  /** Composing is applying in order: on every record set the composed delta acts like the list. */
  lemma ComposedActsLikeAll(s: Set, ds: seq<Delta>, d: Delta)
    requires Lists(d, NetOf(map[], ds))
    ensures Applied(s, d) == AppliedAll(s, ds)
  {
    ListingAccumulates(d, NetOf(map[], ds));
    ActNothing(s);
    ActAccumulated(s, map[], d);
    ActNetOf(s, map[], ds);
  }

  // ---- the monoid of net changes ----

  function ThenAt(n: Net, m: Net, k: Key): Option<Change> {
    if k !in m then (if k in n then Some(n[k]) else None)
    else if m[k].Modified? && k in n && !n[k].Modified? then Some(Added(m[k].record))
    else Some(m[k])
  }

  /** The changes of `n` followed by those of `m`. */
  function Then(n: Net, m: Net): Net {
    map k | k in n.Keys + m.Keys && ThenAt(n, m, k).Some? :: ThenAt(n, m, k).value
  }

  lemma ThenLookup(n: Net, m: Net, k: Key)
    ensures k in Then(n, m) <==> ThenAt(n, m, k).Some?
    ensures k in Then(n, m) ==> Then(n, m)[k] == ThenAt(n, m, k).value
  {
  }

  /** Each elementary change on the second factor is that change on the product. */
  lemma ThenStep(n: Net, m: Net, m': Net, p: Net)
    requires (exists k :: m' == NetRemove(m, k) && p == NetRemove(Then(n, m), k))
             || (exists r :: m' == NetModify(m, r) && p == NetModify(Then(n, m), r))
             || (exists r :: m' == NetAdd(m, r) && p == NetAdd(Then(n, m), r))
    ensures Then(n, m') == p
  {
    forall x ensures SameAt(Then(n, m'), p, x) {
      ThenLookup(n, m, x);
      ThenLookup(n, m', x);
    }
    SameEverywhere(Then(n, m'), p);
  }

  lemma {:induction false} ThenRemoveAll(n: Net, m: Net, ks: seq<Key>)
    ensures Then(n, NetRemoveAll(m, ks)) == NetRemoveAll(Then(n, m), ks)
    decreases |ks|
  {
    if ks != [] {
      ThenStep(n, m, NetRemove(m, ks[0]), NetRemove(Then(n, m), ks[0]));
      ThenRemoveAll(n, NetRemove(m, ks[0]), ks[1..]);
    }
  }

  lemma {:induction false} ThenModifyAll(n: Net, m: Net, rs: seq<Record>)
    ensures Then(n, NetModifyAll(m, rs)) == NetModifyAll(Then(n, m), rs)
    decreases |rs|
  {
    if rs != [] {
      ThenStep(n, m, NetModify(m, rs[0]), NetModify(Then(n, m), rs[0]));
      ThenModifyAll(n, NetModify(m, rs[0]), rs[1..]);
    }
  }

  lemma {:induction false} ThenAddAll(n: Net, m: Net, rs: seq<Record>)
    ensures Then(n, NetAddAll(m, rs)) == NetAddAll(Then(n, m), rs)
    decreases |rs|
  {
    if rs != [] {
      ThenStep(n, m, NetAdd(m, rs[0]), NetAdd(Then(n, m), rs[0]));
      ThenAddAll(n, NetAdd(m, rs[0]), rs[1..]);
    }
  }

  lemma ThenAccumulated(n: Net, m: Net, d: Delta)
    ensures Then(n, Accumulated(m, d)) == Accumulated(Then(n, m), d)
  {
    ThenRemoveAll(n, m, d.removed);
    ThenModifyAll(n, NetRemoveAll(m, d.removed), d.modified);
    ThenAddAll(n, NetModifyAll(NetRemoveAll(m, d.removed), d.modified), d.added);
  }

  lemma {:induction false} ThenNetOf(n: Net, m: Net, ds: seq<Delta>)
    ensures Then(n, NetOf(m, ds)) == NetOf(Then(n, m), ds)
    decreases |ds|
  {
    if ds != [] {
      ThenAccumulated(n, m, ds[0]);
      ThenNetOf(n, Accumulated(m, ds[0]), ds[1..]);
    }
  }

  lemma ThenNothing(n: Net)
    ensures Then(n, map[]) == n
  {
    forall k ensures SameAt(Then(n, map[]), n, k) {
      ThenLookup(n, map[], k);
    }
    SameEverywhere(Then(n, map[]), n);
  }

  /** A composed delta in the middle of a list changes the net exactly as its parts would. */
  lemma ComposedAccumulates(n: Net, ds: seq<Delta>, d: Delta)
    requires Lists(d, NetOf(map[], ds))
    ensures Accumulated(n, d) == NetOf(n, ds)
  {
    ListingAccumulates(d, NetOf(map[], ds));
    ThenNothing(n);
    ThenAccumulated(n, map[], d);
    ThenNetOf(n, map[], ds);
  }

  function Flatten(groups: seq<seq<Delta>>): seq<Delta> {
    if groups == [] then [] else groups[0] + Flatten(groups[1..])
  }

  lemma {:induction false} NetOfAppends(n: Net, ds: seq<Delta>, es: seq<Delta>)
    ensures NetOf(n, ds + es) == NetOf(NetOf(n, ds), es)
    decreases |ds|
  {
    if ds == [] {
      assert ds + es == es;
    } else {
      assert (ds + es)[1..] == ds[1..] + es;
      NetOfAppends(Accumulated(n, ds[0]), ds[1..], es);
    }
  }

  /** `gs` holds one composed delta for each group. */
  ghost predicate Composes(gs: seq<Delta>, groups: seq<seq<Delta>>) {
    |gs| == |groups| && forall i | 0 <= i < |gs| :: Lists(gs[i], NetOf(map[], groups[i]))
  }

  /** Composition is associative: however consecutive deltas are grouped and composed, the net change is the same. */
  lemma {:induction false} GroupingIrrelevant(n: Net, gs: seq<Delta>, groups: seq<seq<Delta>>)
    requires Composes(gs, groups)
    ensures NetOf(n, gs) == NetOf(n, Flatten(groups))
    decreases |gs|
  {
    if gs != [] {
      ComposedAccumulates(n, groups[0], gs[0]);
      NetOfAppends(n, groups[0], Flatten(groups[1..]));
      assert Composes(gs[1..], groups[1..]) by {
        forall i | 0 <= i < |gs| - 1 ensures Lists(gs[1..][i], NetOf(map[], groups[1..][i])) {
          assert Lists(gs[i + 1], NetOf(map[], groups[i + 1]));
        }
      }
      GroupingIrrelevant(NetOf(n, groups[0]), gs[1..], groups[1..]);
    }
  }

  /** A record that is new, or was removed before, and is then modified counts as added; one that is modified twice as
      modified; and one that is added and then removed as removed. */
  lemma ChangesFold(r: Record, s: Record, v: nat, w: nat)
    requires r.key == s.key
    ensures var k, add, mod, mod', rem := r.key, Delta([r], [], [], v), Delta([], [r], [], v), Delta([], [s], [], w), Delta([], [], [r.key], v);
            && NetOf(map[], [add, mod']) == map[k := Added(s)]
            && NetOf(map[], [rem, mod']) == map[k := Added(s)]
            && NetOf(map[], [mod, mod']) == map[k := Modified(s)]
            && NetOf(map[], [add, rem]) == map[k := Removed]
            && NetOf(map[], [rem, add]) == map[k := Added(r)]
  {
    OneChange(map[], r, v);
    TwoDeltas(map[], Delta([r], [], [], v), Delta([], [s], [], w));
    TwoDeltas(map[], Delta([], [], [r.key], v), Delta([], [s], [], w));
    TwoDeltas(map[], Delta([], [r], [], v), Delta([], [s], [], w));
    TwoDeltas(map[], Delta([r], [], [], v), Delta([], [], [r.key], v));
    TwoDeltas(map[], Delta([], [], [r.key], v), Delta([r], [], [], v));
    OneChange(map[r.key := Added(r)], s, w);
    OneChange(map[r.key := Removed], s, w);
    OneChange(map[r.key := Modified(r)], s, w);
    OneChange(map[r.key := Added(r)], r, v);
    OneChange(map[r.key := Removed], r, v);
  }

  lemma OneChange(n: Net, r: Record, v: nat)
    ensures Accumulated(n, Delta([r], [], [], v)) == NetAdd(n, r)
    ensures Accumulated(n, Delta([], [r], [], v)) == NetModify(n, r)
    ensures Accumulated(n, Delta([], [], [r.key], v)) == NetRemove(n, r.key)
  {
    var rs, ks := [r], [r.key];
    assert rs[1..] == [] && ks[1..] == [];
    assert NetAddAll(n, rs) == NetAdd(n, r) && NetModifyAll(n, rs) == NetModify(n, r) && NetRemoveAll(n, ks) == NetRemove(n, r.key);
  }

  lemma TwoDeltas(n: Net, d: Delta, e: Delta)
    ensures NetOf(n, [d, e]) == Accumulated(Accumulated(n, d), e)
  {
    assert [d, e][1..] == [e];
    assert NetOf(Accumulated(n, d), [e]) == NetOf(Accumulated(Accumulated(n, d), e), [e][1..]);
    assert [e][1..] == [];
  }

  // ---- composing, as the code does it ----

  /** The three working sets of `compose_deltas`, read as a net change per key. */
  ghost predicate Reads(added: Set, modified: Set, removed: set<Key>, n: Net) {
    forall k ::
      && (k in added <==> k in n && n[k].Added?) && (k in added ==> n[k].record == added[k] && added[k].key == k)
      && (k in modified <==> k in n && n[k].Modified?) && (k in modified ==> n[k].record == modified[k] && modified[k].key == k)
      && (k in removed <==> k in n && n[k].Removed?)
  }

  method ComposeOne(added: Set, modified: Set, removed: set<Key>, d: Delta, ghost n: Net)
    returns (added': Set, modified': Set, removed': set<Key>)
    requires Reads(added, modified, removed, n)
    ensures Reads(added', modified', removed', Accumulated(n, d))
  {
    added', modified', removed' := added, modified, removed;
    ghost var m := n;
    for i := 0 to |d.removed|
      invariant Reads(added', modified', removed', m) && NetRemoveAll(m, d.removed[i..]) == NetRemoveAll(n, d.removed)
    {
      var k := d.removed[i];
      added', modified', removed' := added' - {k}, modified' - {k}, removed' + {k};
      m := NetRemove(m, k);
    }
    ghost var n1 := m;
    for i := 0 to |d.modified|
      invariant Reads(added', modified', removed', m) && NetModifyAll(m, d.modified[i..]) == NetModifyAll(n1, d.modified)
    {
      var r := d.modified[i];
      if r.key in removed' {
        removed' := removed' - {r.key};
        added' := added'[r.key := r];
      } else if r.key in added' {
        added' := added'[r.key := r];
      } else {
        modified' := modified'[r.key := r];
      }
      m := NetModify(m, r);
    }
    ghost var n2 := m;
    for i := 0 to |d.added|
      invariant Reads(added', modified', removed', m) && NetAddAll(m, d.added[i..]) == NetAddAll(n2, d.added)
    {
      var r := d.added[i];
      removed' := removed' - {r.key};
      modified' := modified' - {r.key};
      added' := added'[r.key := r];
      m := NetAdd(m, r);
    }
  }

  method Values(s: Set) returns (rs: seq<Record>)
    requires forall k | k in s :: s[k].key == k
    ensures |rs| == |s| && forall r :: r in rs <==> r.key in s && s[r.key] == r
  {
    rs := [];
    var rest := s.Keys;
    while rest != {}
      invariant rest <= s.Keys && |rs| + |rest| == |s.Keys|
      invariant forall r :: r in rs <==> r.key in s && r.key !in rest && s[r.key] == r
      decreases |rest|
    {
      var k :| k in rest;
      rest := rest - {k};
      rs := rs + [s[k]];
    }
  }

  method Listed(s: set<Key>) returns (ks: seq<Key>)
    ensures |ks| == |s| && forall k :: k in ks <==> k in s
  {
    ks := [];
    var rest := s;
    while rest != {}
      invariant rest <= s && |ks| + |rest| == |s|
      invariant forall k :: k in ks <==> k in s && k !in rest
      decreases |rest|
    {
      var k :| k in rest;
      ks, rest := ks + [k], rest - {k};
    }
  }

  method ComposeDeltas(ds: seq<Delta>) returns (d: Delta)
    ensures Lists(d, NetOf(map[], ds))
    ensures (forall x | x in ds :: x.version <= d.version) && (ds == [] ==> d.version == 0)
    ensures ds != [] ==> exists x | x in ds :: x.version == d.version
  {
    var added: Set, modified: Set, removed: set<Key> := map[], map[], {};
    var version := 0;
    ghost var n: Net := map[];
    for i := 0 to |ds|
      invariant Reads(added, modified, removed, n) && NetOf(n, ds[i..]) == NetOf(map[], ds)
      invariant (forall x | x in ds[..i] :: x.version <= version) && (i == 0 ==> version == 0)
      invariant i > 0 ==> exists x | x in ds[..i] :: x.version == version
    {
      assert ds[..i + 1] == ds[..i] + [ds[i]];
      added, modified, removed := ComposeOne(added, modified, removed, ds[i], n);
      n := Accumulated(n, ds[i]);
      version := if ds[i].version > version then ds[i].version else version;
    }
    assert ds[..|ds|] == ds;
    var addedList := Values(added);
    var modifiedList := Values(modified);
    var removedList := Listed(removed);
    d := Delta(addedList, modifiedList, removedList, version);
  }

  // ---- computing deltas ----

  /** The records of a list by key, the last one winning; rows without a key are skipped. */
  function Index(rows: seq<Row>): (s: Set)
    ensures WellKeyed(s)
  {
    if rows == [] then map[]
    else
      var s, r := Index(rows[..|rows| - 1]), rows[|rows| - 1];
      if r.key.Some? then s[r.key.value := Record(r.key.value, r.body)] else s
  }

  ghost predicate WellKeyed(s: Set) {
    forall k | k in s :: s[k].key == k
  }

  /** Row `i` is the last one with key `k`. */
  ghost predicate LastRow(rows: seq<Row>, k: Key, i: int) {
    0 <= i < |rows| && rows[i].key == Some(k) && forall j | i < j < |rows| :: rows[j].key != Some(k)
  }

  ghost predicate HasKey(rows: seq<Row>, k: Key) {
    exists i :: 0 <= i < |rows| && rows[i].key == Some(k)
  }

  /** `s` holds what the rows say: the last row of every key, and nothing else. */
  ghost predicate Holds(s: Set, rows: seq<Row>) {
    forall k :: HoldsAt(s, rows, k)
  }

  ghost predicate HoldsAt(s: Set, rows: seq<Row>, k: Key) {
    && (k in s <==> HasKey(rows, k))
    && (forall i | LastRow(rows, k, i) :: k in s && s[k] == Record(k, rows[i].body))
  }

  lemma {:induction false} IndexHolds(rows: seq<Row>, k: Key)
    ensures HoldsAt(Index(rows), rows, k)
    decreases |rows|
  {
    if rows != [] {
      var n := |rows| - 1;
      IndexHolds(rows[..n], k);
      if rows[n].key == Some(k) {
        assert forall i | LastRow(rows, k, i) :: i == n;
      } else {
        assert HasKey(rows, k) <==> HasKey(rows[..n], k) by {
          if HasKey(rows, k) {
            var i :| 0 <= i < |rows| && rows[i].key == Some(k);
            assert rows[..n][i].key == Some(k);
          }
        }
        assert forall i | LastRow(rows, k, i) :: LastRow(rows[..n], k, i);
      }
    }
  }

  lemma IndexHoldsAll(rows: seq<Row>)
    ensures Holds(Index(rows), rows)
  {
    forall k {
      IndexHolds(rows, k);
    }
  }

  lemma {:induction false} HasLast(rows: seq<Row>, k: Key) returns (i: int)
    requires HasKey(rows, k)
    ensures LastRow(rows, k, i)
    decreases |rows|
  {
    var n := |rows| - 1;
    if rows[n].key == Some(k) {
      i := n;
    } else {
      var j :| 0 <= j < |rows| && rows[j].key == Some(k);
      assert rows[..n][j].key == Some(k);
      i := HasLast(rows[..n], k);
    }
  }

  /** What a delta from one record set to another lists. */
  ghost predicate DeltaOfSets(from: Set, to: Set, hash: Hash, d: Delta) {
    && (forall r: Record :: r in d.added <==> r.key in to && to[r.key] == r && r.key !in from)
    && (forall r: Record :: r in d.modified <==> r.key in to && to[r.key] == r && r.key in from && hash(from[r.key]) != hash(r))
    && (forall k :: k in d.removed <==> k in from && k !in to)
  }

  /** Both lists have the key, `r` is the record of its last row in `to`, and its hash is a new one. */
  ghost predicate Rewritten(from: seq<Row>, to: seq<Row>, hash: Hash, r: Record) {
    exists i, j :: Rewrites(from, i, to, j, hash, r)
  }

  ghost predicate Rewrites(from: seq<Row>, i: int, to: seq<Row>, j: int, hash: Hash, r: Record) {
    && LastRow(from, r.key, i) && LastRow(to, r.key, j)
    && r.body == to[j].body && hash(Record(r.key, from[i].body)) != hash(r)
  }

  /** The same, read off the rows: last rows of new keys, last rows whose hash changed, and keys that are gone. */
  ghost predicate DeltaOfRows(from: seq<Row>, to: seq<Row>, hash: Hash, d: Delta) {
    && (forall r :: r in d.added <==> !HasKey(from, r.key) && exists j :: LastRow(to, r.key, j) && r.body == to[j].body)
    && (forall r :: r in d.modified <==> Rewritten(from, to, hash, r))
    && (forall k :: k in d.removed <==> HasKey(from, k) && !HasKey(to, k))
  }

  lemma SetsList(from: Set, to: Set, hash: Hash, d: Delta)
    requires WellKeyed(to) && DeltaOfSets(from, to, hash, d)
    ensures Lists(d, Difference(from, to, hash))
  {
  }

  lemma HeldRecord(s: Set, rows: seq<Row>, r: Record)
    requires Holds(s, rows)
    ensures r.key in s && s[r.key] == r <==> exists j :: LastRow(rows, r.key, j) && r.body == rows[j].body
  {
    assert HoldsAt(s, rows, r.key);
    if r.key in s {
      var j := HasLast(rows, r.key);
    }
  }

  lemma SetsRows(from: seq<Row>, to: seq<Row>, x: Set, y: Set, hash: Hash, d: Delta)
    requires Holds(x, from) && Holds(y, to) && DeltaOfSets(x, y, hash, d)
    ensures DeltaOfRows(from, to, hash, d)
  {
    forall r ensures r in d.added <==> !HasKey(from, r.key) && exists j :: LastRow(to, r.key, j) && r.body == to[j].body {
      HeldRecord(y, to, r);
      assert HoldsAt(x, from, r.key);
    }
    forall r ensures r in d.modified <==> Rewritten(from, to, hash, r) {
      ModifiedRow(from, to, x, y, hash, d, r);
    }
    forall k ensures k in d.removed <==> HasKey(from, k) && !HasKey(to, k) {
      assert HoldsAt(x, from, k) && HoldsAt(y, to, k);
    }
  }

  lemma ModifiedRow(from: seq<Row>, to: seq<Row>, x: Set, y: Set, hash: Hash, d: Delta, r: Record)
    requires Holds(x, from) && Holds(y, to) && DeltaOfSets(x, y, hash, d)
    ensures r in d.modified <==> Rewritten(from, to, hash, r)
  {
    HeldRecord(y, to, r);
    assert HoldsAt(x, from, r.key);
    if r in d.modified {
      var i := HasLast(from, r.key);
      var j :| LastRow(to, r.key, j) && r.body == to[j].body;
      assert Rewrites(from, i, to, j, hash, r);
    }
    if Rewritten(from, to, hash, r) {
      var i, j :| Rewrites(from, i, to, j, hash, r);
      assert x[r.key] == Record(r.key, from[i].body);
    }
  }

  /** What distinguishes `to` from `from` as far as content hashes show. */
  function Difference(from: Set, to: Set, hash: Hash): Net {
    map k | k in from.Keys + to.Keys && (k in from && k in to ==> hash(from[k]) != hash(to[k])) ::
      if k !in to then Removed else if k !in from then Added(to[k]) else Modified(to[k])
  }

  /** A changed record whose content hash stayed the same. */
  ghost predicate Hidden(from: Set, to: Set, hash: Hash, k: Key) {
    k in from && k in to && hash(from[k]) == hash(to[k]) && from[k] != to[k]
  }

  ghost predicate NothingHidden(from: Set, to: Set, hash: Hash) {
    forall k :: !Hidden(from, to, hash, k)
  }

  /** Applying the computed delta gives the new set exactly when no change hides behind equal hashes. */
  lemma DifferenceReaches(from: Set, to: Set, hash: Hash, d: Delta)
    requires Lists(d, Difference(from, to, hash))
    ensures Applied(from, d) == to <==> NothingHidden(from, to, hash)
  {
    var n := Difference(from, to, hash);
    ListingAccumulates(d, n);
    ActNothing(from);
    ActAccumulated(from, map[], d);
    forall k ensures SameAt(Act(from, n), to, k) <==> !Hidden(from, to, hash, k) {
      ActLookup(from, n, k);
    }
    if NothingHidden(from, to, hash) {
      forall k ensures SameAt(Act(from, n), to, k) {
        assert !Hidden(from, to, hash, k);
      }
      SameEverywhere(Act(from, n), to);
    } else {
      var k :| Hidden(from, to, hash, k);
      assert !SameAt(Act(from, n), to, k);
    }
  }

  method IndexRows(rows: seq<Row>) returns (s: Set)
    ensures s == Index(rows) && Holds(s, rows)
  {
    IndexHoldsAll(rows);
    s := map[];
    for i := 0 to |rows|
      invariant s == Index(rows[..i])
    {
      assert rows[..i + 1][..i] == rows[..i];
      if rows[i].key.Some? {
        s := s[rows[i].key.value := Record(rows[i].key.value, rows[i].body)];
      }
    }
    assert rows[..|rows|] == rows;
  }

  method ChangedRecords(from: Set, to: Set, hash: Hash) returns (added: Set, modified: Set)
    ensures forall k :: k in added <==> k in to && k !in from
    ensures forall k :: k in modified <==> k in to && k in from && hash(to[k]) != hash(from[k])
    ensures forall k | k in added :: added[k] == to[k]
    ensures forall k | k in modified :: modified[k] == to[k]
  {
    added, modified := map[], map[];
    var rest := to.Keys;
    while rest != {}
      invariant rest <= to.Keys
      invariant forall k :: k in added <==> k in to && k !in rest && k !in from
      invariant forall k :: k in modified <==> k in to && k !in rest && k in from && hash(to[k]) != hash(from[k])
      invariant forall k | k in added :: added[k] == to[k]
      invariant forall k | k in modified :: modified[k] == to[k]
      decreases |rest|
    {
      var k :| k in rest;
      rest := rest - {k};
      if k !in from {
        added := added[k := to[k]];
      } else if hash(to[k]) != hash(from[k]) {
        modified := modified[k := to[k]];
      }
    }
  }

  method RemovedKeys(from: Set, to: Set) returns (removed: set<Key>)
    ensures removed == from.Keys - to.Keys
  {
    removed := {};
    var rest := from.Keys;
    while rest != {}
      invariant rest <= from.Keys
      invariant forall k :: k in removed <==> k in from && k !in rest && k !in to
      decreases |rest|
    {
      var k :| k in rest;
      rest := rest - {k};
      if k !in to {
        removed := removed + {k};
      }
    }
  }

  method CompareIndexes(from: Set, to: Set, hash: Hash, version: nat) returns (d: Delta)
    requires WellKeyed(from) && WellKeyed(to)
    ensures Lists(d, Difference(from, to, hash)) && DeltaOfSets(from, to, hash, d) && d.version == version
  {
    var added, modified := ChangedRecords(from, to, hash);
    var removed := RemovedKeys(from, to);
    var addedList := Values(added);
    var modifiedList := Values(modified);
    var removedList := Listed(removed);
    d := Delta(addedList, modifiedList, removedList, version);
    SetsList(from, to, hash, d);
  }

  method ComputeDelta(from: seq<Row>, to: seq<Row>, hash: Hash, version: nat) returns (d: Delta)
    ensures DeltaOfRows(from, to, hash, d) && d.version == version
    ensures Lists(d, Difference(Index(from), Index(to), hash))
    ensures Applied(Index(from), d) == Index(to) <==> NothingHidden(Index(from), Index(to), hash)
  {
    var before := IndexRows(from);
    var after := IndexRows(to);
    d := CompareIndexes(before, after, hash, version);
    DifferenceReaches(before, after, hash, d);
    SetsRows(from, to, before, after, hash, d);
  }

  // ---- the store ----

  class DeltaStore {
    const hash: Hash
    var current: Set
    var version: nat

    constructor (hash: Hash)
      ensures this.hash == hash && current == map[] && version == 0
    {
      this.hash, current, version := hash, map[], 0;
    }

    /** Takes a new snapshot; there is no delta when nothing was held before. */
    method Ingest(rows: seq<Row>) returns (d: Option<Delta>)
      requires WellKeyed(current)
      modifies this`current, this`version
      ensures WellKeyed(current) && current == Index(rows) && Holds(current, rows)
      ensures d.None? <==> old(current) == map[]
      ensures version == old(version) + if d.Some? then 1 else 0
      ensures d.Some? ==> DeltaOfSets(old(current), current, hash, d.value) && d.value.version == version
      ensures d.Some? ==> Lists(d.value, Difference(old(current), current, hash))
    {
      var index := IndexRows(rows);
      if current == map[] {
        current := index;
        return None;
      }
      version := version + 1;
      var delta := CompareIndexes(current, index, hash, version);
      current := index;
      d := Some(delta);
    }
  }

  // ---- replicas fed by a store ----

  /** The snapshots a store goes through that holds `held` and ingests `feeds`. */
  function Snapshots(held: Set, feeds: seq<seq<Row>>): (ss: seq<Set>)
    ensures |ss| == |feeds| + 1 && ss[0] == held && forall i | 0 <= i < |feeds| :: ss[i + 1] == Index(feeds[i])
  {
    [held] + seq(|feeds|, i requires 0 <= i < |feeds| => Index(feeds[i]))
  }

  /** `d` is what ingesting the snapshot `to` returns to a store that holds `from`. */
  ghost predicate EmitsStep(from: Set, to: Set, d: Option<Delta>, hash: Hash) {
    if from == map[] then d.None? else d.Some? && Lists(d.value, Difference(from, to, hash))
  }

  ghost predicate Emits(snapshots: seq<Set>, out: seq<Option<Delta>>, hash: Hash) {
    && |snapshots| == |out| + 1
    && forall i | 0 <= i < |out| :: EmitsStep(snapshots[i], snapshots[i + 1], out[i], hash)
  }

  function Fed(s: Set, d: Option<Delta>): Set {
    if d.Some? then Applied(s, d.value) else s
  }

  /** A replica that starts from `s` and is fed what the store emits. */
  function FedAll(s: Set, out: seq<Option<Delta>>): Set
    decreases |out|
  {
    if out == [] then s else Fed(FedAll(s, out[..|out| - 1]), out[|out| - 1])
  }

  function Emitted(out: seq<Option<Delta>>): seq<Delta>
    decreases |out|
  {
    if out == [] then []
    else Emitted(out[..|out| - 1]) + if out[|out| - 1].Some? then [out[|out| - 1].value] else []
  }

  /** After every ingest the replica holds the store's snapshot. */
  ghost predicate Follows(snapshots: seq<Set>, out: seq<Option<Delta>>)
    requires |snapshots| == |out| + 1
  {
    forall i | 0 <= i <= |out| :: FedAll(snapshots[0], out[..i]) == snapshots[i]
  }

  /** No change hides behind equal hashes, and the snapshot does not fill up after having been empty. */
  ghost predicate Kept(from: Set, to: Set, hash: Hash) {
    NothingHidden(from, to, hash) && (from == map[] ==> to == map[])
  }

  ghost predicate AllKept(snapshots: seq<Set>, hash: Hash) {
    forall i | 0 <= i < |snapshots| - 1 :: Kept(snapshots[i], snapshots[i + 1], hash)
  }

  lemma FedIffKept(from: Set, to: Set, d: Option<Delta>, hash: Hash)
    requires EmitsStep(from, to, d, hash)
    ensures Fed(from, d) == to <==> Kept(from, to, hash)
  {
    if from != map[] {
      DifferenceReaches(from, to, hash, d.value);
    }
  }

  lemma {:induction false} FollowsTo(snapshots: seq<Set>, out: seq<Option<Delta>>, hash: Hash, i: nat)
    requires Emits(snapshots, out, hash) && AllKept(snapshots, hash) && i <= |out|
    ensures FedAll(snapshots[0], out[..i]) == snapshots[i]
  {
    if i > 0 {
      FollowsTo(snapshots, out, hash, i - 1);
      assert out[..i][..i - 1] == out[..i - 1];
      FedIffKept(snapshots[i - 1], snapshots[i], out[i - 1], hash);
    }
  }

  /** A replica fed by a store holds every snapshot exactly when each step is kept. */
  lemma FollowsIffKept(snapshots: seq<Set>, out: seq<Option<Delta>>, hash: Hash)
    requires Emits(snapshots, out, hash)
    ensures Follows(snapshots, out) <==> AllKept(snapshots, hash)
  {
    if AllKept(snapshots, hash) {
      forall i | 0 <= i <= |out| ensures FedAll(snapshots[0], out[..i]) == snapshots[i] {
        FollowsTo(snapshots, out, hash, i);
      }
    }
    if Follows(snapshots, out) {
      forall i | 0 <= i < |out| ensures Kept(snapshots[i], snapshots[i + 1], hash) {
        assert out[..i + 1][..i] == out[..i];
        assert FedAll(snapshots[0], out[..i + 1]) == snapshots[i + 1];
        FedIffKept(snapshots[i], snapshots[i + 1], out[i], hash);
      }
    }
  }

  /** Runs a store over snapshots, from any state it may be in. */
  method IngestAll(store: DeltaStore, feeds: seq<seq<Row>>) returns (out: seq<Option<Delta>>)
    requires WellKeyed(store.current)
    modifies store
    ensures WellKeyed(store.current) && store.current == Snapshots(old(store.current), feeds)[|feeds|]
    ensures Emits(Snapshots(old(store.current), feeds), out, store.hash)
    ensures store.version == old(store.version) + |Emitted(out)|
    ensures Follows(Snapshots(old(store.current), feeds), out)
            <==> AllKept(Snapshots(old(store.current), feeds), store.hash)
  {
    out := [];
    ghost var ss := Snapshots(store.current, feeds);
    for i := 0 to |feeds|
      invariant WellKeyed(store.current) && store.current == ss[i] && |out| == i
      invariant forall j | 0 <= j < i :: EmitsStep(ss[j], ss[j + 1], out[j], store.hash)
      invariant store.version == old(store.version) + |Emitted(out)|
    {
      var d := store.Ingest(feeds[i]);
      assert (out + [d])[..i] == out;
      out := out + [d];
    }
    FollowsIffKept(ss, out, store.hash);
  }

  lemma {:induction false} AppliedAllAppends(s: Set, ds: seq<Delta>, d: Delta)
    ensures AppliedAll(s, ds + [d]) == Applied(AppliedAll(s, ds), d)
    decreases |ds|
  {
    if ds != [] {
      assert (ds + [d])[1..] == ds[1..] + [d];
      AppliedAllAppends(Applied(s, ds[0]), ds[1..], d);
    }
  }

  lemma {:induction false} FedIsApplied(s: Set, out: seq<Option<Delta>>)
    ensures FedAll(s, out) == AppliedAll(s, Emitted(out))
    decreases |out|
  {
    if out != [] {
      var front, last := out[..|out| - 1], out[|out| - 1];
      FedIsApplied(s, front);
      if last.Some? {
        AppliedAllAppends(s, Emitted(front), last.value);
      } else {
        assert Emitted(out) == Emitted(front);
      }
    }
  }

  /** Composing what a store emits, in any grouping, changes nothing for a replica. */
  lemma AnyGroupingFeedsAlike(s: Set, out: seq<Option<Delta>>, groups: seq<seq<Delta>>, gs: seq<Delta>)
    requires Flatten(groups) == Emitted(out) && Composes(gs, groups)
    ensures AppliedAll(s, gs) == FedAll(s, out)
  {
    FedIsApplied(s, out);
    ActNothing(s);
    ActNetOf(s, map[], gs);
    ActNetOf(s, map[], Flatten(groups));
    GroupingIrrelevant(map[], gs, groups);
  }

  /** So a replica that starts with the store and loses nothing on the way ends with the latest snapshot. */
  lemma AnyGroupingReachesLatest(snapshots: seq<Set>, out: seq<Option<Delta>>, hash: Hash,
                                 groups: seq<seq<Delta>>, gs: seq<Delta>)
    requires Emits(snapshots, out, hash) && AllKept(snapshots, hash)
    requires Flatten(groups) == Emitted(out) && Composes(gs, groups)
    ensures AppliedAll(snapshots[0], gs) == snapshots[|out|]
  {
    AnyGroupingFeedsAlike(snapshots[0], out, groups, gs);
    FollowsTo(snapshots, out, hash, |out|);
    assert out[..|out|] == out;
  }
}
