/**
 The last-writer-wins map: one timestamped register per key and one deletion time per key.

 A newer `set` discards the key's tombstone, so the state forgets deletes; the theorems below say
 what a map shows in terms of all the writes and deletes its history has observed.
*/
module LWWMap {
  import opened Histories
  import opened Options
  import Lex

  type Key = string

  datatype Value = Nothing | Payload(text: string)

  datatype Register = Register(value: Value, timestamp: real, node: string)

  datatype State = State(registers: map<Key, Register>, tombstones: map<Key, real>)

  const EMPTY := State(map[], map[])

  /** Order of writes: by timestamp, then by node id compared as a string. */
  predicate StampLeq(a: Register, b: Register) {
    a.timestamp < b.timestamp || (a.timestamp == b.timestamp && Lex.Leq(a.node, b.node))
  }

  function MergeRegisters(a: Register, b: Register): Register {
    if b.timestamp > a.timestamp then b
    else if b.timestamp == a.timestamp && Lex.Less(a.node, b.node) then b
    else a
  }

  lemma MergeRegistersIsMax(a: Register, b: Register)
    ensures var m := MergeRegisters(a, b);
            (m == a || m == b) && StampLeq(a, m) && StampLeq(b, m)
  {
    Lex.Total(a.node, b.node);
    Lex.Reflexive(a.node);
    Lex.Reflexive(b.node);
  }

  lemma StampLeqTransitive(a: Register, b: Register, c: Register)
    requires StampLeq(a, b) && StampLeq(b, c)
    ensures StampLeq(a, c)
  {
    if a.timestamp == b.timestamp == c.timestamp {
      Lex.Transitive(a.node, b.node, c.node);
    }
  }

  lemma StampLeqAntisymmetric(a: Register, b: Register)
    requires StampLeq(a, b) && StampLeq(b, a)
    ensures a.timestamp == b.timestamp && a.node == b.node
  {
    Lex.Antisymmetric(a.node, b.node);
  }

  function AfterSet(s: State, k: Key, r: Register): State {
    State(s.registers[k := r],
          if k in s.tombstones && r.timestamp > s.tombstones[k] then s.tombstones - {k} else s.tombstones)
  }

  function AfterDelete(s: State, k: Key, ts: real): State {
    s.(tombstones := s.tombstones[k := ts])
  }

  predicate IsLive(s: State, k: Key)
    requires k in s.registers
  {
    k in s.tombstones ==> s.registers[k].timestamp > s.tombstones[k]
  }

  function Lookup(s: State, k: Key): Option<Value> {
    if k in s.registers && IsLive(s, k) then Some(s.registers[k].value) else None
  }

  function RMax(x: real, y: real): real {
    if x >= y then x else y
  }

  function MergedRegister(a: State, b: State, k: Key): Register
    requires k in a.registers || k in b.registers
  {
    if k !in b.registers then a.registers[k]
    else if k !in a.registers then b.registers[k]
    else MergeRegisters(a.registers[k], b.registers[k])
  }

  function MergedTombstone(a: State, b: State, k: Key): real
    requires k in a.tombstones || k in b.tombstones
  {
    if k !in b.tombstones then a.tombstones[k]
    else if k !in a.tombstones then b.tombstones[k]
    else RMax(a.tombstones[k], b.tombstones[k])
  }

  function Merged(a: State, b: State): State {
    State(map k | k in a.registers.Keys + b.registers.Keys :: MergedRegister(a, b, k),
          map k | k in a.tombstones.Keys + b.tombstones.Keys :: MergedTombstone(a, b, k))
  }

  // ---- histories ----

  datatype Act =
    | Set(key: Key, register: Register)
    | Delete(key: Key, time: real)

  type History = Histories.History<Act>

  function StateAt(h: History, i: nat): State
    requires i < |h|
  {
    match h[i]
    case New => EMPTY
    case Local(f, Set(k, r)) => AfterSet(StateAt(h, f), k, r)
    case Local(f, Delete(k, ts)) => AfterDelete(StateAt(h, f), k, ts)
    case Merge(l, r) => Merged(StateAt(h, l), StateAt(h, r))
  }

  predicate IsSet(h: History, s: nat, k: Key) {
    s < |h| && h[s].Local? && h[s].act.Set? && h[s].act.key == k
  }

  predicate IsDelete(h: History, d: nat, k: Key) {
    d < |h| && h[d].Local? && h[d].act.Delete? && h[d].act.key == k
  }

  /** One stamp on one key never carries two values. */
  ghost predicate StampsIdentify(h: History) {
    forall s: nat, t: nat, k | IsSet(h, s, k) && IsSet(h, t, k)
                     && h[s].act.register.timestamp == h[t].act.register.timestamp && h[s].act.register.node == h[t].act.register.node
      :: h[s].act.register == h[t].act.register
  }

  /** The tombstone held for a key says nothing that the register held for it does not outdate. */
  predicate TombstoneOutdated(s: State, k: Key)
    requires k in s.tombstones
  {
    k in s.registers && s.tombstones[k] < s.registers[k].timestamp
  }

  /** A local write or delete replaces nothing newer that still counts: no newer register, and no newer tombstone
      unless the register outdates it. */
  ghost predicate InOrder(h: History, i: nat)
    requires i < |h|
  {
    match h[i]
    case Local(f, Set(k, r)) => k in StateAt(h, f).registers ==> StampLeq(StateAt(h, f).registers[k], r)
    case Local(f, Delete(k, ts)) =>
      var s := StateAt(h, f);
      k in s.tombstones ==> s.tombstones[k] <= ts || TombstoneOutdated(s, k)
    case _ => true
  }

  ghost predicate NeverBackdates(h: History) {
    forall i | 0 <= i < |h| :: InOrder(h, i)
  }

  /** The write at step `s` is matched at version `i` by a register at least as new. */
  ghost predicate SetReflected(h: History, i: nat, k: Key, s: nat)
    requires i < |h| && IsSet(h, s, k)
  {
    k in StateAt(h, i).registers && StampLeq(h[s].act.register, StateAt(h, i).registers[k])
  }

  /** The delete at step `d` is still recorded at version `i`, or a strictly newer write is held. */
  ghost predicate DeleteReflected(h: History, i: nat, k: Key, d: nat)
    requires i < |h| && IsDelete(h, d, k)
  {
    var st := StateAt(h, i);
    || (k in st.tombstones && h[d].act.time <= st.tombstones[k])
    || (k in st.registers && h[d].act.time < st.registers[k].timestamp)
  }

  /** Every version reflects every write and delete it has observed. */
  ghost predicate AllReflected(h: History) {
    && (forall i: nat, k, s | i < |h| && s in Past(h, i) && IsSet(h, s, k) :: SetReflected(h, i, k, s))
    && (forall i: nat, k, d | i < |h| && d in Past(h, i) && IsDelete(h, d, k) :: DeleteReflected(h, i, k, d))
  }

  /** Every observed write is reflected by a register at least as new. */
  lemma {:induction false} SetsReflected(h: History, i: nat, k: Key, s: nat)
    requires i < |h| && NeverBackdates(h) && s in Past(h, i) && IsSet(h, s, k)
    ensures SetReflected(h, i, k, s)
    decreases i
  {
    assert InOrder(h, i);
    match h[i]
    case New =>
    case Merge(l, r) =>
      var m := if s in Past(h, l) then l else r;
      SetsReflected(h, m, k, s);
      var a, b := StateAt(h, l), StateAt(h, r);
      if k in a.registers && k in b.registers {
        MergeRegistersIsMax(a.registers[k], b.registers[k]);
        StampLeqTransitive(h[s].act.register, StateAt(h, m).registers[k], StateAt(h, i).registers[k]);
      }
    case Local(f, Set(x, r)) =>
      if s == i {
        Lex.Reflexive(r.node);
      } else {
        SetsReflected(h, f, k, s);
        if x == k {
          StampLeqTransitive(h[s].act.register, StateAt(h, f).registers[k], r);
        }
      }
    case Local(f, Delete(_, _)) => SetsReflected(h, f, k, s);
  }

  /** Every register is an observed write. */
  lemma {:induction false} RegistersObserved(h: History, i: nat, k: Key) returns (s: nat)
    requires i < |h| && k in StateAt(h, i).registers
    ensures s in Past(h, i) && IsSet(h, s, k) && StateAt(h, i).registers[k] == h[s].act.register
    decreases i
  {
    match h[i]
    case Merge(l, r) =>
      var a, b := StateAt(h, l), StateAt(h, r);
      if k in a.registers && (k !in b.registers || MergeRegisters(a.registers[k], b.registers[k]) == a.registers[k]) {
        s := RegistersObserved(h, l, k);
      } else {
        s := RegistersObserved(h, r, k);
      }
    case Local(f, Set(x, r)) =>
      if x == k { s := i; } else { s := RegistersObserved(h, f, k); }
    case Local(f, Delete(_, _)) => s := RegistersObserved(h, f, k);
  }

  /** Every observed delete is still recorded, or was discarded because a strictly newer write is held. */
  lemma {:induction false} DeletesReflected(h: History, i: nat, k: Key, d: nat)
    requires i < |h| && NeverBackdates(h) && d in Past(h, i) && IsDelete(h, d, k)
    ensures DeleteReflected(h, i, k, d)
    decreases i
  {
    assert InOrder(h, i);
    match h[i]
    case New =>
    case Merge(l, r) =>
      var m := if d in Past(h, l) then l else r;
      DeletesReflected(h, m, k, d);
      var a, b := StateAt(h, l), StateAt(h, r);
      if k in a.registers && k in b.registers {
        MergeRegistersIsMax(a.registers[k], b.registers[k]);
      }
    case Local(f, _) =>
      if d != i { DeletesReflected(h, f, k, d); }
  }

  lemma {:induction false} TombstonesObserved(h: History, i: nat, k: Key) returns (d: nat)
    requires i < |h| && k in StateAt(h, i).tombstones
    ensures d in Past(h, i) && IsDelete(h, d, k) && StateAt(h, i).tombstones[k] == h[d].act.time
    decreases i
  {
    match h[i]
    case Merge(l, r) =>
      var a, b := StateAt(h, l), StateAt(h, r);
      if k in a.tombstones && (k !in b.tombstones || a.tombstones[k] >= b.tombstones[k]) {
        d := TombstonesObserved(h, l, k);
      } else {
        d := TombstonesObserved(h, r, k);
      }
    case Local(f, Delete(x, ts)) =>
      if x == k { d := i; } else { d := TombstonesObserved(h, f, k); }
    case Local(f, Set(_, _)) => d := TombstonesObserved(h, f, k);
  }

  /** A step out of order leaves something observed unreflected. */
  lemma OutOfOrderLoses(h: History, i: nat)
    requires i < |h| && !InOrder(h, i)
    ensures !AllReflected(h)
  {
    match h[i]
    case Local(f, Set(k, r)) =>
      var s := RegistersObserved(h, f, k);
      assert s in Past(h, i) && IsSet(h, s, k) && !SetReflected(h, i, k, s);
    case Local(f, Delete(k, ts)) =>
      var d := TombstonesObserved(h, f, k);
      assert d in Past(h, i) && IsDelete(h, d, k) && !DeleteReflected(h, i, k, d);
  }

  /** All versions reflect all they have observed exactly in histories whose local steps are all in order. */
  lemma ReflectedIffInOrder(h: History)
    ensures AllReflected(h) <==> NeverBackdates(h)
  {
    if NeverBackdates(h) {
      forall i: nat, k, s | i < |h| && s in Past(h, i) && IsSet(h, s, k) ensures SetReflected(h, i, k, s) {
        SetsReflected(h, i, k, s);
      }
      forall i: nat, k, d | i < |h| && d in Past(h, i) && IsDelete(h, d, k) ensures DeleteReflected(h, i, k, d) {
        DeletesReflected(h, i, k, d);
      }
    } else {
      var i :| 0 <= i < |h| && !InOrder(h, i);
      OutOfOrderLoses(h, i);
    }
  }

  /** `s` is the newest write of `k` that version `i` has observed. */
  ghost predicate Latest(h: History, i: nat, k: Key, s: nat)
    requires i < |h|
  {
    && s in Past(h, i) && IsSet(h, s, k)
    && forall t | t in Past(h, i) && IsSet(h, t, k) :: StampLeq(h[t].act.register, h[s].act.register)
  }

  /** The newest observed write, unless some observed delete is at least as new. */
  ghost predicate Shows(h: History, i: nat, k: Key, v: Value)
    requires i < |h|
  {
    exists s: nat :: && Latest(h, i, k, s) && h[s].act.register.value == v
                && forall d | d in Past(h, i) && IsDelete(h, d, k) :: h[d].act.time < h[s].act.register.timestamp
  }

  /** In every history without backdated local writes, a map shows the newest write unless some delete is at least as new. */
  lemma LookupIsLatestUndeleted(h: History, i: nat, k: Key, v: Value)
    requires i < |h| && StampsIdentify(h) && NeverBackdates(h)
    ensures Lookup(StateAt(h, i), k) == Some(v) <==> Shows(h, i, k, v)
  {
    var st := StateAt(h, i);
    if k in st.registers {
      var s := RegistersObserved(h, i, k);
      forall t | t in Past(h, i) && IsSet(h, t, k) ensures StampLeq(h[t].act.register, h[s].act.register) {
        SetsReflected(h, i, k, t);
      }
      assert Latest(h, i, k, s);
      forall t: nat | Latest(h, i, k, t) ensures h[t].act.register == h[s].act.register {
        StampLeqAntisymmetric(h[t].act.register, h[s].act.register);
      }
      LiveIffOutdatesDeletes(h, i, k);
    } else {
      forall s | s in Past(h, i) ensures !IsSet(h, s, k) {
        if IsSet(h, s, k) { SetsReflected(h, i, k, s); }
      }
    }
  }

  lemma LiveIffOutdatesDeletes(h: History, i: nat, k: Key)
    requires i < |h| && NeverBackdates(h) && k in StateAt(h, i).registers
    ensures IsLive(StateAt(h, i), k) <==>
            forall d | d in Past(h, i) && IsDelete(h, d, k) :: h[d].act.time < StateAt(h, i).registers[k].timestamp
  {
    var st := StateAt(h, i);
    if IsLive(st, k) {
      forall d | d in Past(h, i) && IsDelete(h, d, k) ensures h[d].act.time < st.registers[k].timestamp {
        DeletesReflected(h, i, k, d);
      }
    } else {
      var d := TombstonesObserved(h, i, k);
    }
  }

  /** Without the condition the view is wrong: a backdated `set` hides a newer one ... */
  lemma BackdatedSetHidesNewer(k: Key, older: Register, newer: Register)
    requires older.timestamp < newer.timestamp && older.value != newer.value
    ensures var h: History := [New, Local(0, Set(k, newer)), Local(1, Set(k, older))];
            Lookup(StateAt(h, 2), k) == Some(older.value) && Latest(h, 2, k, 1) && !Shows(h, 2, k, older.value)
  {
    var h: History := [New, Local(0, Set(k, newer)), Local(1, Set(k, older))];
    assert Past(h, 0) == {0} && Past(h, 1) == {0, 1} && Past(h, 2) == {0, 1, 2};
    Lex.Reflexive(newer.node);
    assert StateAt(h, 1) == AfterSet(StateAt(h, 0), k, newer);
    assert StateAt(h, 2) == AfterSet(StateAt(h, 1), k, older);
    assert Latest(h, 2, k, 1);
    forall s: nat | Latest(h, 2, k, s) ensures s == 1 {
      assert StampLeq(h[1].act.register, h[s].act.register);
    }
  }

  /** ... and a backdated `delete` forgets a newer one, reviving a key that was deleted later than it was written. */
  lemma BackdatedDeleteRevives(k: Key, r: Register, early: real, late: real)
    requires early < r.timestamp < late
    ensures var h: History := [New, Local(0, Set(k, r)), Local(1, Delete(k, late)), Local(2, Delete(k, early))];
            Lookup(StateAt(h, 3), k) == Some(r.value) && !Shows(h, 3, k, r.value)
  {
    var h: History := [New, Local(0, Set(k, r)), Local(1, Delete(k, late)), Local(2, Delete(k, early))];
    assert Past(h, 0) == {0} && Past(h, 1) == {0, 1} && Past(h, 2) == {0, 1, 2} && Past(h, 3) == {0, 1, 2, 3};
    assert StateAt(h, 1) == AfterSet(EMPTY, k, r);
    assert StateAt(h, 3) == AfterDelete(AfterDelete(StateAt(h, 1), k, late), k, early);
    assert IsDelete(h, 2, k);
  }

  // ---- the map itself ----

  class LastWriterWinsMap {
    var registers: map<Key, Register>
    var tombstones: map<Key, real>

    constructor ()
      ensures Model() == EMPTY
    {
      registers, tombstones := map[], map[];
    }

    function Model(): State
      reads this
    {
      State(registers, tombstones)
    }

    method Set(k: Key, v: Value, ts: real, node: string)
      modifies this
      ensures Model() == AfterSet(old(Model()), k, Register(v, ts, node))
      ensures registers == old(registers)[k := Register(v, ts, node)]
      ensures tombstones == if k in old(tombstones) && old(tombstones)[k] < ts then old(tombstones) - {k} else old(tombstones)
    {
      registers := registers[k := Register(v, ts, node)];
      if k in tombstones && ts > tombstones[k] {
        tombstones := tombstones - {k};
      }
    }

    method Delete(k: Key, ts: real)
      modifies this
      ensures Model() == AfterDelete(old(Model()), k, ts)
    {
      tombstones := tombstones[k := ts];
    }

    /** The snapshot of all live pairs agrees with `Lookup` on every key. */
    method Snapshot() returns (view: map<Key, Value>)
      ensures forall k :: Lookup(Model(), k) == if k in view then Some(view[k]) else None
    {
      view := map[];
      var rest := registers.Keys;
      while rest != {}
        invariant rest <= registers.Keys
        invariant forall k :: k in view <==> k in registers && k !in rest && IsLive(Model(), k)
        invariant forall k | k in view :: view[k] == registers[k].value
        decreases |rest|
      {
        var k :| k in rest;
        rest := rest - {k};
        if IsLive(Model(), k) {
          view := view[k := registers[k].value];
        }
      }
    }

    method MergeWith(other: LastWriterWinsMap) returns (r: LastWriterWinsMap)
      ensures fresh(r) && r.Model() == Merged(Model(), other.Model())
    {
      r := new LastWriterWinsMap();
      r.registers := UnionRegisters(Model(), other.Model());
      r.tombstones := UnionTombstones(Model(), other.Model());
    }

    static method UnionRegisters(a: State, b: State) returns (r: map<Key, Register>)
      ensures r == Merged(a, b).registers
    {
      r := map[];
      var rest := a.registers.Keys + b.registers.Keys;
      while rest != {}
        invariant rest <= a.registers.Keys + b.registers.Keys
        invariant forall k :: k in r <==> k in a.registers.Keys + b.registers.Keys && k !in rest
        invariant forall k | k in r :: r[k] == MergedRegister(a, b, k)
        decreases |rest|
      {
        var k :| k in rest;
        rest := rest - {k};
        r := r[k := MergedRegister(a, b, k)];
      }
      AllRegisters(a, b, r);
    }

    static method UnionTombstones(a: State, b: State) returns (r: map<Key, real>)
      ensures r == Merged(a, b).tombstones
    {
      r := map[];
      var rest := a.tombstones.Keys + b.tombstones.Keys;
      while rest != {}
        invariant rest <= a.tombstones.Keys + b.tombstones.Keys
        invariant forall k :: k in r <==> k in a.tombstones.Keys + b.tombstones.Keys && k !in rest
        invariant forall k | k in r :: r[k] == MergedTombstone(a, b, k)
        decreases |rest|
      {
        var k :| k in rest;
        rest := rest - {k};
        r := r[k := MergedTombstone(a, b, k)];
      }
      AllTombstones(a, b, r);
    }
  }

  lemma AllRegisters(a: State, b: State, r: map<Key, Register>)
    requires forall k :: k in r <==> k in a.registers.Keys + b.registers.Keys
    requires forall k | k in r :: r[k] == MergedRegister(a, b, k)
    ensures r == Merged(a, b).registers
  {
    assert r.Keys == a.registers.Keys + b.registers.Keys;
  }

  lemma AllTombstones(a: State, b: State, r: map<Key, real>)
    requires forall k :: k in r <==> k in a.tombstones.Keys + b.tombstones.Keys
    requires forall k | k in r :: r[k] == MergedTombstone(a, b, k)
    ensures r == Merged(a, b).tombstones
  {
    assert r.Keys == a.tombstones.Keys + b.tombstones.Keys;
  }
}
