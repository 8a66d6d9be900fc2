/**
 The observed-remove set: live tags per element, and tombstones for observed-and-removed tags; and
 what a set shows in terms of the adds and removes its history has observed.
*/
module ORSet {
  import opened Histories

  type Element = string

  type Tag = nat

  datatype State = State(elements: map<Element, set<Tag>>, tombstones: set<Tag>)

  const EMPTY := State(map[], {})

  function Tags(s: State, e: Element): set<Tag> {
    if e in s.elements then s.elements[e] else {}
  }

  function Value(s: State): set<Element> {
    set e | e in s.elements && s.elements[e] != {}
  }

  function Added(s: State, e: Element, tag: Tag): State {
    s.(elements := s.elements[e := Tags(s, e) + {tag}])
  }

  function Removed(s: State, e: Element): State {
    if Tags(s, e) == {} then s else State(s.elements[e := {}], s.tombstones + Tags(s, e))
  }

  function TagRemoved(s: State, e: Element, tag: Tag): State
    requires e in s.elements
  {
    State(s.elements[e := s.elements[e] - {tag}], s.tombstones + {tag})
  }

  function Merged(a: State, b: State): State {
    var dead := a.tombstones + b.tombstones;
    State(map e | e in a.elements.Keys + b.elements.Keys :: Tags(a, e) + Tags(b, e) - dead, dead)
  }

  lemma AllMerged(a: State, b: State, live: map<Element, set<Tag>>)
    requires forall e :: e in live <==> e in a.elements.Keys + b.elements.Keys
    requires forall e | e in live :: live[e] == Tags(a, e) + Tags(b, e) - (a.tombstones + b.tombstones)
    ensures live == Merged(a, b).elements
  {
    assert live.Keys == a.elements.Keys + b.elements.Keys;
  }

  /** No tag is live and removed at once. */
  ghost predicate Disjoint(s: State) {
    forall e | e in s.elements :: s.elements[e] !! s.tombstones
  }

  /** Removing one tag keeps live and removed tags apart exactly when no other element holds that tag. */
  lemma RemoveTagKeepsDisjoint(s: State, e: Element, tag: Tag)
    requires Disjoint(s) && e in s.elements
    ensures Disjoint(TagRemoved(s, e, tag)) <==> forall o | o in s.elements && o != e :: tag !in s.elements[o]
  {
    var r := TagRemoved(s, e, tag);
    forall o | o in s.elements && o != e ensures r.elements[o] == s.elements[o] {}
  }

  // ---- histories ----

  datatype Act =
    | Add(element: Element)
    | Remove(element: Element)
    | RemoveTag(element: Element, tag: nat)

  /** The tag minted by an add is its own step number, so no other add mints it. */
  type History = Histories.History<Act>

  /** `a` is an add of element `e`. */
  predicate IsAdd(h: History, a: nat, e: Element) {
    a < |h| && h[a].Local? && h[a].act == Add(e)
  }

  /** Callers pass `remove_tag` a tag that its replica has seen added for that element. */
  ghost predicate TagsObserved(h: History) {
    forall i | 0 <= i < |h| && h[i].Local? && h[i].act.RemoveTag? ::
      IsAdd(h, h[i].act.tag, h[i].act.element) && h[i].act.tag in Past(h, h[i].from)
  }

  /** Remove step `r` had observed the add at step `a` and removes its tag. */
  predicate Removes(h: History, r: nat, a: nat)
    requires r < |h|
  {
    match h[r]
    case Local(f, Remove(e)) => IsAdd(h, a, e) && a in Past(h, f)
    case Local(_, RemoveTag(_, t)) => a == t
    case _ => false
  }

  /** In the past of version `i`, the add at `a` has been observed and removed. */
  ghost predicate Dead(h: History, i: nat, a: nat)
    requires i < |h|
  {
    exists r | r in Past(h, i) :: Removes(h, r, a)
  }

  /** The state of version `i`; a `remove_tag` on an unknown element raises KeyError and changes nothing. */
  function StateAt(h: History, i: nat): State
    requires i < |h|
  {
    match h[i]
    case New => EMPTY
    case Local(f, Add(e)) => Added(StateAt(h, f), e, i)
    case Local(f, Remove(e)) => Removed(StateAt(h, f), e)
    case Local(f, RemoveTag(e, t)) =>
      var s := StateAt(h, f);
      if e in s.elements then TagRemoved(s, e, t) else s
    case Merge(l, r) => Merged(StateAt(h, l), StateAt(h, r))
  }

  /** An element once added stays a key of the internal map. */
  lemma {:induction false} ElementsAdded(h: History, i: nat, a: nat, e: Element)
    requires i < |h| && a in Past(h, i) && IsAdd(h, a, e)
    ensures e in StateAt(h, i).elements
    decreases i
  {
    match h[i]
    case New =>
    case Merge(l, r) =>
      if a in Past(h, l) { ElementsAdded(h, l, a, e); } else { ElementsAdded(h, r, a, e); }
    case Local(f, _) =>
      if a != i { ElementsAdded(h, f, a, e); }
  }

  // ---- what the tags mean ----

  lemma DeadStep(h: History, i: nat, a: nat)
    requires i < |h|
    ensures Dead(h, i, a) <==>
            match h[i]
            case New => false
            case Merge(l, r) => Dead(h, l, a) || Dead(h, r, a)
            case Local(f, _) => Dead(h, f, a) || Removes(h, i, a)
  {
    match h[i]
    case New =>
    case Merge(l, r) =>
    case Local(_, _) =>
  }

  /** In every history, tag `a` is tombstoned exactly when some remove in the past had observed it. */
  lemma {:induction false} TombstonesAreDead(h: History, i: nat, a: nat)
    requires i < |h| && TagsObserved(h)
    ensures a in StateAt(h, i).tombstones <==> Dead(h, i, a)
    decreases i, 0
  {
    DeadStep(h, i, a);
    match h[i]
    case New =>
    case Merge(l, r) =>
      TombstonesAreDead(h, l, a);
      TombstonesAreDead(h, r, a);
    case Local(f, Add(e)) => TombstonesAreDead(h, f, a);
    case Local(f, Remove(e)) =>
      TombstonesAreDead(h, f, a);
      LiveTagsAreUndead(h, f, e, a);
    case Local(f, RemoveTag(e, t)) =>
      TombstonesAreDead(h, f, a);
      ElementsAdded(h, f, t, e);
  }

  /** ... and is live for `e` exactly when it is an add of `e` in the past that no such remove had observed. */
  lemma {:induction false} LiveTagsAreUndead(h: History, i: nat, e: Element, a: nat)
    requires i < |h| && TagsObserved(h)
    ensures a in Tags(StateAt(h, i), e) <==> a in Past(h, i) && IsAdd(h, a, e) && !Dead(h, i, a)
    decreases i, 1
  {
    DeadStep(h, i, a);
    match h[i]
    case New =>
    case Merge(l, r) =>
      LiveTagsAreUndead(h, l, e, a);
      LiveTagsAreUndead(h, r, e, a);
      TombstonesAreDead(h, l, a);
      TombstonesAreDead(h, r, a);
    case Local(f, Add(x)) =>
      LiveTagsAreUndead(h, f, e, a);
      if Dead(h, f, a) { DeadWasObserved(h, f, a); }
    case Local(f, Remove(x)) => LiveTagsAreUndead(h, f, e, a);
    case Local(f, RemoveTag(x, t)) =>
      LiveTagsAreUndead(h, f, e, a);
      ElementsAdded(h, f, t, x);
  }

  /** Only tags from the past can be removed. */
  lemma DeadWasObserved(h: History, i: nat, a: nat)
    requires i < |h| && TagsObserved(h) && Dead(h, i, a)
    ensures a in Past(h, i)
  {
    var r :| r in Past(h, i) && Removes(h, r, a);
    PastIsClosed(h, r, i);
    PastIsClosed(h, h[r].from, r);
  }

  /** Add-wins: an element is in the set exactly when the history holds an add of it that no remove has observed. */
  lemma ValueIsUnremovedAdds(h: History, i: nat, e: Element)
    requires i < |h| && TagsObserved(h)
    ensures e in Value(StateAt(h, i)) <==> exists a | a in Past(h, i) :: IsAdd(h, a, e) && !Dead(h, i, a)
  {
    forall a {
      LiveTagsAreUndead(h, i, e, a);
    }
    if e in Value(StateAt(h, i)) {
      var a :| a in StateAt(h, i).elements[e];
      assert a in Tags(StateAt(h, i), e);
    }
  }

  lemma LiveAndRemovedDisjoint(h: History, i: nat)
    requires i < |h| && TagsObserved(h)
    ensures Disjoint(StateAt(h, i))
  {
    var s := StateAt(h, i);
    forall e | e in s.elements ensures s.elements[e] !! s.tombstones {
      forall a | a in s.elements[e] ensures a !in s.tombstones {
        assert a in Tags(s, e);
        LiveTagsAreUndead(h, i, e, a);
        TombstonesAreDead(h, i, a);
      }
    }
  }

  /** No resurrection: a tag removed in some version is live in no version that descends from it, stale merges included. */
  lemma NoResurrection(h: History, i: nat, j: nat, e: Element, a: nat)
    requires j < |h| && TagsObserved(h) && i in Past(h, j) && Dead(h, i, a)
    ensures a !in Tags(StateAt(h, j), e)
  {
    PastIsClosed(h, i, j);
    var r :| r in Past(h, i) && Removes(h, r, a);
    assert r in Past(h, j);
    LiveTagsAreUndead(h, j, e, a);
  }

  // ---- the set itself ----

  class ObservedRemoveSet {
    var elements: map<Element, set<Tag>>
    var tombstones: set<Tag>

    constructor ()
      ensures Model() == EMPTY
    {
      elements, tombstones := map[], {};
    }

    function Model(): State
      reads this
    {
      State(elements, tombstones)
    }

    /** `tag` stands for the random identifier drawn by the call. */
    method Add(e: Element, tag: Tag)
      modifies this
      ensures Model() == Added(old(Model()), e, tag)
      ensures Contains(e)
    {
      if e !in elements {
        elements := elements[e := {}];
      }
      elements := elements[e := elements[e] + {tag}];
      assert tag in elements[e];
    }

    method Remove(e: Element)
      modifies this
      ensures Model() == Removed(old(Model()), e)
      ensures !Contains(e)
    {
      if e in elements && elements[e] != {} {
        tombstones := tombstones + elements[e];
        elements := elements[e := {}];
      }
    }

    /** False stands for the KeyError. */
    method RemoveTag(e: Element, tag: Tag) returns (known: bool)
      modifies this
      ensures known <==> e in old(elements)
      ensures Model() == if known then TagRemoved(old(Model()), e, tag) else old(Model())
    {
      known := e in elements;
      if known {
        tombstones := tombstones + {tag};
        elements := elements[e := elements[e] - {tag}];
      }
    }

    predicate Contains(e: Element)
      reads this
      ensures Contains(e) <==> e in Value(Model())
    {
      e in elements && elements[e] != {}
    }

    method MergeWith(other: ObservedRemoveSet) returns (r: ObservedRemoveSet)
      ensures fresh(r) && r.Model() == Merged(Model(), other.Model())
    {
      r := new ObservedRemoveSet();
      r.tombstones := tombstones + other.tombstones;
      r.elements := UnionLiveTags(Model(), other.Model());
    }

    static method UnionLiveTags(a: State, b: State) returns (live: map<Element, set<Tag>>)
      ensures live == Merged(a, b).elements
    {
      live := map[];
      var dead := a.tombstones + b.tombstones;
      var rest := a.elements.Keys + b.elements.Keys;
      while rest != {}
        invariant rest <= a.elements.Keys + b.elements.Keys
        invariant forall e :: e in live <==> e in a.elements.Keys + b.elements.Keys && e !in rest
        invariant forall e | e in live :: live[e] == Tags(a, e) + Tags(b, e) - dead
        decreases |rest|
      {
        var e :| e in rest;
        rest := rest - {e};
        live := live[e := Tags(a, e) + Tags(b, e) - dead];
      }
      AllMerged(a, b, live);
    }
  }
}
