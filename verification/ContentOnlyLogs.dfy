/**
 Message logs deduplicated by content alone: of several messages with one content the first argument's copy stays.
 When merging such logs commutes and associates all the same.
*/
module ContentOnlyLogs {
  import opened MessageLog
  import opened Sets

  /** The first message of every content. */
  ghost function Firsts(ms: seq<Message>, stamp: Stamp): set<Message> {
    Elements(Dedup(ms, ContentOnly, stamp))
  }

  predicate SameContent(x: Message, y: Message) {
    x.content == y.content
  }

  ghost predicate OneEach(ms: seq<Message>) {
    forall i, j | 0 <= i < j < |ms| :: !SameContent(ms[i], ms[j])
  }

  ghost predicate OnePerContent(s: set<Message>) {
    forall x, y | x in s && y in s && x.content == y.content :: x == y
  }

  ghost predicate Covers(s: set<Message>, content: string) {
    exists x :: x in s && x.content == content
  }

  /** What two sets of messages leave of each other: all of the first, and of the second what is new to it. */
  ghost function Behind(s: set<Message>, t: set<Message>): set<Message> {
    s + set m | m in t && !Covers(s, m.content)
  }

  lemma {:induction false} FirstsDiffer(ms: seq<Message>, stamp: Stamp)
    ensures OneEach(Dedup(ms, ContentOnly, stamp))
    decreases |ms|
  {
    if ms != [] {
      var init, last := ms[..|ms| - 1], ms[|ms| - 1];
      FirstsDiffer(init, stamp);
      var ds := Dedup(init, ContentOnly, stamp);
      if !exists d | d in ds :: DedupKey(d, ContentOnly, stamp) == DedupKey(last, ContentOnly, stamp) {
        forall i | 0 <= i < |ds| ensures !SameContent(ds[i], last) {
          assert DedupKey(ds[i], ContentOnly, stamp) != DedupKey(last, ContentOnly, stamp);
        }
      }
    }
  }

  lemma FirstsIdentify(ms: seq<Message>, stamp: Stamp, x: Message, y: Message)
    requires x in Firsts(ms, stamp) && y in Firsts(ms, stamp) && x.content == y.content
    ensures x == y
  {
    FirstsDiffer(ms, stamp);
    var ds := Dedup(ms, ContentOnly, stamp);
    var i :| 0 <= i < |ds| && ds[i] == x;
    var j :| 0 <= j < |ds| && ds[j] == y;
    assert if i < j then !SameContent(ds[i], ds[j]) else i == j || !SameContent(ds[j], ds[i]);
  }

  /** Of two logs in a row, the first keeps all its firsts and the second those of contents new to it. */
  lemma {:induction false} FirstsOfBoth(a: seq<Message>, b: seq<Message>, stamp: Stamp, m: Message)
    ensures m in Firsts(a + b, stamp) <==>
            m in Firsts(a, stamp) || (m in Firsts(b, stamp) && !Covers(Firsts(a, stamp), m.content))
    ensures Covers(Firsts(a + b, stamp), m.content) <==>
            Covers(Firsts(a, stamp), m.content) || Covers(Firsts(b, stamp), m.content)
    decreases |b|
  {
    if b == [] {
      assert a + b == a;
    } else {
      var init, last := b[..|b| - 1], b[|b| - 1];
      var all := a + b;
      assert all[..|all| - 1] == a + init && all[|all| - 1] == last;
      FirstsOfBoth(a, init, stamp, m);
      FirstsOfBoth(a, init, stamp, last);
      OneMoreFirst(init, last, stamp, b);
      OneMoreFirst(a + init, last, stamp, all);
      CoversOneMore(Firsts(init, stamp), last, m.content);
      CoversOneMore(Firsts(a + init, stamp), last, m.content);
    }
  }

  lemma OneMoreFirst(init: seq<Message>, last: Message, stamp: Stamp, all: seq<Message>)
    requires |all| == |init| + 1 && all[..|init|] == init && all[|init|] == last
    ensures Firsts(all, stamp) == Firsts(init, stamp) + if Covers(Firsts(init, stamp), last.content) then {} else {last}
  {
    var ds := Dedup(init, ContentOnly, stamp);
    if d :| d in ds && d.content == last.content {
      assert d in Firsts(init, stamp);
    }
  }

  lemma CoversOneMore(s: set<Message>, m: Message, content: string)
    ensures Covers(s + {m}, content) <==> Covers(s, content) || m.content == content
  {
    assert m in s + {m};
    assert forall x | x in s :: x in s + {m};
  }

  lemma FirstsBehind(a: seq<Message>, b: seq<Message>, stamp: Stamp)
    ensures Firsts(a + b, stamp) == Behind(Firsts(a, stamp), Firsts(b, stamp))
  {
    forall m {
      FirstsOfBoth(a, b, stamp, m);
    }
  }

  lemma FirstsOnePerContent(ms: seq<Message>, stamp: Stamp)
    ensures OnePerContent(Firsts(ms, stamp)) && Firsts(ms, stamp) <= Elements(ms)
  {
    forall x, y | x in Firsts(ms, stamp) && y in Firsts(ms, stamp) && x.content == y.content ensures x == y {
      FirstsIdentify(ms, stamp, x, y);
    }
  }

  /** What a content-only merge holds, in order of time. */
  lemma MergeHolds(a: seq<Message>, b: seq<Message>, k: nat, stamp: Stamp)
    requires DistinctTimes(Elements(a) + Elements(b))
    ensures var r := MergeLogs(a, b, k, ContentOnly, stamp);
            Ascending(r) && Elements(r) == Newest(Behind(Firsts(a, stamp), Firsts(b, stamp)), k)
  {
    var ds := Dedup(a + b, ContentOnly, stamp);
    FirstsDiffer(a + b, stamp);
    forall i, j | 0 <= i < j < |ds| ensures ds[i].time != ds[j].time {
      assert !SameContent(ds[i], ds[j]) && ds[i] in ds && ds[j] in ds;
      assert ds[i] in Elements(a) + Elements(b) && ds[j] in Elements(a) + Elements(b);
    }
    SortSorts(ds);
    LastKIsNewest(SortByTime(ds), k);
    FirstsBehind(a, b, stamp);
  }

  // ---- when merging commutes ----

  /** Two different messages of one content, one from each side. */
  ghost predicate Rivals(s: set<Message>, t: set<Message>, x: Message, y: Message) {
    x in s && y in t && x.content == y.content && x != y
  }

  /** The messages that have no rival. */
  ghost function Undisputed(s: set<Message>, t: set<Message>): set<Message> {
    set m | m in s + t && forall z | z in s + t && z.content == m.content :: z == m
  }

  /** Every rival is outdated by at least `k` messages that have none. */
  ghost predicate RivalsOutdated(s: set<Message>, t: set<Message>, k: nat) {
    forall x, y | Rivals(s, t, x, y) ::
      |Newer(Undisputed(s, t), x)| >= k && |Newer(Undisputed(s, t), y)| >= k
  }

  lemma RivalsSwap(s: set<Message>, t: set<Message>, k: nat)
    requires RivalsOutdated(s, t, k)
    ensures RivalsOutdated(t, s, k)
  {
    assert Undisputed(t, s) == Undisputed(s, t);
    forall x, y | Rivals(t, s, x, y)
      ensures |Newer(Undisputed(t, s), x)| >= k && |Newer(Undisputed(t, s), y)| >= k
    {
      assert Rivals(s, t, y, x);
    }
  }

  /** With all rivals outdated, the newest are the newest of the undisputed ones. */
  lemma NewestUndisputed(s: set<Message>, t: set<Message>, k: nat)
    requires OnePerContent(s) && OnePerContent(t) && RivalsOutdated(s, t, k)
    ensures Newest(Behind(s, t), k) == Newest(Undisputed(s, t), k)
  {
    var all, calm := Behind(s, t), Undisputed(s, t);
    forall m | m in calm ensures m in all {
      if x :| x in s && x.content == m.content {
        assert x == m;
      }
    }
    forall m | m in Newest(all, k) ensures m in calm {
      if z :| z in s + t && z.content == m.content && z != m {
        assert Rivals(s, t, m, z);
        NoLarger(Newer(calm, m), Newer(all, m));
      }
    }
    NewestOfPart(calm, all, k);
  }

  /** If both orders keep the same messages, none of them has a rival. */
  lemma SharedUndisputed(s: set<Message>, t: set<Message>, m: Message)
    requires OnePerContent(s) && OnePerContent(t)
    requires m in Behind(s, t) && m in Behind(t, s)
    ensures m in Undisputed(s, t)
  {
  }

  lemma RivalOutdated(s: set<Message>, t: set<Message>, k: nat, x: Message, y: Message)
    requires OnePerContent(s) && OnePerContent(t) && Rivals(s, t, x, y)
    requires Newest(Behind(s, t), k) == Newest(Behind(t, s), k)
    ensures |Newer(Undisputed(s, t), x)| >= k
  {
    var kept, calm := Newest(Behind(s, t), k), Undisputed(s, t);
    forall m | m in kept ensures m in calm {
      SharedUndisputed(s, t, m);
    }
    assert x !in calm;
    NewerSurvive(Behind(s, t), x, k);
    NoLarger(Newer(kept, x), Newer(calm, x));
  }

  lemma BehindCommutesIff(s: set<Message>, t: set<Message>, k: nat)
    requires OnePerContent(s) && OnePerContent(t)
    ensures Newest(Behind(s, t), k) == Newest(Behind(t, s), k) <==> RivalsOutdated(s, t, k)
  {
    assert Undisputed(t, s) == Undisputed(s, t);
    if RivalsOutdated(s, t, k) {
      RivalsSwap(s, t, k);
      NewestUndisputed(s, t, k);
      NewestUndisputed(t, s, k);
    }
    if Newest(Behind(s, t), k) == Newest(Behind(t, s), k) {
      forall x, y | Rivals(s, t, x, y)
        ensures |Newer(Undisputed(s, t), x)| >= k && |Newer(Undisputed(s, t), y)| >= k
      {
        RivalOutdated(s, t, k, x, y);
        assert Rivals(t, s, y, x);
        RivalOutdated(t, s, k, y, x);
      }
    }
  }

  /** Merging by content alone commutes exactly when every message whose first copies in the two logs differ is older
      than `k` messages about which the logs agree. */
  lemma CommutesIff(a: seq<Message>, b: seq<Message>, k: nat, stamp: Stamp)
    requires DistinctTimes(Elements(a) + Elements(b))
    ensures MergeLogs(a, b, k, ContentOnly, stamp) == MergeLogs(b, a, k, ContentOnly, stamp) <==>
            RivalsOutdated(Firsts(a, stamp), Firsts(b, stamp), k)
  {
    var r, s := MergeLogs(a, b, k, ContentOnly, stamp), MergeLogs(b, a, k, ContentOnly, stamp);
    assert Elements(b) + Elements(a) == Elements(a) + Elements(b);
    MergeHolds(a, b, k, stamp);
    MergeHolds(b, a, k, stamp);
    FirstsOnePerContent(a, stamp);
    FirstsOnePerContent(b, stamp);
    BehindCommutesIff(Firsts(a, stamp), Firsts(b, stamp), k);
    if Elements(r) == Elements(s) {
      AscendingUnique(r, s);
    }
  }

  lemma {:induction false} FewElements(ms: seq<Message>)
    ensures |Elements(ms)| <= |ms|
    decreases |ms|
  {
    if ms != [] {
      var init, last := ms[..|ms| - 1], ms[|ms| - 1];
      FewElements(init);
      assert Elements(ms) == Elements(init) + {last};
    }
  }

  /** With room for everything, everything is among the newest. */
  lemma RoomForAll(s: set<Message>, t: set<Message>, k: nat)
    requires s <= t && |t| <= k
    ensures Newest(s, k) == s
  {
    forall m | m in s ensures |Newer(s, m)| < k {
      assert Newer(s, m) <= t - {m};
      NoLarger(Newer(s, m), t - {m});
    }
  }

  lemma RivalsStayIn(s: set<Message>, t: set<Message>, all: set<Message>, k: nat, x: Message, y: Message)
    requires Rivals(s, t, x, y) && s + t <= all && |all| <= k
    ensures !RivalsOutdated(s, t, k)
  {
    var calm := Undisputed(s, t);
    assert x !in calm;
    NoLarger(Newer(calm, x), all - {x});
  }

  /** Without truncation it commutes exactly when both logs have the same first message of every content they share. */
  lemma CommutesUncut(a: seq<Message>, b: seq<Message>, k: nat, stamp: Stamp)
    requires DistinctTimes(Elements(a) + Elements(b)) && |a| + |b| <= k
    ensures MergeLogs(a, b, k, ContentOnly, stamp) == MergeLogs(b, a, k, ContentOnly, stamp) <==>
            forall x, y :: !Rivals(Firsts(a, stamp), Firsts(b, stamp), x, y)
  {
    CommutesIff(a, b, k, stamp);
    var s, t := Firsts(a, stamp), Firsts(b, stamp);
    FirstsOnePerContent(a, stamp);
    FirstsOnePerContent(b, stamp);
    FewElements(a + b);
    forall x, y | Rivals(s, t, x, y) ensures !RivalsOutdated(s, t, k) {
      RivalsStayIn(s, t, Elements(a + b), k, x, y);
    }
  }

  // ---- when merging associates ----

  lemma BehindAssociates(s: set<Message>, t: set<Message>, u: set<Message>)
    ensures Behind(Behind(s, t), u) == Behind(s, Behind(t, u))
  {
    forall m | m in t && Covers(s, m.content) ensures Covers(Behind(s, t), m.content) {}
    assert forall x | x in s :: x in Behind(s, t);
    assert forall x | x in t :: x in Behind(t, u);
  }

  /** A message of `u` whose content `s` and `t` held in another copy, cut off before `u` came, shows in its place. */
  ghost predicate Revives(s: set<Message>, t: set<Message>, u: set<Message>, k: nat, x: Message, v: Message) {
    var both := Behind(s, t);
    && x in both && x !in Newest(both, k) && v in u && v.content == x.content
    && v in Newest(Behind(Newest(both, k), u), k)
  }

  /** A message that was cut off before `s` came is among the newest once `s`, with older copies, is in front. */
  ghost predicate Loses(s: set<Message>, t: set<Message>, u: set<Message>, k: nat, x: Message) {
    var both := Behind(t, u);
    && x in both && x !in Newest(both, k) && !Covers(s, x.content)
    && x in Newest(Behind(s, both), k)
  }

  /** Without revived copies, truncating in the middle of merging from the left changes nothing. */
  lemma LeftIsWhole(s: set<Message>, t: set<Message>, u: set<Message>, k: nat)
    requires forall x, v :: !Revives(s, t, u, k, x, v)
    ensures Newest(Behind(Newest(Behind(s, t), k), u), k) == Newest(Behind(Behind(s, t), u), k)
  {
    var both := Behind(s, t);
    var cut, whole := Behind(Newest(both, k), u), Behind(both, u);
    var core := cut * whole;
    forall m | m in Newest(whole, k) ensures m in core {
      if m in both && m !in Newest(both, k) {
        NoLarger(Newer(both, m), Newer(whole, m));
      }
    }
    forall m | m in Newest(cut, k) ensures m in core {
      if m !in whole {
        var x :| x in both && x.content == m.content;
        assert Revives(s, t, u, k, x, m);
      }
    }
    NewestOfPart(core, whole, k);
    NewestOfPart(core, cut, k);
  }

  /** Truncating in the middle of merging from the right changes nothing exactly when nothing is lost by it. */
  lemma RightIsWholeIff(s: set<Message>, t: set<Message>, u: set<Message>, k: nat)
    ensures Newest(Behind(s, Newest(Behind(t, u), k)), k) == Newest(Behind(s, Behind(t, u)), k) <==>
            forall x :: !Loses(s, t, u, k, x)
  {
    var both := Behind(t, u);
    var cut, whole := Behind(s, Newest(both, k)), Behind(s, both);
    if forall x :: !Loses(s, t, u, k, x) {
      forall m | m in Newest(whole, k) ensures m in cut {
        assert !Loses(s, t, u, k, m);
      }
      NewestOfPart(cut, whole, k);
    } else {
      var x :| Loses(s, t, u, k, x);
      assert x !in cut;
    }
  }

  /** A revived copy shows when merging from the left and never from the right. */
  lemma RevivedTellsApart(s: set<Message>, t: set<Message>, u: set<Message>, k: nat, x: Message, v: Message)
    requires OnePerContent(s) && OnePerContent(t) && Revives(s, t, u, k, x, v)
    ensures v !in Newest(Behind(s, Newest(Behind(t, u), k)), k)
  {
    var both := Behind(s, t);
    if x == v {
      NewerSurvive(both, x, k);
      NoLarger(Newer(Newest(both, k), x), Newer(Behind(Newest(both, k), u), x));
    }
  }

  lemma BehindAssociatesIff(s: set<Message>, t: set<Message>, u: set<Message>, k: nat)
    requires OnePerContent(s) && OnePerContent(t)
    ensures Newest(Behind(Newest(Behind(s, t), k), u), k) == Newest(Behind(s, Newest(Behind(t, u), k)), k) <==>
            (forall x, v :: !Revives(s, t, u, k, x, v)) && (forall x :: !Loses(s, t, u, k, x))
  {
    BehindAssociates(s, t, u);
    RightIsWholeIff(s, t, u, k);
    if x, v :| Revives(s, t, u, k, x, v) {
      RevivedTellsApart(s, t, u, k, x, v);
    } else {
      LeftIsWhole(s, t, u, k);
    }
  }

  /** A merged log holds one message per content, so its firsts are all its messages. */
  lemma {:induction false} FirstsOfAll(ms: seq<Message>, stamp: Stamp)
    requires Ascending(ms) && OnePerContent(Elements(ms))
    ensures Firsts(ms, stamp) == Elements(ms)
    decreases |ms|
  {
    if ms != [] {
      var init, last := ms[..|ms| - 1], ms[|ms| - 1];
      assert Elements(ms) == Elements(init) + {last};
      FirstsOfAll(init, stamp);
      OneMoreFirst(init, last, stamp, ms);
      assert last !in Elements(init);
    }
  }

  lemma MergedFirsts(a: seq<Message>, b: seq<Message>, k: nat, stamp: Stamp)
    requires DistinctTimes(Elements(a) + Elements(b))
    ensures var r := MergeLogs(a, b, k, ContentOnly, stamp);
            && Firsts(r, stamp) == Newest(Behind(Firsts(a, stamp), Firsts(b, stamp)), k)
            && Elements(r) <= Elements(a) + Elements(b)
  {
    MergeHolds(a, b, k, stamp);
    FirstsOnePerContent(a, stamp);
    FirstsOnePerContent(b, stamp);
    FirstsOfAll(MergeLogs(a, b, k, ContentOnly, stamp), stamp);
  }

  /** Merging three logs by content alone is independent of the grouping exactly when cutting the first two revives no
      later copy and cutting the last two loses nothing. */
  lemma AssociatesIff(a: seq<Message>, b: seq<Message>, c: seq<Message>, k: nat, stamp: Stamp)
    requires DistinctTimes(Elements(a) + Elements(b) + Elements(c))
    ensures var merge := (x, y) => MergeLogs(x, y, k, ContentOnly, stamp);
            var s, t, u := Firsts(a, stamp), Firsts(b, stamp), Firsts(c, stamp);
            merge(merge(a, b), c) == merge(a, merge(b, c)) <==>
            (forall x, v :: !Revives(s, t, u, k, x, v)) && (forall x :: !Loses(s, t, u, k, x))
  {
    var ab, bc := MergeLogs(a, b, k, ContentOnly, stamp), MergeLogs(b, c, k, ContentOnly, stamp);
    MergedFirsts(a, b, k, stamp);
    MergedFirsts(b, c, k, stamp);
    MergeHolds(ab, c, k, stamp);
    MergeHolds(a, bc, k, stamp);
    FirstsOnePerContent(a, stamp);
    FirstsOnePerContent(b, stamp);
    BehindAssociatesIff(Firsts(a, stamp), Firsts(b, stamp), Firsts(c, stamp), k);
    var l, r := MergeLogs(ab, c, k, ContentOnly, stamp), MergeLogs(a, bc, k, ContentOnly, stamp);
    if Elements(l) == Elements(r) {
      AscendingUnique(l, r);
    }
  }

  lemma AllStay(a: seq<Message>, b: seq<Message>, k: nat, stamp: Stamp)
    requires |a| + |b| <= k
    ensures var both := Behind(Firsts(a, stamp), Firsts(b, stamp)); Newest(both, k) == both
  {
    FirstsOnePerContent(a, stamp);
    FirstsOnePerContent(b, stamp);
    FewElements(a + b);
    RoomForAll(Behind(Firsts(a, stamp), Firsts(b, stamp)), Elements(a + b), k);
  }

  /** Without truncation it always is. */
  lemma AssociatesUncut(a: seq<Message>, b: seq<Message>, c: seq<Message>, k: nat, stamp: Stamp)
    requires DistinctTimes(Elements(a) + Elements(b) + Elements(c)) && |a| + |b| + |c| <= k
    ensures var merge := (x, y) => MergeLogs(x, y, k, ContentOnly, stamp);
            merge(merge(a, b), c) == merge(a, merge(b, c))
  {
    AssociatesIff(a, b, c, k, stamp);
    AllStay(a, b, k, stamp);
    AllStay(b, c, k, stamp);
  }

  // ---- where both fail ----

  lemma OneFirst(m: Message, stamp: Stamp)
    ensures Firsts([m], stamp) == {m}
  {
    assert [m][..0] == [];
    assert Dedup([m], ContentOnly, stamp) == [m];
  }

  lemma NewestOfTwo(x: Message, y: Message)
    requires x.time < y.time
    ensures Newest({x, y}, 1) == {y}
  {
    assert y in Newer({x, y}, x);
    assert Newer({x, y}, y) == {};
  }

  lemma MergesTo(x: Message, y: Message, m: Message, stamp: Stamp)
    requires x.time != y.time && Newest(Behind({x}, {y}), 1) == {m}
    ensures MergeLogs([x], [y], 1, ContentOnly, stamp) == [m]
  {
    MergeHolds([x], [y], 1, stamp);
    OneFirst(x, stamp);
    OneFirst(y, stamp);
    AscendingUnique(MergeLogs([x], [y], 1, ContentOnly, stamp), [m]);
  }

  /** Of two logs of one message each, the newer message stays, or the first of one content. */
  lemma OneStays(x: Message, y: Message, stamp: Stamp)
    requires x.time != y.time
    ensures MergeLogs([x], [y], 1, ContentOnly, stamp) == [if x.content == y.content || y.time < x.time then x else y]
  {
    if x.content == y.content {
      assert Behind({x}, {y}) == {x};
      RoomForAll({x}, {x}, 1);
      MergesTo(x, y, x, stamp);
    } else if x.time < y.time {
      assert Behind({x}, {y}) == {x, y};
      NewestOfTwo(x, y);
      MergesTo(x, y, y, stamp);
    } else {
      assert Behind({x}, {y}) == {y, x};
      NewestOfTwo(y, x);
      MergesTo(x, y, x, stamp);
    }
  }

  /** An old and a new copy of one content with another message between them in time: with room for one message, order
      decides between the copies, and so does grouping. */
  lemma OrderAndGroupingMatter(x: Message, q: Message, y: Message, stamp: Stamp)
    requires x.content == y.content != q.content && x.time < q.time < y.time
    ensures var merge := (a, b) => MergeLogs(a, b, 1, ContentOnly, stamp);
            && merge([x], [y]) == [x] && merge([y], [x]) == [y]
            && merge(merge([x], [q]), [y]) == [y] && merge([x], merge([q], [y])) == [x]
  {
    OneStays(x, y, stamp);
    OneStays(y, x, stamp);
    OneStays(x, q, stamp);
    OneStays(q, y, stamp);
  }
}
