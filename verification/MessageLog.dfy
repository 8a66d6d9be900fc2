/**
 The message log of an agent: merging concatenates, removes duplicates by a text key, sorts by
 timestamp and refills a bounded queue that drops its oldest entry when full.

 `stamp` stands for the text Python makes of a timestamp; float texts contain no colon.
*/
module MessageLog {
  import opened Convergence
  import opened Sets

  datatype Message = Message(content: string, role: string, agent: string, time: real, metadata: string)

  type Stamp = real -> string

  datatype Strategy = ContentAgentTime | ContentOnly

  function DedupKey(m: Message, strategy: Strategy, stamp: Stamp): string {
    match strategy
    case ContentOnly => m.content
    case ContentAgentTime => m.content + ":" + m.agent + ":" + stamp(m.time)
  }

  /** First occurrences by dedup key. */
  function Dedup(ms: seq<Message>, strategy: Strategy, stamp: Stamp): (ds: seq<Message>)
    ensures forall d | d in ds :: d in ms
  {
    if ms == [] then []
    else
      var n := |ms| - 1;
      var ds := Dedup(ms[..n], strategy, stamp);
      if exists d | d in ds :: DedupKey(d, strategy, stamp) == DedupKey(ms[n], strategy, stamp) then ds else ds + [ms[n]]
  }

  /** Stable insertion into a log sorted by time: behind every message that is not newer. */
  function Insert(log: seq<Message>, m: Message): seq<Message> {
    if log == [] then [m]
    else if log[|log| - 1].time <= m.time then log + [m]
    else Insert(log[..|log| - 1], m) + [log[|log| - 1]]
  }

  /** The stable sort by timestamp. */
  function SortByTime(ms: seq<Message>): seq<Message> {
    if ms == [] then [] else Insert(SortByTime(ms[..|ms| - 1]), ms[|ms| - 1])
  }

  function LastK(ms: seq<Message>, k: nat): seq<Message> {
    if |ms| <= k then ms else ms[|ms| - k..]
  }

  function MergeLogs(a: seq<Message>, b: seq<Message>, k: nat, strategy: Strategy, stamp: Stamp): seq<Message> {
    LastK(SortByTime(Dedup(a + b, strategy, stamp)), k)
  }

  /** Appending to a queue with a maximal length. */
  function Append(log: seq<Message>, m: Message, k: nat): seq<Message> {
    if |log| < k then log + [m] else if k == 0 then log else log[1..] + [m]
  }

  method MergeMessages(a: seq<Message>, b: seq<Message>, k: nat, strategy: Strategy, stamp: Stamp) returns (log: seq<Message>)
    ensures log == MergeLogs(a, b, k, strategy, stamp)
  {
    var merged := Deduplicate(a + b, strategy, stamp);
    log := Refill(SortByTime(merged), k);
  }

  method Deduplicate(all: seq<Message>, strategy: Strategy, stamp: Stamp) returns (merged: seq<Message>)
    ensures merged == Dedup(all, strategy, stamp)
  {
    var seen: set<string> := {};
    merged := [];
    for i := 0 to |all|
      invariant merged == Dedup(all[..i], strategy, stamp)
      invariant forall key :: key in seen <==> exists d | d in merged :: DedupKey(d, strategy, stamp) == key
    {
      assert all[..i + 1][..i] == all[..i];
      var key := DedupKey(all[i], strategy, stamp);
      if key !in seen {
        seen := seen + {key};
        merged := merged + [all[i]];
      }
    }
    assert all[..|all|] == all;
  }

  /** Fills an empty queue of maximal length `k`. */
  method Refill(sorted: seq<Message>, k: nat) returns (log: seq<Message>)
    ensures log == LastK(sorted, k)
  {
    log := [];
    for i := 0 to |sorted|
      invariant log == LastK(sorted[..i], k)
    {
      log := Append(log, sorted[i], k);
    }
    assert sorted[..|sorted|] == sorted;
  }

  // ---- the newest k ----

  ghost function Elements(ms: seq<Message>): set<Message> {
    set m | m in ms
  }

  ghost predicate Ascending(ms: seq<Message>) {
    forall i, j | 0 <= i < j < |ms| :: ms[i].time < ms[j].time
  }

  /** Timestamps tell messages apart. */
  ghost predicate DistinctTimes(s: set<Message>) {
    forall a, b | a in s && b in s && a.time == b.time :: a == b
  }

  ghost function Newer(s: set<Message>, m: Message): set<Message> {
    set x | x in s && x.time > m.time
  }

  ghost function Newest(s: set<Message>, k: nat): set<Message> {
    set m | m in s && |Newer(s, m)| < k
  }

  /** Different timestamps of the messages have different texts, none with a colon. */
  ghost predicate Readable(stamp: Stamp, s: set<Message>) {
    && (forall a, b | a in s && b in s && stamp(a.time) == stamp(b.time) :: a.time == b.time)
    && (forall a | a in s :: ':' !in stamp(a.time))
  }

  /** Behind its last colon a text is determined. */
  lemma AfterLastColon(a: string, x: string, b: string, y: string)
    requires a + ":" + x == b + ":" + y && ':' !in x && ':' !in y
    ensures x == y
  {
    var s := a + ":" + x;
    assert s[|a|] == ':' && s[|b|] == ':';
    forall i | |a| < i < |s| ensures s[i] != ':' {
      assert s[i] == x[i - |a| - 1];
    }
    forall i | |b| < i < |s| ensures s[i] != ':' {
      assert s[i] == y[i - |b| - 1];
    }
    assert |a| == |b|;
    assert s[|a| + 1..] == x && s[|b| + 1..] == y;
  }

  lemma KeysIdentify(x: Message, y: Message, stamp: Stamp)
    requires Readable(stamp, {x, y}) && DistinctTimes({x, y})
    requires DedupKey(x, ContentAgentTime, stamp) == DedupKey(y, ContentAgentTime, stamp)
    ensures x == y
  {
    AfterLastColon(x.content + ":" + x.agent, stamp(x.time), y.content + ":" + y.agent, stamp(y.time));
  }

  lemma {:induction false} DedupElements(ms: seq<Message>, stamp: Stamp)
    requires Readable(stamp, Elements(ms)) && DistinctTimes(Elements(ms))
    ensures var ds := Dedup(ms, ContentAgentTime, stamp);
            Elements(ds) == Elements(ms) && forall i, j | 0 <= i < j < |ds| :: ds[i].time != ds[j].time
    decreases |ms|
  {
    if ms != [] {
      var n := |ms| - 1;
      assert ms == ms[..n] + [ms[n]];
      assert Elements(ms) == Elements(ms[..n]) + {ms[n]};
      DedupElements(ms[..n], stamp);
      var ds := Dedup(ms[..n], ContentAgentTime, stamp);
      forall d | d in ds && DedupKey(d, ContentAgentTime, stamp) == DedupKey(ms[n], ContentAgentTime, stamp)
        ensures d == ms[n]
      {
        assert d in Elements(ms);
        KeysIdentify(d, ms[n], stamp);
      }
      forall d | d in ds && d.time == ms[n].time ensures d == ms[n] {
        assert d in Elements(ms);
      }
    }
  }

  lemma {:induction false} InsertSorts(log: seq<Message>, m: Message)
    requires Ascending(log) && forall x | x in log :: x.time != m.time
    ensures Ascending(Insert(log, m)) && Elements(Insert(log, m)) == Elements(log) + {m}
    decreases |log|
  {
    if log != [] && log[|log| - 1].time > m.time {
      var n := |log| - 1;
      assert log == log[..n] + [log[n]];
      InsertSorts(log[..n], m);
      var r := Insert(log[..n], m);
      forall i | 0 <= i < |r| ensures r[i].time < log[n].time {
        assert r[i] in Elements(r);
      }
    }
  }

  lemma {:induction false} SortSorts(ms: seq<Message>)
    requires forall i, j | 0 <= i < j < |ms| :: ms[i].time != ms[j].time
    ensures Ascending(SortByTime(ms)) && Elements(SortByTime(ms)) == Elements(ms)
    decreases |ms|
  {
    if ms != [] {
      var n := |ms| - 1;
      assert ms == ms[..n] + [ms[n]];
      SortSorts(ms[..n]);
      forall x | x in SortByTime(ms[..n]) ensures x.time != ms[n].time {
        assert x in Elements(ms[..n]);
      }
      InsertSorts(SortByTime(ms[..n]), ms[n]);
    }
  }

  lemma {:induction false} ElementsCount(ms: seq<Message>)
    requires Ascending(ms)
    ensures |Elements(ms)| == |ms|
    decreases |ms|
  {
    if ms != [] {
      var n := |ms| - 1;
      ElementsCount(ms[..n]);
      assert Elements(ms) == Elements(ms[..n]) + {ms[n]};
      assert ms[n] !in Elements(ms[..n]);
    }
  }

  /** In a sorted log the messages newer than the one at `i` are those behind it. */
  lemma NewerBehind(ms: seq<Message>, i: nat)
    requires Ascending(ms) && i < |ms|
    ensures |Newer(Elements(ms), ms[i])| == |ms| - 1 - i
  {
    var behind := ms[i + 1..];
    assert Newer(Elements(ms), ms[i]) == Elements(behind) by {
      forall x | x in Newer(Elements(ms), ms[i]) ensures x in Elements(behind) {
        var j :| 0 <= j < |ms| && ms[j] == x;
        assert j > i && behind[j - i - 1] == x;
      }
      forall x | x in Elements(behind) ensures x in Newer(Elements(ms), ms[i]) {
        var j :| 0 <= j < |behind| && behind[j] == x;
        assert ms[i + 1 + j] == x;
      }
    }
    ElementsCount(behind);
  }

  lemma TailElements(ms: seq<Message>, s: set<Message>, cut: nat)
    requires cut <= |ms| && s <= Elements(ms)
    requires forall i | 0 <= i < |ms| :: ms[i] in s <==> i >= cut
    ensures Elements(ms[cut..]) == s
  {
    var tail := ms[cut..];
    forall m | m in s ensures m in Elements(tail) {
      var i :| 0 <= i < |ms| && ms[i] == m;
      assert tail[i - cut] == m;
    }
    forall m | m in Elements(tail) ensures m in s {
      var i :| 0 <= i < |tail| && tail[i] == m;
      assert ms[cut + i] == m;
    }
  }

  lemma LastKIsNewest(ms: seq<Message>, k: nat)
    requires Ascending(ms)
    ensures Ascending(LastK(ms, k)) && Elements(LastK(ms, k)) == Newest(Elements(ms), k)
  {
    var cut := if |ms| <= k then 0 else |ms| - k;
    assert LastK(ms, k) == ms[cut..];
    forall i | 0 <= i < |ms| ensures ms[i] in Newest(Elements(ms), k) <==> i >= cut {
      NewerBehind(ms, i);
    }
    TailElements(ms, Newest(Elements(ms), k), cut);
  }

  // ---- duplicates and ties ----

  /** The text two messages must share to be duplicates. */
  function SharedText(m: Message, strategy: Strategy, stamp: Stamp): string {
    if strategy == ContentOnly then m.content else m.content + ":" + m.agent + ":" + stamp(m.time)
  }

  predicate FirstOfText(ms: seq<Message>, strategy: Strategy, stamp: Stamp, i: int) {
    0 <= i < |ms| && forall j | 0 <= j < i :: SharedText(ms[j], strategy, stamp) != SharedText(ms[i], strategy, stamp)
  }

  /** `out` is the messages at these positions, in order. */
  ghost predicate Picks(ms: seq<Message>, at: seq<int>, out: seq<Message>) {
    && |at| == |out|
    && (forall n, m | 0 <= n < m < |at| :: at[n] < at[m])
    && (forall n | 0 <= n < |at| :: 0 <= at[n] < |ms| && out[n] == ms[at[n]])
  }

  lemma PicksMore(ms: seq<Message>, at: seq<int>, out: seq<Message>, last: Message)
    requires Picks(ms, at, out)
    ensures Picks(ms + [last], at, out) && Picks(ms + [last], at + [|ms|], out + [last])
    ensures forall i :: i in at + [|ms|] <==> i in at || i == |ms|
  {
  }

  lemma FirstOfTextSnoc(init: seq<Message>, last: Message, strategy: Strategy, stamp: Stamp, i: int)
    requires i != |init|
    ensures FirstOfText(init + [last], strategy, stamp, i) <==> FirstOfText(init, strategy, stamp, i)
  {
    if 0 <= i < |init| {
      assert forall j | 0 <= j <= i :: (init + [last])[j] == init[j];
    }
  }

  /** Of the messages with one text the first is kept, in order. */
  lemma {:induction false} DedupKeepsFirsts(ms: seq<Message>, strategy: Strategy, stamp: Stamp) returns (at: seq<int>)
    ensures Picks(ms, at, Dedup(ms, strategy, stamp)) && forall i :: i in at <==> FirstOfText(ms, strategy, stamp, i)
    decreases |ms|
  {
    if ms == [] {
      at := [];
    } else {
      var init, last := ms[..|ms| - 1], ms[|ms| - 1];
      var before := DedupKeepsFirsts(init, strategy, stamp);
      PicksMore(init, before, Dedup(init, strategy, stamp), last);
      assert ms == init + [last];
      DuplicateIff(ms, strategy, stamp, before, Dedup(init, strategy, stamp));
      at := if FirstOfText(ms, strategy, stamp, |init|) then before + [|init|] else before;
      forall i | i != |init| ensures FirstOfText(ms, strategy, stamp, i) <==> FirstOfText(init, strategy, stamp, i) {
        FirstOfTextSnoc(init, last, strategy, stamp, i);
      }
    }
  }

  /** The last message is new exactly when it is the first of its text. */
  lemma DuplicateIff(ms: seq<Message>, strategy: Strategy, stamp: Stamp, at: seq<int>, ds: seq<Message>)
    requires ms != [] && Picks(ms[..|ms| - 1], at, ds)
    requires forall i :: i in at <==> FirstOfText(ms[..|ms| - 1], strategy, stamp, i)
    ensures (exists d | d in ds :: DedupKey(d, strategy, stamp) == DedupKey(ms[|ms| - 1], strategy, stamp)) <==>
            !FirstOfText(ms, strategy, stamp, |ms| - 1)
  {
    var n := |ms| - 1;
    var init, key := ms[..n], SharedText(ms[n], strategy, stamp);
    if d :| d in ds && DedupKey(d, strategy, stamp) == DedupKey(ms[n], strategy, stamp) {
      var i :| 0 <= i < |ds| && ds[i] == d;
      assert ms[at[i]] == d;
    }
    if !FirstOfText(ms, strategy, stamp, n) {
      var j :| 0 <= j < n && SharedText(ms[j], strategy, stamp) == key;
      var i := FirstWithText(init, strategy, stamp, j);
      assert i in at;
      var k :| 0 <= k < |at| && at[k] == i;
      assert ds[k] in ds && ds[k] == init[i] == ms[i];
    }
  }

  lemma {:induction false} FirstWithText(ms: seq<Message>, strategy: Strategy, stamp: Stamp, j: nat) returns (i: nat)
    requires j < |ms|
    ensures FirstOfText(ms, strategy, stamp, i) && SharedText(ms[i], strategy, stamp) == SharedText(ms[j], strategy, stamp)
    decreases j
  {
    if FirstOfText(ms, strategy, stamp, j) {
      i := j;
    } else {
      var l :| 0 <= l < j && SharedText(ms[l], strategy, stamp) == SharedText(ms[j], strategy, stamp);
      i := FirstWithText(ms, strategy, stamp, l);
    }
  }

  function AtTime(ms: seq<Message>, t: real): seq<Message> {
    if ms == [] then [] else AtTime(ms[..|ms| - 1], t) + if ms[|ms| - 1].time == t then [ms[|ms| - 1]] else []
  }

  ghost predicate InTimeOrder(ms: seq<Message>) {
    forall i, j | 0 <= i < j < |ms| :: ms[i].time <= ms[j].time
  }

  lemma AtTimeSnoc(ms: seq<Message>, m: Message, t: real)
    ensures AtTime(ms + [m], t) == AtTime(ms, t) + if m.time == t then [m] else []
  {
    assert (ms + [m])[..|ms|] == ms;
  }

  lemma {:induction false} InsertIsStable(log: seq<Message>, m: Message, t: real)
    ensures AtTime(Insert(log, m), t) == AtTime(log + [m], t)
    decreases |log|
  {
    if log != [] && log[|log| - 1].time > m.time {
      var init, last := log[..|log| - 1], log[|log| - 1];
      InsertIsStable(init, m, t);
      AtTimeSnoc(Insert(init, m), last, t);
      AtTimeSnoc(init, m, t);
      AtTimeSnoc(log, m, t);
      EitherOrder(AtTime(init, t), if m.time == t then [m] else [], if last.time == t then [last] else []);
    }
  }

  lemma EitherOrder(rest: seq<Message>, x: seq<Message>, y: seq<Message>)
    requires x == [] || y == []
    ensures rest + x + y == rest + y + x
  {
  }

  lemma {:induction false} InsertInOrder(log: seq<Message>, m: Message)
    requires InTimeOrder(log)
    ensures InTimeOrder(Insert(log, m)) && forall x | x in Insert(log, m) :: x in log || x == m
    decreases |log|
  {
    if log != [] && log[|log| - 1].time > m.time {
      var init, last := log[..|log| - 1], log[|log| - 1];
      InsertInOrder(init, m);
      LastIsNewest(log);
      var inserted := Insert(init, m);
      forall i | 0 <= i < |inserted| ensures inserted[i].time <= last.time {
        assert inserted[i] in inserted;
      }
    }
  }

  lemma LastIsNewest(log: seq<Message>)
    requires InTimeOrder(log) && log != []
    ensures forall x | x in log[..|log| - 1] :: x.time <= log[|log| - 1].time && x in log
  {
    var init := log[..|log| - 1];
    forall x | x in init ensures x.time <= log[|log| - 1].time && x in log {
      var i :| 0 <= i < |init| && init[i] == x;
      assert log[i] == x;
    }
  }

  /** Sorting is stable: messages of one time stay in their order, whatever times repeat. */
  lemma {:induction false} SortIsStable(ms: seq<Message>, t: real)
    ensures InTimeOrder(SortByTime(ms)) && AtTime(SortByTime(ms), t) == AtTime(ms, t)
    decreases |ms|
  {
    if ms != [] {
      var init, last := ms[..|ms| - 1], ms[|ms| - 1];
      SortIsStable(init, t);
      InsertIsStable(SortByTime(init), last, t);
      InsertInOrder(SortByTime(init), last);
      AtTimeSnoc(SortByTime(init), last, t);
    }
  }

  /** The merged log is sorted and holds exactly the newest `k` of all messages. */
  lemma MergeKeepsNewest(a: seq<Message>, b: seq<Message>, k: nat, stamp: Stamp)
    requires Readable(stamp, Elements(a) + Elements(b)) && DistinctTimes(Elements(a) + Elements(b))
    ensures var r := MergeLogs(a, b, k, ContentAgentTime, stamp);
            Ascending(r) && Elements(r) == Newest(Elements(a) + Elements(b), k)
  {
    assert Elements(a + b) == Elements(a) + Elements(b);
    DedupElements(a + b, stamp);
    var ds := Dedup(a + b, ContentAgentTime, stamp);
    SortSorts(ds);
    LastKIsNewest(SortByTime(ds), k);
  }

  /** A sorted log is determined by its messages. */
  lemma {:induction false} AscendingUnique(x: seq<Message>, y: seq<Message>)
    requires Ascending(x) && Ascending(y) && Elements(x) == Elements(y)
    ensures x == y
    decreases |x|
  {
    ElementsCount(x);
    ElementsCount(y);
    if x != [] {
      var n := |x| - 1;
      assert x[n] in Elements(y) && y[n] in Elements(x);
      assert x[n] == y[n];
      assert Elements(x[..n]) == Elements(x) - {x[n]};
      assert Elements(y[..n]) == Elements(y) - {y[n]};
      AscendingUnique(x[..n], y[..n]);
      assert x == x[..n] + [x[n]] && y == y[..n] + [y[n]];
    }
  }

  /** With `k` newer messages around, `k` newer ones survive the truncation. */
  lemma {:induction false} NewerSurvive(s: set<Message>, m: Message, k: nat)
    requires |Newer(s, m)| >= k
    ensures |Newer(Newest(s, k), m)| >= k
    decreases |Newer(s, m)|
  {
    if Newer(s, m) <= Newest(s, k) {
      assert Newer(Newest(s, k), m) == Newer(s, m);
    } else {
      var x :| x in Newer(s, m) && x !in Newest(s, k);
      assert Newer(s, x) <= Newer(s, m) - {x};
      NoLarger(Newer(s, x), Newer(s, m) - {x});
      NewerSurvive(s, x, k);
      NoLarger(Newer(Newest(s, k), x), Newer(Newest(s, k), m));
    }
  }

  /** Truncating before a union changes nothing about the newest `k` of the union. */
  lemma NewestOfNewest(s: set<Message>, t: set<Message>, k: nat)
    ensures Newest(Newest(s, k) + t, k) == Newest(s + t, k)
  {
    var cut, all := Newest(s, k) + t, s + t;
    forall m | m in Newest(cut, k) ensures m in Newest(all, k) {
      if x :| x in Newer(all, m) && x !in cut {
        NewerSurvive(s, x, k);
        NoLarger(Newer(Newest(s, k), x), Newer(cut, m));
      } else {
        NoLarger(Newer(all, m), Newer(cut, m));
      }
    }
    forall m | m in Newest(all, k) ensures m in Newest(cut, k) {
      NoLarger(Newer(cut, m), Newer(all, m));
      NoLarger(Newer(s, m), Newer(all, m));
    }
  }

  /** Leaving out messages that are not among the newest changes nothing either. */
  lemma NewestOfPart(s: set<Message>, t: set<Message>, k: nat)
    requires s <= t && Newest(t, k) <= s
    ensures Newest(s, k) == Newest(t, k)
  {
    forall m | m in Newest(t, k) ensures m in Newest(s, k) {
      NoLarger(Newer(s, m), Newer(t, m));
    }
    forall m | m in Newest(s, k) ensures m in Newest(t, k) {
      if |Newer(t, m)| >= k {
        NewerSurvive(t, m, k);
        NoLarger(Newer(Newest(t, k), m), Newer(s, m));
      }
    }
  }

  // ---- truncated logs still form a semilattice ----

  /** A log sorted by time, within the cap, of messages from `all`. */
  ghost predicate GoodLog(log: seq<Message>, k: nat, all: set<Message>) {
    Ascending(log) && |log| <= k && Elements(log) <= all
  }

  ghost function GoodLogs(k: nat, all: set<Message>): seq<Message> -> bool {
    log => GoodLog(log, k, all)
  }

  ghost predicate Identified(stamp: Stamp, all: set<Message>) {
    Readable(stamp, all) && DistinctTimes(all)
  }

  function LogMerge(k: nat, stamp: Stamp): (seq<Message>, seq<Message>) -> seq<Message> {
    (a, b) => MergeLogs(a, b, k, ContentAgentTime, stamp)
  }

  lemma MergeStaysGood(a: seq<Message>, b: seq<Message>, k: nat, stamp: Stamp, all: set<Message>)
    requires Identified(stamp, all) && GoodLog(a, k, all) && GoodLog(b, k, all)
    ensures GoodLog(MergeLogs(a, b, k, ContentAgentTime, stamp), k, all)
    ensures Elements(MergeLogs(a, b, k, ContentAgentTime, stamp)) == Newest(Elements(a) + Elements(b), k)
  {
    MergeKeepsNewest(a, b, k, stamp);
  }

  lemma ShortLogIsNewest(a: seq<Message>, k: nat)
    requires Ascending(a) && |a| <= k
    ensures Newest(Elements(a), k) == Elements(a)
  {
    LastKIsNewest(a, k);
  }

  lemma LogLaws(a: seq<Message>, b: seq<Message>, c: seq<Message>, k: nat, stamp: Stamp, all: set<Message>)
    requires Identified(stamp, all) && GoodLog(a, k, all) && GoodLog(b, k, all) && GoodLog(c, k, all)
    ensures Laws(LogMerge(k, stamp), GoodLogs(k, all), a, b, c)
  {
    var merge := LogMerge(k, stamp);
    var x, y, z := Elements(a), Elements(b), Elements(c);
    MergeStaysGood(a, b, k, stamp, all);
    MergeStaysGood(b, a, k, stamp, all);
    assert x + y == y + x;
    AscendingUnique(merge(a, b), merge(b, a));
    MergeStaysGood(a, a, k, stamp, all);
    assert x + x == x;
    ShortLogIsNewest(a, k);
    AscendingUnique(merge(a, a), a);
    MergeStaysGood(b, c, k, stamp, all);
    MergeStaysGood(merge(a, b), c, k, stamp, all);
    MergeStaysGood(a, merge(b, c), k, stamp, all);
    NewestOfNewest(x + y, z, k);
    NewestOfNewest(y + z, x, k);
    assert x + y + z == y + z + x && x + Newest(y + z, k) == Newest(y + z, k) + x;
    AscendingUnique(merge(merge(a, b), c), merge(a, merge(b, c)));
  }

  /** Bounded logs with a common cap converge like any other replicated state. */
  lemma LogsConverge(t: Tree<seq<Message>>, u: Tree<seq<Message>>, k: nat, stamp: Stamp, all: set<Message>)
    requires Identified(stamp, all) && Leaves(t) == Leaves(u)
    requires forall log | log in Leaves(t) :: GoodLog(log, k, all)
    ensures MergeAll(t, LogMerge(k, stamp)) == MergeAll(u, LogMerge(k, stamp))
  {
    var good := GoodLogs(k, all);
    forall a, b, c | good(a) && good(b) && good(c) ensures Laws(LogMerge(k, stamp), good, a, b, c) {
      LogLaws(a, b, c, k, stamp, all);
    }
    TreesConverge(t, u, LogMerge(k, stamp), good);
  }
}
