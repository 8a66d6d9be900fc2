/**
 Merkle trees over keyed records: the bottom-up build, the shape it gives, and what equality of
 root hashes says.

 `sha` is the hash from text to hexadecimal text and `content` the hash of a record without its
 key. `Ideal` asks of `sha` that it has no collisions; content hashes are taken of JSON objects,
 whose text starts with a brace, and inner hashes of hexadecimal text joined by bars.
*/
module Merkle {

  type Key = string

  type Sha = string -> string

  // ---- hashing ----

  predicate HexDigit(c: char) {
    '0' <= c <= '9' || 'a' <= c <= 'f'
  }

  predicate Hex(s: string) {
    s != [] && forall i | 0 <= i < |s| :: HexDigit(s[i])
  }

  predicate AllHex(hs: seq<string>) {
    forall h | h in hs :: Hex(h)
  }

  ghost predicate Ideal(sha: Sha) {
    && (forall x, y :: sha(x) == sha(y) ==> x == y)
    && (forall x :: Hex(sha(x)))
  }

  ghost predicate ContentHash(sha: Sha, h: string) {
    exists json: string :: json != [] && json[0] == '{' && h == sha(json)
  }

  ghost predicate ContentHashes(sha: Sha, hs: seq<string>) {
    forall h | h in hs :: ContentHash(sha, h)
  }

  function Join(hs: seq<string>): string {
    if hs == [] then "" else if |hs| == 1 then hs[0] else hs[0] + "|" + Join(hs[1..])
  }

  /** Texts are joined by bars. */
  lemma {:induction false} JoinAppends(hs: seq<string>, h: string)
    ensures Join([h]) == h
    ensures hs != [] ==> Join(hs + [h]) == Join(hs) + "|" + h
    decreases |hs|
  {
    if |hs| == 1 {
      assert hs + [h] == [hs[0], h] && [hs[0], h][1..] == [h];
    } else if hs != [] {
      assert (hs + [h])[1..] == hs[1..] + [h];
      JoinAppends(hs[1..], h);
      assert hs[0] + "|" + (Join(hs[1..]) + "|" + h) == hs[0] + "|" + Join(hs[1..]) + "|" + h;
    }
  }

  function HashChildren(sha: Sha, hs: seq<string>): string {
    sha(Join(hs))
  }

  const EMPTY_INPUT := "empty"

  /** The first text ends where the first bar stands. */
  lemma FirstBar(hs: seq<string>)
    requires hs != [] && AllHex(hs)
    ensures var s, n := Join(hs), |hs[0]|;
            && n <= |s| && s[..n] == hs[0] && (forall i | 0 <= i < n :: s[i] != '|')
            && (if |hs| == 1 then |s| == n else n < |s| && s[n] == '|' && s[n + 1..] == Join(hs[1..]))
  {
    assert hs[0] in hs;
  }

  /** Bars separate hexadecimal texts unambiguously. */
  lemma {:induction false} JoinInjective(a: seq<string>, b: seq<string>)
    requires a != [] && b != [] && AllHex(a) && AllHex(b) && Join(a) == Join(b)
    ensures a == b
    decreases |a|
  {
    FirstBar(a);
    FirstBar(b);
    assert a[0] == b[0];
    if |a| > 1 && |b| > 1 {
      JoinInjective(a[1..], b[1..]);
    }
    assert a == [a[0]] + a[1..] && b == [b[0]] + b[1..];
  }

  /** An inner hash is never a content hash, nor the hash that stands for the empty tree. */
  lemma InnerIsNotContent(sha: Sha, hs: seq<string>)
    requires Ideal(sha) && hs != [] && AllHex(hs)
    ensures !ContentHash(sha, HashChildren(sha, hs))
    ensures HashChildren(sha, hs) != sha(EMPTY_INPUT)
  {
    assert hs[0] in hs;
    FirstBar(hs);
    var s := Join(hs);
    assert s[0] == hs[0][0];
    assert |hs[0]| > 1 ==> s[1] == hs[0][1];
    assert EMPTY_INPUT[1] == 'm';
  }

  lemma ContentIsNotEmpty(sha: Sha, h: string)
    requires Ideal(sha) && ContentHash(sha, h)
    ensures h != sha(EMPTY_INPUT)
  {
  }

  // ---- levels of hashes ----

  function GroupSize(n: nat, b: nat): nat {
    if n <= b then n else b
  }

  /** The next level up: one hash per group of at most `b` neighbours. */
  function Up(sha: Sha, hs: seq<string>, b: nat): (up: seq<string>)
    requires b >= 2
    ensures hs != [] ==> up != []
    ensures |up| <= |hs| && (|hs| > 1 ==> |up| < |hs|)
    decreases |hs|
  {
    if hs == [] then []
    else var m := GroupSize(|hs|, b); [HashChildren(sha, hs[..m])] + Up(sha, hs[m..], b)
  }

  function RootHash(sha: Sha, hs: seq<string>, b: nat): string
    requires b >= 2 && hs != []
    decreases |hs|
  {
    if |hs| == 1 then hs[0] else RootHash(sha, Up(sha, hs, b), b)
  }

  /** The number of levels above and including a level of `n` nodes. */
  function Levels(sha: Sha, hs: seq<string>, b: nat): (l: nat)
    requires b >= 2 && hs != []
    ensures l >= 1
    decreases |hs|
  {
    if |hs| == 1 then 1 else 1 + Levels(sha, Up(sha, hs, b), b)
  }

  lemma {:induction false} UpIsInner(sha: Sha, hs: seq<string>, b: nat)
    requires b >= 2 && Ideal(sha) && AllHex(hs)
    ensures AllHex(Up(sha, hs, b))
    ensures forall h | h in Up(sha, hs, b) :: !ContentHash(sha, h) && h != sha(EMPTY_INPUT)
    decreases |hs|
  {
    if hs != [] {
      var m := GroupSize(|hs|, b);
      InnerIsNotContent(sha, hs[..m]);
      UpIsInner(sha, hs[m..], b);
    }
  }

  /** Equal upper levels come from equal lower levels, whatever the branching factors. */
  lemma {:induction false} UpInjective(sha: Sha, hs: seq<string>, b: nat, gs: seq<string>, c: nat)
    requires b >= 2 && c >= 2 && Ideal(sha) && AllHex(hs) && AllHex(gs)
    requires Up(sha, hs, b) == Up(sha, gs, c)
    ensures hs == gs
    decreases |hs|
  {
    if hs != [] && gs != [] {
      var m, n := GroupSize(|hs|, b), GroupSize(|gs|, c);
      var u, v := Up(sha, hs, b), Up(sha, gs, c);
      assert u[0] == HashChildren(sha, hs[..m]) && v[0] == HashChildren(sha, gs[..n]);
      JoinInjective(hs[..m], gs[..n]);
      assert u[1..] == Up(sha, hs[m..], b) && v[1..] == Up(sha, gs[n..], c);
      UpInjective(sha, hs[m..], b, gs[n..], c);
      assert hs == hs[..m] + hs[m..] && gs == gs[..n] + gs[n..];
    }
  }

  lemma {:induction false} SameLevelsInjective(sha: Sha, hs: seq<string>, b: nat, gs: seq<string>, c: nat)
    requires b >= 2 && c >= 2 && Ideal(sha) && hs != [] && gs != [] && AllHex(hs) && AllHex(gs)
    requires Levels(sha, hs, b) == Levels(sha, gs, c) && RootHash(sha, hs, b) == RootHash(sha, gs, c)
    ensures hs == gs
    decreases |hs|
  {
    if |hs| > 1 {
      UpIsInner(sha, hs, b);
      UpIsInner(sha, gs, c);
      SameLevelsInjective(sha, Up(sha, hs, b), b, Up(sha, gs, c), c);
      UpInjective(sha, hs, b, gs, c);
    }
  }

  /** A level of content hashes is never the top of a taller tree. */
  lemma {:induction false} TallerDiffers(sha: Sha, hs: seq<string>, b: nat, gs: seq<string>, c: nat)
    requires b >= 2 && c >= 2 && Ideal(sha) && hs != [] && gs != [] && AllHex(gs)
    requires ContentHashes(sha, hs) && Levels(sha, hs, b) < Levels(sha, gs, c)
    ensures RootHash(sha, hs, b) != RootHash(sha, gs, c)
    decreases |gs|
  {
    var up := Up(sha, gs, c);
    UpIsInner(sha, gs, c);
    assert up[0] in up && hs[0] in hs;
    if Levels(sha, hs, b) < Levels(sha, up, c) {
      TallerDiffers(sha, hs, b, up, c);
    } else if RootHash(sha, hs, b) == RootHash(sha, up, c) {
      SameLevelsInjective(sha, hs, b, up, c);
    }
  }

  /** Equal roots mean equal content sequences; for one branching factor the converse holds too. */
  lemma RootsEqualIffContentsEqual(sha: Sha, hs: seq<string>, b: nat, gs: seq<string>, c: nat)
    requires b >= 2 && c >= 2 && Ideal(sha) && hs != [] && gs != []
    requires ContentHashes(sha, hs) && ContentHashes(sha, gs)
    ensures RootHash(sha, hs, b) == RootHash(sha, gs, c) ==> hs == gs
    ensures b == c ==> (RootHash(sha, hs, b) == RootHash(sha, gs, c) <==> hs == gs)
  {
    if Levels(sha, hs, b) < Levels(sha, gs, c) {
      TallerDiffers(sha, hs, b, gs, c);
    } else if Levels(sha, gs, c) < Levels(sha, hs, b) {
      TallerDiffers(sha, gs, c, hs, b);
    } else if RootHash(sha, hs, b) == RootHash(sha, gs, c) {
      SameLevelsInjective(sha, hs, b, gs, c);
    }
  }

  lemma RootIsNotEmptyHash(sha: Sha, hs: seq<string>, b: nat)
    requires b >= 2 && Ideal(sha) && hs != [] && ContentHashes(sha, hs)
    ensures RootHash(sha, hs, b) != sha(EMPTY_INPUT)
  {
    if |hs| == 1 {
      assert hs[0] in hs;
      ContentIsNotEmpty(sha, hs[0]);
    } else {
      InnerRootIsNotEmpty(sha, hs, b);
    }
  }

  lemma {:induction false} InnerRootIsNotEmpty(sha: Sha, hs: seq<string>, b: nat)
    requires b >= 2 && Ideal(sha) && |hs| > 1 && AllHex(hs)
    ensures RootHash(sha, hs, b) != sha(EMPTY_INPUT)
    decreases |hs|
  {
    UpIsInner(sha, hs, b);
    var up := Up(sha, hs, b);
    if |up| == 1 {
      assert up[0] in up;
    } else {
      InnerRootIsNotEmpty(sha, up, b);
    }
  }

  // ---- nodes and the build ----

  datatype Node =
    | Leaf(hash: string, key: Key)
    | Inner(hash: string, children: seq<Node>, low: Key, high: Key, count: nat)

  function Low(n: Node): Key {
    if n.Leaf? then n.key else n.low
  }

  function High(n: Node): Key {
    if n.Leaf? then n.key else n.high
  }

  function Count(n: Node): nat {
    if n.Leaf? then 1 else n.count
  }

  function Hashes(ns: seq<Node>): (hs: seq<string>)
    ensures |hs| == |ns| && forall i | 0 <= i < |ns| :: hs[i] == ns[i].hash
  {
    seq(|ns|, i requires 0 <= i < |ns| => ns[i].hash)
  }

  function TotalCount(ns: seq<Node>): nat {
    if ns == [] then 0 else Count(ns[0]) + TotalCount(ns[1..])
  }

  function Parent(sha: Sha, group: seq<Node>): Node
    requires group != []
  {
    Inner(HashChildren(sha, Hashes(group)), group, Low(group[0]), High(group[|group| - 1]), TotalCount(group))
  }

  function NextLevel(sha: Sha, level: seq<Node>, b: nat): (next: seq<Node>)
    requires b >= 2
    ensures level != [] ==> next != []
    ensures |next| <= |level| && (|level| > 1 ==> |next| < |level|)
    decreases |level|
  {
    if level == [] then []
    else var m := GroupSize(|level|, b); [Parent(sha, level[..m])] + NextLevel(sha, level[m..], b)
  }

  function Members(next: seq<Node>): seq<Node> {
    if next == [] then [] else (if next[0].Inner? then next[0].children else []) + Members(next[1..])
  }

  /** A level is cut from the left into groups of `b`, the last one taking what is left, and every group becomes one
      node that hashes its members' hashes joined by bars. */
  lemma {:induction false} LevelCut(sha: Sha, level: seq<Node>, b: nat)
    requires b >= 2
    ensures var next := NextLevel(sha, level, b);
            && Members(next) == level
            && (forall i | 0 <= i < |next| :: next[i].Inner? && next[i].hash == sha(Join(Hashes(next[i].children))))
            && (forall i | 0 <= i < |next| - 1 :: |next[i].children| == b)
    decreases |level|
  {
    if level != [] {
      var m := GroupSize(|level|, b);
      LevelCut(sha, level[m..], b);
      LevelCons(sha, level[..m], NextLevel(sha, level[m..], b));
      assert level == level[..m] + level[m..];
    }
  }

  lemma LevelCons(sha: Sha, group: seq<Node>, rest: seq<Node>)
    requires group != []
    ensures Members([Parent(sha, group)] + rest) == group + Members(rest)
  {
    assert ([Parent(sha, group)] + rest)[1..] == rest;
  }

  function Build(sha: Sha, level: seq<Node>, b: nat): Node
    requires b >= 2 && level != []
    decreases |level|
  {
    if |level| == 1 then level[0] else Build(sha, NextLevel(sha, level, b), b)
  }

  lemma HashesSplit(level: seq<Node>, m: nat)
    requires m <= |level|
    ensures Hashes(level[..m]) == Hashes(level)[..m] && Hashes(level[m..]) == Hashes(level)[m..]
  {
  }

  lemma HashesCons(head: Node, tail: seq<Node>)
    ensures Hashes([head] + tail) == [head.hash] + Hashes(tail)
  {
  }

  lemma {:induction false} NextLevelHashes(sha: Sha, level: seq<Node>, b: nat)
    requires b >= 2
    ensures Hashes(NextLevel(sha, level, b)) == Up(sha, Hashes(level), b)
    decreases |level|
  {
    if level != [] {
      var m := GroupSize(|level|, b);
      NextLevelHashes(sha, level[m..], b);
      var head, tail := Parent(sha, level[..m]), NextLevel(sha, level[m..], b);
      HashesSplit(level, m);
      HashesCons(head, tail);
    }
  }

  /** The root's hash depends on the sequence of leaf hashes alone. */
  lemma {:induction false} BuildHash(sha: Sha, level: seq<Node>, b: nat)
    requires b >= 2 && level != []
    ensures Build(sha, level, b).hash == RootHash(sha, Hashes(level), b)
    decreases |level|
  {
    if |level| > 1 {
      NextLevelHashes(sha, level, b);
      BuildHash(sha, NextLevel(sha, level, b), b);
    }
  }

  // ---- shape ----

  function Fringe(n: Node): seq<Node>
    decreases n, 1
  {
    match n
    case Leaf(_, _) => [n]
    case Inner(_, cs, _, _, _) => FringeAll(cs)
  }

  function FringeAll(ns: seq<Node>): seq<Node>
    decreases ns, 0
  {
    if ns == [] then [] else Fringe(ns[0]) + FringeAll(ns[1..])
  }

  /** All leaves at depth `h`, one to `b` children, exact counts, and the key range of the leaves below. */
  ghost predicate Shaped(n: Node, h: nat, b: nat)
    decreases h
  {
    match n
    case Leaf(_, _) => h == 1
    case Inner(_, cs, lo, hi, c) =>
      && h > 1 && 1 <= |cs| <= b
      && (forall x | x in cs :: Shaped(x, h - 1, b))
      && c == |Fringe(n)| > 0 && lo == Low(Fringe(n)[0]) && hi == High(Fringe(n)[c - 1])
  }

  ghost predicate AllShaped(ns: seq<Node>, h: nat, b: nat) {
    forall n | n in ns :: Shaped(n, h, b)
  }

  ghost predicate AllLeaves(ns: seq<Node>) {
    forall n | n in ns :: n.Leaf?
  }

  lemma {:induction false} FringeAppends(a: seq<Node>, c: seq<Node>)
    ensures FringeAll(a + c) == FringeAll(a) + FringeAll(c)
    decreases |a|
  {
    if a == [] {
      assert a + c == c;
    } else {
      assert (a + c)[1..] == a[1..] + c;
      FringeAppends(a[1..], c);
    }
  }

  lemma {:induction false} FringeOfLeaves(ns: seq<Node>)
    requires AllLeaves(ns)
    ensures FringeAll(ns) == ns
    decreases |ns|
  {
    if ns != [] {
      assert ns[0] in ns;
      FringeOfLeaves(ns[1..]);
    }
  }

  lemma {:induction false} FringeIsLeaves(n: Node, h: nat, b: nat)
    requires Shaped(n, h, b)
    ensures AllLeaves(Fringe(n)) && Count(n) == |Fringe(n)| > 0
    ensures Low(n) == Low(Fringe(n)[0]) && High(n) == High(Fringe(n)[|Fringe(n)| - 1])
    decreases h, 1, 0
  {
    if n.Inner? { FringeAllLeaves(n.children, h - 1, b); }
  }

  lemma {:induction false} FringeAllLeaves(ns: seq<Node>, h: nat, b: nat)
    requires AllShaped(ns, h, b)
    ensures AllLeaves(FringeAll(ns)) && TotalCount(ns) == |FringeAll(ns)|
    decreases h, 2, |ns|
  {
    if ns != [] {
      assert ns[0] in ns;
      FringeIsLeaves(ns[0], h, b);
      FringeAllLeaves(ns[1..], h, b);
    }
  }

  /** The fringe of a group starts in its first node and ends in its last. */
  lemma {:induction false} FringeEnds(group: seq<Node>, h: nat, b: nat)
    requires group != [] && AllShaped(group, h, b)
    ensures |FringeAll(group)| > 0
    ensures Low(FringeAll(group)[0]) == Low(group[0])
    ensures High(FringeAll(group)[|FringeAll(group)| - 1]) == High(group[|group| - 1])
    decreases |group|
  {
    assert group[0] in group;
    FringeIsLeaves(group[0], h, b);
    var rest := group[1..];
    assert FringeAll(group) == Fringe(group[0]) + FringeAll(rest);
    if rest != [] {
      FringeEnds(rest, h, b);
    }
  }

  /** A parent of a shaped group is shaped one level higher over the same leaves. */
  lemma ParentShaped(sha: Sha, group: seq<Node>, h: nat, b: nat)
    requires 1 <= |group| <= b && h >= 1 && AllShaped(group, h, b)
    ensures Shaped(Parent(sha, group), h + 1, b) && Fringe(Parent(sha, group)) == FringeAll(group)
  {
    FringeEnds(group, h, b);
    FringeAllLeaves(group, h, b);
  }

  lemma ShapedAfter(first: Node, others: seq<Node>, h: nat, b: nat)
    requires Shaped(first, h, b) && AllShaped(others, h, b)
    ensures AllShaped([first] + others, h, b) && FringeAll([first] + others) == Fringe(first) + FringeAll(others)
  {
    assert ([first] + others)[1..] == others;
  }

  lemma PartsShaped(level: seq<Node>, m: nat, h: nat, b: nat)
    requires AllShaped(level, h, b) && m <= |level|
    ensures AllShaped(level[..m], h, b) && AllShaped(level[m..], h, b)
    ensures FringeAll(level) == FringeAll(level[..m]) + FringeAll(level[m..])
  {
    assert level == level[..m] + level[m..];
    FringeAppends(level[..m], level[m..]);
  }

  lemma FirstGroup(sha: Sha, level: seq<Node>, b: nat)
    requires b >= 2 && level != []
    ensures var m := GroupSize(|level|, b);
            NextLevel(sha, level, b) == [Parent(sha, level[..m])] + NextLevel(sha, level[m..], b)
  {
  }

  lemma {:induction false} NextLevelShaped(sha: Sha, level: seq<Node>, h: nat, b: nat)
    requires b >= 2 && h >= 1 && AllShaped(level, h, b)
    ensures AllShaped(NextLevel(sha, level, b), h + 1, b)
    ensures FringeAll(NextLevel(sha, level, b)) == FringeAll(level)
    decreases |level|
  {
    if level != [] {
      var m := GroupSize(|level|, b);
      PartsShaped(level, m, h, b);
      ParentShaped(sha, level[..m], h, b);
      NextLevelShaped(sha, level[m..], h, b);
      ShapedAfter(Parent(sha, level[..m]), NextLevel(sha, level[m..], b), h + 1, b);
      FirstGroup(sha, level, b);
    }
  }

  /** How many groups of at most `b` cover `n` nodes: `n / b` rounded up, see `GroupsIsCeiling`. */
  function Groups(n: nat, b: nat): (g: nat)
    requires b >= 2
    ensures n >= 1 ==> g >= 1
    ensures g <= n && (n >= 2 ==> g < n)
  {
    if n == 0 then 0 else if n <= b then 1 else 1 + Groups(n - b, b)
  }

  lemma {:induction false} GroupsIsCeiling(n: nat, b: nat, p: nat)
    requires b >= 2
    ensures Groups(n, b) <= p <==> n <= b * p
    decreases n
  {
    if p == 0 {
      assert b * p == 0;
    } else {
      assert b * p == b + b * (p - 1) && b * (p - 1) >= 0;
      if n > b {
        GroupsIsCeiling(n - b, b, p - 1);
      }
    }
  }

  /** The number of levels the build makes over `n` nodes. */
  function Height(n: nat, b: nat): (h: nat)
    requires n >= 1 && b >= 2
    ensures h >= 1
    decreases n
  {
    if n == 1 then 1 else 1 + Height(Groups(n, b), b)
  }

  lemma {:induction false} NextLevelLength(sha: Sha, level: seq<Node>, b: nat)
    requires b >= 2
    ensures |NextLevel(sha, level, b)| == Groups(|level|, b)
    decreases |level|
  {
    if level != [] {
      var m := GroupSize(|level|, b);
      var rest := level[m..];
      NextLevelLength(sha, rest, b);
      FirstGroup(sha, level, b);
    }
  }

  /** `top` is the depth of the whole tree over a level of nodes of depth `h`. */
  lemma {:induction false} BuildShaped(sha: Sha, level: seq<Node>, h: nat, b: nat, top: nat)
    requires b >= 2 && h >= 1 && level != [] && AllShaped(level, h, b)
    requires top + 1 == h + Height(|level|, b)
    ensures Shaped(Build(sha, level, b), top, b)
    ensures Fringe(Build(sha, level, b)) == FringeAll(level)
    decreases |level|
  {
    if |level| == 1 {
      assert level[0] in level;
      assert FringeAll(level) == Fringe(level[0]);
    } else {
      var next := NextLevel(sha, level, b);
      NextLevelLength(sha, level, b);
      NextLevelShaped(sha, level, h, b);
      BuildShaped(sha, next, h + 1, b, top);
      assert Build(sha, level, b) == Build(sha, next, b);
    }
  }

  /** Over any leaves: they all stand, in order, at one depth, with exact counts, ranges and fan-out below every node. */
  lemma BuildOverLeaves(sha: Sha, leaves: seq<Node>, b: nat)
    requires b >= 2 && leaves != [] && AllLeaves(leaves)
    ensures Shaped(Build(sha, leaves, b), Height(|leaves|, b), b)
    ensures Fringe(Build(sha, leaves, b)) == leaves
  {
    BuildShaped(sha, leaves, 1, b, Height(|leaves|, b));
    FringeOfLeaves(leaves);
  }

  function Pow(b: nat, e: nat): nat {
    if e == 0 then 1 else b * Pow(b, e - 1)
  }

  /** The height is the least `h` with `b^(h-1) >= n`. */
  lemma {:induction false} HeightIsLeast(n: nat, b: nat, h: nat)
    requires n >= 1 && b >= 2 && h >= 1
    ensures Pow(b, h - 1) >= n <==> Height(n, b) <= h
    decreases n
  {
    if n == 1 {
      PowPositive(b, h - 1);
    } else {
      if h > 1 {
        HeightIsLeast(Groups(n, b), b, h - 1);
        GroupsIsCeiling(n, b, Pow(b, h - 2));
      }
    }
  }

  lemma {:induction false} PowPositive(b: nat, e: nat)
    requires b >= 2
    ensures Pow(b, e) >= 1
  {
    if e > 0 { PowPositive(b, e - 1); }
  }
}
