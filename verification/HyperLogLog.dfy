/**
 The HyperLogLog sketch: registers fed by hashes and merged by taking the larger rank.

 `hash` is the 64-bit hash of an item; the cardinality formula is not modelled.
*/
module HyperLogLog {
  import opened Bits
  import opened Feeds

  const WORD: nat := 0x1_0000_0000_0000_0000

  type Word = x: nat | x < WORD witness 0

  type Registers = seq<nat>

  // ---- rank of a hash ----

  /** Digits of zero from digit `bits - 1` down to the first one. */
  function Scan(value: nat, bits: nat): (count: nat)
    ensures count <= bits
  {
    if bits == 0 || Bit(value, bits - 1) then 0 else 1 + Scan(value, bits - 1)
  }

  function LeadingZeros(value: nat, bits: nat): nat {
    if value == 0 then bits else Scan(value, bits)
  }

  method CountLeadingZeros(value: nat, bits: nat) returns (count: nat)
    ensures count == LeadingZeros(value, bits)
  {
    if value == 0 {
      return bits;
    }
    count := 0;
    var i: nat := bits;
    while i > 0 && !Bit(value, i - 1)
      invariant i <= bits && count + Scan(value, i) == Scan(value, bits)
    {
      count, i := count + 1, i - 1;
    }
  }

  function IndexOf(p: nat, h: Word): nat
    requires p <= 64
  {
    Quotient(h, Pow2(64 - p))
  }

  function Remaining(p: nat, h: Word): nat {
    h * Pow2(p) % WORD
  }

  function RankOf(p: nat, h: Word): (rank: nat)
    requires p <= 64
    ensures 1 <= rank
  {
    LeadingZeros(Remaining(p, h), 64 - p) + 1
  }

  lemma IndexInRange(p: nat, h: Word)
    requires p <= 64
    ensures IndexOf(p, h) < Pow2(p)
  {
    Pow2Adds(64 - p, p);
    Pow2Of64();
    QuotientBelow(h, Pow2(64 - p), Pow2(p));
  }

  /** The index is the number that the `p` highest digits of the hash make. */
  lemma IndexIsTopDigits(p: nat, h: Word)
    requires p <= 64
    ensures IndexOf(p, h) * Pow2(64 - p) <= h < (IndexOf(p, h) + 1) * Pow2(64 - p)
  {
    var m, q := Pow2(64 - p), IndexOf(p, h);
    assert (q + 1) * m == m * q + m;
  }

  lemma RemainingBit(p: nat, h: Word, i: nat)
    requires i < 64
    ensures Bit(Remaining(p, h), i) <==> i >= p && Bit(h, i - p)
  {
    Pow2Of64();
    BitOfMod(h * Pow2(p), 64, i);
    BitOfShift(h, p, i);
  }

  lemma {:induction false} NoBits(x: nat, n: nat)
    requires forall i: nat | i < n :: !Bit(x, i)
    ensures Scan(x, n) == n && x % Pow2(n) == 0
  {
    if n > 0 {
      NoBits(x, n - 1);
      TopBit(x, n);
    }
  }

  /** The scan finds the highest one among the lowest `n` digits. */
  lemma {:induction false} ScanMeaning(x: nat, n: nat)
    ensures Scan(x, n) == n ==> x % Pow2(n) == 0
    ensures Scan(x, n) < n ==> Pow2(n - Scan(x, n) - 1) <= x % Pow2(n) < Pow2(n - Scan(x, n))
  {
    if n > 0 {
      TopBit(x, n);
      ScanMeaning(x, n - 1);
    }
  }

  lemma {:induction false} ScanRemaining(p: nat, h: Word, n: nat)
    requires n + p <= 64
    ensures Scan(h, n) < n ==> Scan(Remaining(p, h), n + p) == Scan(h, n)
    ensures Scan(h, n) == n ==> Scan(Remaining(p, h), n + p) == n + p
  {
    if n == 0 {
      forall i: nat | i < p ensures !Bit(Remaining(p, h), i) {
        RemainingBit(p, h, i);
      }
      NoBits(Remaining(p, h), p);
    } else {
      RemainingBit(p, h, n + p - 1);
      ScanRemaining(p, h, n - 1);
    }
  }

  lemma {:induction false} ScanOfZero(n: nat)
    ensures Scan(0, n) == n
  {
    if n > 0 {
      BitOfZero(n - 1);
      ScanOfZero(n - 1);
    }
  }

  lemma {:induction false} BitOfZero(i: nat)
    ensures !Bit(0, i)
  {
    if i > 0 { BitOfZero(i - 1); }
  }

  /** The rank is that of the lowest 64 - 2p digits: the p digits after the index are never looked at, and a hash
      whose looked-at digits are all zero skips to 65 - p. */
  lemma RankMeaning(p: nat, h: Word)
    requires 4 <= p <= 18
    ensures var seen := 64 - 2 * p;
            var low, rank := h % Pow2(seen), RankOf(p, h);
            if low == 0 then rank == 65 - p else rank <= seen && Pow2(seen - rank) <= low < Pow2(seen - rank + 1)
  {
    var seen := 64 - 2 * p;
    ScanMeaning(h, seen);
    ScanRemaining(p, h, seen);
    ScanOfZero(64 - p);
  }

  /** The number the comment promises: leading zeros, plus one, of all the digits after the index. */
  function PromisedRank(p: nat, h: Word): nat
    requires p <= 64
  {
    Scan(h, 64 - p) + 1
  }

  lemma {:induction false} ScanStops(x: nat, m: nat, n: nat)
    requires m <= n
    ensures Scan(x, n) <= n - m || Scan(x, n) == n - m + Scan(x, m)
    decreases n
  {
    if m < n {
      ScanStops(x, m, n - 1);
    }
  }

  /** The rank is the promised one exactly for hashes whose digits after the index are all zero, or whose first one
      stands as far into those digits as into the looked-at ones. */
  lemma RankKeptIff(p: nat, h: Word)
    requires 4 <= p <= 18
    ensures RankOf(p, h) == PromisedRank(p, h) <==>
            h % Pow2(64 - p) == 0 || Scan(h, 64 - p) == Scan(h, 64 - 2 * p) < 64 - 2 * p
  {
    var seen, all := 64 - 2 * p, 64 - p;
    ScanRemaining(p, h, seen);
    ScanOfZero(all);
    ScanMeaning(h, all);
    ScanMeaning(h, seen);
    ScanStops(h, seen, all);
    AllZeroIff(h, all);
  }

  lemma AllZeroIff(x: nat, n: nat)
    ensures x % Pow2(n) == 0 <==> Scan(x, n) == n
  {
    ScanMeaning(x, n);
  }

  /** The promise fails: a hash with only the first digit after the index set gets the highest rank, not the lowest. */
  lemma FirstDigitUnseen(p: nat)
    requires 4 <= p <= 18
    ensures Pow2(63 - p) < WORD
    ensures PromisedRank(p, Pow2(63 - p)) == 1
    ensures RankOf(p, Pow2(63 - p)) == 65 - p
  {
    var h := Pow2(63 - p);
    Pow2Of64();
    Pow2Adds(63 - p, p + 1);
    Less(h, Pow2(p + 1));
    Pow2Adds(64 - 2 * p, p - 1);
    DivModUnique(h, Pow2(64 - 2 * p), Pow2(p - 1), 0);
    RankMeaning(p, h);
    BitOfShift(1, 63 - p, 63 - p);
  }

  lemma Less(a: nat, b: nat)
    requires a >= 1 && b >= 2
    ensures a < a * b
  {
    Multiple(a, b - 1);
    assert a * b == a * (b - 1) + a;
  }

  // ---- registers ----

  function Zeros(p: nat): (r: Registers)
    ensures |r| == Pow2(p) && forall i | 0 <= i < |r| :: r[i] == 0
  {
    seq(Pow2(p), i => 0)
  }

  function AfterAdd(p: nat, r: Registers, h: Word): (s: Registers)
    requires p <= 64 && |r| == Pow2(p)
    ensures |s| == Pow2(p)
  {
    IndexInRange(p, h);
    var i := IndexOf(p, h);
    r[i := Max(r[i], RankOf(p, h))]
  }

  function Larger(r: Registers, s: Registers): (t: Registers)
    requires |r| == |s|
    ensures |t| == |r|
  {
    seq(|r|, i requires 0 <= i < |r| => Max(r[i], s[i]))
  }

  /** The registers a feed leaves behind. */
  function RegistersOf<T>(p: nat, hash: T -> Word, f: Feed<T>): (r: Registers)
    requires p <= 64
    ensures |r| == Pow2(p)
  {
    match f
    case Start => Zeros(p)
    case Added(rest, item) => AfterAdd(p, RegistersOf(p, hash, rest), hash(item))
    case Joined(left, right) => Larger(RegistersOf(p, hash, left), RegistersOf(p, hash, right))
  }

  /** `v` is the largest rank of the items whose index is `i`, zero if there are none. */
  ghost predicate LargestRank<T(!new)>(p: nat, hash: T -> Word, items: set<T>, i: nat, v: nat)
    requires p <= 64
  {
    && (forall x | x in items && IndexOf(p, hash(x)) == i :: RankOf(p, hash(x)) <= v)
    && (v == 0 || exists x :: x in items && IndexOf(p, hash(x)) == i && RankOf(p, hash(x)) == v)
  }

  lemma {:induction false} RegistersHoldLargest<T(!new)>(p: nat, hash: T -> Word, f: Feed<T>, i: nat)
    requires p <= 64 && i < Pow2(p)
    ensures LargestRank(p, hash, Items(f), i, RegistersOf(p, hash, f)[i])
  {
    match f
    case Start =>
    case Added(rest, item) =>
      RegistersHoldLargest(p, hash, rest, i);
      AddedLargest(p, hash, Items(rest), item, i, RegistersOf(p, hash, rest)[i]);
    case Joined(left, right) =>
      RegistersHoldLargest(p, hash, left, i);
      RegistersHoldLargest(p, hash, right, i);
      JoinedLargest(p, hash, Items(left), Items(right), i, RegistersOf(p, hash, left)[i], RegistersOf(p, hash, right)[i]);
  }

  lemma AddedLargest<T(!new)>(p: nat, hash: T -> Word, items: set<T>, item: T, i: nat, v: nat)
    requires p <= 64 && LargestRank(p, hash, items, i, v)
    ensures LargestRank(p, hash, items + {item}, i, if IndexOf(p, hash(item)) == i then Max(v, RankOf(p, hash(item))) else v)
  {
    var all := items + {item};
    assert item in all && forall x | x in items :: x in all;
  }

  lemma JoinedLargest<T(!new)>(p: nat, hash: T -> Word, s: set<T>, t: set<T>, i: nat, v: nat, w: nat)
    requires p <= 64 && LargestRank(p, hash, s, i, v) && LargestRank(p, hash, t, i, w)
    ensures LargestRank(p, hash, s + t, i, Max(v, w))
  {
    assert (forall x | x in s :: x in s + t) && forall x | x in t :: x in s + t;
  }

  /** A sketch depends only on which items reached it, not on their order, repetition, or the merges between. */
  lemma SameItemsSameRegisters<T(!new)>(p: nat, hash: T -> Word, f: Feed<T>, g: Feed<T>)
    requires p <= 64 && Items(f) == Items(g)
    ensures RegistersOf(p, hash, f) == RegistersOf(p, hash, g)
  {
    var r, s := RegistersOf(p, hash, f), RegistersOf(p, hash, g);
    forall i | 0 <= i < |r| ensures r[i] == s[i] {
      RegistersHoldLargest(p, hash, f, i);
      RegistersHoldLargest(p, hash, g, i);
    }
  }

  // ---- the sketch object ----

  class MergeableHLL<T(!new)> {
    const precision: nat
    const hash: T -> Word
    const registers: array<nat>
    ghost var feed: Feed<T>

    constructor (precision: nat, hash: T -> Word)
      requires 4 <= precision <= 18
      ensures this.precision == precision && this.hash == hash && feed == Start && fresh(registers) && Valid()
    {
      this.precision, this.hash, feed := precision, hash, Start;
      registers := new nat[Pow2(precision)](i => 0);
      new;
      assert registers[..] == Zeros(precision);
    }

    /** Null stands for the ValueError on a precision out of range. */
    static method Create(precision: int, hash: T -> Word) returns (s: MergeableHLL?<T>)
      ensures s == null <==> !(4 <= precision <= 18)
      ensures s != null ==> fresh(s) && fresh(s.registers) && s.Valid() && s.precision == precision && s.hash == hash && s.feed == Start
    {
      if !(4 <= precision <= 18) {
        return null;
      }
      s := new MergeableHLL(precision, hash);
    }

    ghost predicate Valid()
      reads this, registers
    {
      4 <= precision <= 18 && registers[..] == RegistersOf(precision, hash, feed)
    }

    method Add(item: T)
      requires Valid()
      modifies this`feed, registers
      ensures Valid() && feed == Added(old(feed), item)
    {
      var h := hash(item);
      IndexInRange(precision, h);
      var i := IndexOf(precision, h);
      var zeros := CountLeadingZeros(Remaining(precision, h), 64 - precision);
      registers[i] := Max(registers[i], zeros + 1);
      feed := Added(feed, item);
    }

    method AddAll(items: seq<T>)
      requires Valid()
      modifies this`feed, registers
      ensures Valid() && feed == AddedAll(old(feed), items)
    {
      for k := 0 to |items|
        invariant Valid() && feed == AddedAll(old(feed), items[..k])
      {
        assert items[..k + 1][..k] == items[..k];
        Add(items[k]);
      }
      assert items[..|items|] == items;
    }

    /** Null stands for the ValueError on different precisions. */
    method MergeWith(other: MergeableHLL<T>) returns (r: MergeableHLL?<T>)
      requires Valid() && other.Valid() && other.hash == hash
      ensures r == null <==> precision != other.precision
      ensures r != null ==> fresh(r) && fresh(r.registers) && r.Valid() && r.precision == precision && r.hash == hash
      ensures r != null ==> r.feed == Joined(feed, other.feed)
    {
      if precision != other.precision {
        return null;
      }
      var result := new MergeableHLL(precision, hash);
      for i := 0 to registers.Length
        invariant result.registers.Length == registers.Length == other.registers.Length
        invariant forall j | 0 <= j < i :: result.registers[j] == Max(registers[j], other.registers[j])
      {
        result.registers[i] := Max(registers[i], other.registers[i]);
      }
      result.feed := Joined(feed, other.feed);
      assert result.registers[..] == Larger(registers[..], other.registers[..]);
      r := result;
    }
  }
}
