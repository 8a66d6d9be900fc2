/**
 The Bloom filter: a packed bit array set at hashed positions and merged by bitwise or.

 `first` and `second` are the two 64-bit hashes of an item. The estimated item count is not modelled.
*/
module BloomFilter {
  import Bits
  import opened Feeds

  type Bytes = seq<bv8>

  /** How items spread over a filter. */
  datatype Shape<!T> = Shape(size: nat, numHashes: nat, first: T -> nat, second: T -> nat)

  predicate Usable<T>(s: Shape<T>) {
    s.size >= 1
  }

  // ---- bits ----

  function Mask(i: nat): bv8
    requires i < 8
  {
    if i == 0 then 1 else if i == 1 then 2 else if i == 2 then 4 else if i == 3 then 8
    else if i == 4 then 16 else if i == 5 then 32 else if i == 6 then 64 else 128
  }

  predicate Bit(b: bv8, i: nat)
    requires i < 8
  {
    b & Mask(i) != 0
  }

  predicate GetBit(bits: Bytes, pos: nat)
    requires pos / 8 < |bits|
  {
    Bit(bits[pos / 8], pos % 8)
  }

  /** Bits are numbered from the least significant one of every byte. */
  lemma LeastFirst(bits: Bytes, pos: nat)
    requires pos / 8 < |bits|
    ensures GetBit(bits, pos) <==> (bits[pos / 8] >> (pos % 8)) & 1 == 1
  {
    ShiftedBit(bits[pos / 8], pos % 8);
  }

  lemma ShiftedBit(b: bv8, i: nat)
    requires i < 8
    ensures Bit(b, i) <==> (b >> i) & 1 == 1
  {
  }

  lemma OrBit(b: bv8, c: bv8, i: nat)
    requires i < 8
    ensures Bit(b | c, i) <==> Bit(b, i) || Bit(c, i)
  {
  }

  lemma MaskBit(i: nat, j: nat)
    requires i < 8 && j < 8
    ensures Bit(Mask(i), j) <==> i == j
  {
  }

  lemma ByteIsItsBits(b: bv8, c: bv8)
    requires forall i: nat | i < 8 :: Bit(b, i) == Bit(c, i)
    ensures b == c
  {
    assert Bit(b, 0) == Bit(c, 0) && Bit(b, 1) == Bit(c, 1) && Bit(b, 2) == Bit(c, 2) && Bit(b, 3) == Bit(c, 3);
    assert Bit(b, 4) == Bit(c, 4) && Bit(b, 5) == Bit(c, 5) && Bit(b, 6) == Bit(c, 6) && Bit(b, 7) == Bit(c, 7);
  }

  /** The byte array is fixed by its bits. */
  lemma BytesAreTheirBits(x: Bytes, y: Bytes)
    requires |x| == |y| && forall pos: nat | pos / 8 < |x| :: GetBit(x, pos) == GetBit(y, pos)
    ensures x == y
  {
    forall k | 0 <= k < |x| ensures x[k] == y[k] {
      forall i: nat | i < 8 ensures Bit(x[k], i) == Bit(y[k], i) {
        assert (8 * k + i) / 8 == k && (8 * k + i) % 8 == i;
        assert GetBit(x, 8 * k + i) == GetBit(y, 8 * k + i);
      }
      ByteIsItsBits(x[k], y[k]);
    }
  }

  function SetBit(bits: Bytes, pos: nat): (out: Bytes)
    requires pos / 8 < |bits|
    ensures |out| == |bits|
  {
    bits[pos / 8 := bits[pos / 8] | Mask(pos % 8)]
  }

  lemma SetBitSetsOne(bits: Bytes, pos: nat, at: nat)
    requires pos / 8 < |bits| && at / 8 < |bits|
    ensures GetBit(SetBit(bits, pos), at) <==> at == pos || GetBit(bits, at)
  {
    if at / 8 == pos / 8 {
      OrBit(bits[pos / 8], Mask(pos % 8), at % 8);
      MaskBit(pos % 8, at % 8);
    }
  }

  // ---- filters ----

  function Width<T>(s: Shape<T>): nat {
    (s.size + 7) / 8
  }

  function Position<T>(s: Shape<T>, x: T, i: nat): (pos: nat)
    requires Usable(s)
    ensures pos < s.size && pos / 8 < Width(s)
  {
    (s.first(x) + i * s.second(x)) % s.size
  }

  lemma PositionsStart<T>(s: Shape<T>, x: T)
    requires Usable(s)
    ensures Position(s, x, 0) == s.first(x) % s.size
  {
  }

  /** The positions start at the first hash and go on in steps of the second, around the filter. */
  lemma PositionsStep<T>(s: Shape<T>, x: T, i: nat)
    requires Usable(s)
    ensures Position(s, x, i + 1) == (Position(s, x, i) + s.second(x)) % s.size
  {
    Bits.StepMod(s.first(x), s.second(x), i, s.size);
  }

  function Positions<T>(s: Shape<T>, x: T): (ps: seq<nat>)
    requires Usable(s)
    ensures |ps| == s.numHashes && forall i | 0 <= i < |ps| :: ps[i] == Position(s, x, i) && ps[i] / 8 < Width(s)
  {
    seq(s.numHashes, i requires 0 <= i < s.numHashes => Position(s, x, i))
  }

  function SetBits(bits: Bytes, ps: seq<nat>): (out: Bytes)
    requires forall i | 0 <= i < |ps| :: ps[i] / 8 < |bits|
    ensures |out| == |bits|
  {
    if ps == [] then bits else SetBit(SetBits(bits, ps[..|ps| - 1]), ps[|ps| - 1])
  }

  function Or(x: Bytes, y: Bytes): (out: Bytes)
    requires |x| == |y|
    ensures |out| == |x|
  {
    seq(|x|, i requires 0 <= i < |x| => x[i] | y[i])
  }

  /** The bits a feed leaves behind. */
  function BitsOf<T>(s: Shape<T>, f: Feed<T>): (bits: Bytes)
    requires Usable(s)
    ensures |bits| == Width(s)
  {
    match f
    case Start => seq(Width(s), i => 0 as bv8)
    case Added(rest, item) => SetBits(BitsOf(s, rest), Positions(s, item))
    case Joined(left, right) => Or(BitsOf(s, left), BitsOf(s, right))
  }

  predicate Contains<T>(s: Shape<T>, bits: Bytes, x: T)
    requires Usable(s) && |bits| == Width(s)
  {
    var ps := Positions(s, x);
    forall i | 0 <= i < |ps| :: GetBit(bits, ps[i])
  }

  /** The position belongs to one of the items. */
  ghost predicate Claimed<T(!new)>(s: Shape<T>, items: set<T>, pos: nat)
    requires Usable(s)
  {
    exists x :: x in items && pos in Positions(s, x)
  }

  lemma {:induction false} SetBitsSets(bits: Bytes, ps: seq<nat>, at: nat)
    requires (forall i | 0 <= i < |ps| :: ps[i] / 8 < |bits|) && at / 8 < |bits|
    ensures GetBit(SetBits(bits, ps), at) <==> at in ps || GetBit(bits, at)
    decreases |ps|
  {
    if ps != [] {
      var n := |ps| - 1;
      assert ps == ps[..n] + [ps[n]];
      SetBitsSets(bits, ps[..n], at);
      SetBitSetsOne(SetBits(bits, ps[..n]), ps[n], at);
    }
  }

  lemma OrBits(x: Bytes, y: Bytes, at: nat)
    requires |x| == |y| && at / 8 < |x|
    ensures GetBit(Or(x, y), at) <==> GetBit(x, at) || GetBit(y, at)
  {
    OrBit(x[at / 8], y[at / 8], at % 8);
  }

  /** A bit is set exactly when some item that reached the filter claims it. */
  lemma {:induction false} BitIffClaimed<T(!new)>(s: Shape<T>, f: Feed<T>, pos: nat)
    requires Usable(s) && pos / 8 < Width(s)
    ensures GetBit(BitsOf(s, f), pos) <==> Claimed(s, Items(f), pos)
  {
    match f
    case Start =>
    case Added(rest, item) =>
      BitIffClaimed(s, rest, pos);
      SetBitsSets(BitsOf(s, rest), Positions(s, item), pos);
      ClaimedAdds(s, Items(rest), {item}, pos);
      ClaimedOne(s, item, pos);
    case Joined(left, right) =>
      BitIffClaimed(s, left, pos);
      BitIffClaimed(s, right, pos);
      OrBits(BitsOf(s, left), BitsOf(s, right), pos);
      ClaimedAdds(s, Items(left), Items(right), pos);
  }

  lemma ClaimedOne<T(!new)>(s: Shape<T>, x: T, pos: nat)
    requires Usable(s)
    ensures Claimed(s, {x}, pos) <==> pos in Positions(s, x)
  {
    assert x in {x};
  }

  lemma ClaimedAdds<T(!new)>(s: Shape<T>, x: set<T>, y: set<T>, pos: nat)
    requires Usable(s)
    ensures Claimed(s, x + y, pos) <==> Claimed(s, x, pos) || Claimed(s, y, pos)
  {
    assert (forall i | i in x :: i in x + y) && forall i | i in y :: i in x + y;
  }

  /** A filter depends only on which items reached it. */
  lemma SameItemsSameBits<T(!new)>(s: Shape<T>, f: Feed<T>, g: Feed<T>)
    requires Usable(s) && Items(f) == Items(g)
    ensures BitsOf(s, f) == BitsOf(s, g)
  {
    forall pos: nat | pos / 8 < Width(s) ensures GetBit(BitsOf(s, f), pos) == GetBit(BitsOf(s, g), pos) {
      BitIffClaimed(s, f, pos);
      BitIffClaimed(s, g, pos);
    }
    BytesAreTheirBits(BitsOf(s, f), BitsOf(s, g));
  }

  /** Membership holds exactly when every position of the item is claimed: never false for an item that was added. */
  lemma ContainsIff<T(!new)>(s: Shape<T>, f: Feed<T>, x: T)
    requires Usable(s)
    ensures Contains(s, BitsOf(s, f), x) <==> AllClaimed(s, Items(f), x)
    ensures x in Items(f) ==> Contains(s, BitsOf(s, f), x)
  {
    var ps, bits := Positions(s, x), BitsOf(s, f);
    forall i | 0 <= i < |ps| ensures GetBit(bits, ps[i]) <==> Claimed(s, Items(f), ps[i]) {
      BitIffClaimed(s, f, ps[i]);
    }
    if x in Items(f) {
      ClaimsItsOwn(s, Items(f), x);
    }
  }

  ghost predicate AllClaimed<T(!new)>(s: Shape<T>, items: set<T>, x: T)
    requires Usable(s)
  {
    var ps := Positions(s, x);
    forall i | 0 <= i < |ps| :: Claimed(s, items, ps[i])
  }

  lemma ClaimsItsOwn<T(!new)>(s: Shape<T>, items: set<T>, x: T)
    requires Usable(s) && x in items
    ensures AllClaimed(s, items, x)
  {
    var ps := Positions(s, x);
    forall i | 0 <= i < |ps| ensures Claimed(s, items, ps[i]) {
      assert ps[i] in Positions(s, x);
    }
  }

  // ---- the filter object ----

  lemma SetBitsNext(bits: Bytes, ps: seq<nat>, i: nat)
    requires i < |ps| && forall j | 0 <= j < |ps| :: ps[j] / 8 < |bits|
    ensures SetBits(bits, ps[..i + 1]) == SetBit(SetBits(bits, ps[..i]), ps[i])
  {
    assert ps[..i + 1][..i] == ps[..i];
  }

  method SetAllInPlace(bits: array<bv8>, ps: seq<nat>)
    requires forall i | 0 <= i < |ps| :: ps[i] / 8 < bits.Length
    modifies bits
    ensures bits[..] == SetBits(old(bits[..]), ps)
  {
    ghost var before := bits[..];
    for i := 0 to |ps|
      invariant bits[..] == SetBits(before, ps[..i])
    {
      SetBitsNext(before, ps, i);
      SetInPlace(bits, ps[i]);
    }
    assert ps[..|ps|] == ps;
  }

  method OrInto(target: array<bv8>, x: array<bv8>, y: array<bv8>)
    requires target.Length == x.Length == y.Length && target != x && target != y
    modifies target
    ensures target[..] == Or(x[..], y[..])
  {
    for i := 0 to x.Length
      invariant forall j | 0 <= j < i :: target[j] == x[j] | y[j]
    {
      target[i] := x[i] | y[i];
    }
  }

  method SetInPlace(bits: array<bv8>, pos: nat)
    requires pos / 8 < bits.Length
    modifies bits
    ensures bits[..] == SetBit(old(bits[..]), pos)
  {
    bits[pos / 8] := bits[pos / 8] | Mask(pos % 8);
  }

  class MergeableBloom<T(!new)> {
    const shape: Shape<T>
    const bits: array<bv8>
    ghost var feed: Feed<T>

    constructor (shape: Shape<T>)
      requires Usable(shape)
      ensures this.shape == shape && feed == Start && fresh(bits) && Valid()
    {
      this.shape, feed := shape, Start;
      bits := new bv8[Width(shape)](i => 0);
      new;
      assert bits[..] == BitsOf(shape, Start);
    }

    ghost predicate Valid()
      reads this, bits
    {
      Usable(shape) && bits[..] == BitsOf(shape, feed)
    }

    method Add(item: T)
      requires Valid()
      modifies this`feed, bits
      ensures Valid() && feed == Added(old(feed), item)
    {
      SetAllInPlace(bits, Positions(shape, item));
      feed := Added(feed, item);
    }

    method AddAll(items: seq<T>)
      requires Valid()
      modifies this`feed, bits
      ensures Valid() && feed == AddedAll(old(feed), items)
    {
      for k := 0 to |items|
        invariant Valid() && feed == AddedAll(old(feed), items[..k])
      {
        assert items[..k + 1][..k] == items[..k];
        Add(items[k]);
      }
      assert items[..|items|] == items;
    }

    method MightContain(item: T) returns (r: bool)
      requires Valid()
      ensures r == Contains(shape, bits[..], item)
      ensures item in Items(feed) ==> r
    {
      r := true;
      var ps := Positions(shape, item);
      for i := 0 to |ps|
        invariant r <==> forall j | 0 <= j < i :: GetBit(bits[..], ps[j])
      {
        r := r && Bit(bits[ps[i] / 8], ps[i] % 8);
      }
      ContainsIff(shape, feed, item);
    }

    /** Null stands for the ValueError on different parameters. */
    method MergeWith(other: MergeableBloom<T>) returns (r: MergeableBloom?<T>)
      requires Valid() && other.Valid() && other.shape.first == shape.first && other.shape.second == shape.second
      ensures r == null <==> shape.size != other.shape.size || shape.numHashes != other.shape.numHashes
      ensures r != null ==> fresh(r) && fresh(r.bits) && r.Valid() && r.shape == shape && r.feed == Joined(feed, other.feed)
    {
      if shape.size != other.shape.size || shape.numHashes != other.shape.numHashes {
        return null;
      }
      assert shape == other.shape;
      var result := new MergeableBloom(shape);
      OrInto(result.bits, bits, other.bits);
      result.feed := Joined(feed, other.feed);
      r := result;
    }
  }
}
