/** Bytes, big-endian integers and well-formed UTF-8. */
module Bytes {

  type Byte = b: int | 0 <= b < 256

  function Pow256(w: nat): nat {
    if w == 0 then 1 else 256 * Pow256(w - 1)
  }

  /** `n` as `w` bytes, most significant first; higher digits are dropped. */
  function BigEndian(n: nat, w: nat): (bs: seq<Byte>)
    ensures |bs| == w
  {
    if w == 0 then [] else BigEndian(n / 256, w - 1) + [n % 256]
  }

  function FromBigEndian(bs: seq<Byte>): nat {
    if bs == [] then 0 else 256 * FromBigEndian(bs[..|bs| - 1]) + bs[|bs| - 1]
  }

  lemma {:induction false} BigEndianRoundTrip(n: nat, w: nat)
    requires n < Pow256(w)
    ensures FromBigEndian(BigEndian(n, w)) == n
  {
    if w > 0 {
      BigEndianRoundTrip(n / 256, w - 1);
      assert BigEndian(n, w)[..w - 1] == BigEndian(n / 256, w - 1);
    }
  }

  /** The first byte counts most. */
  lemma {:induction false} FirstCountsMost(bs: seq<Byte>)
    requires bs != []
    ensures FromBigEndian(bs) == bs[0] * Pow256(|bs| - 1) + FromBigEndian(bs[1..])
    decreases |bs|
  {
    var n := |bs| - 1;
    if n > 0 {
      var init := bs[..n];
      FirstCountsMost(init);
      assert init[1..] == bs[1..][..n - 1];
      Shifts(bs[0], Pow256(n - 1));
    }
  }

  lemma Shifts(b: int, m: int)
    ensures 256 * (b * m) == b * (256 * m)
  {
  }

  lemma Widths()
    ensures Pow256(1) == 0x100 && Pow256(2) == 0x1_0000 && Pow256(4) == 0x1_0000_0000
    ensures Pow256(8) == 0x1_0000_0000_0000_0000
  {
    assert Pow256(5) == 256 * Pow256(4);
    assert Pow256(6) == 256 * Pow256(5);
    assert Pow256(7) == 256 * Pow256(6);
  }

  predicate Continuation(b: Byte) {
    0x80 <= b < 0xC0
  }

  /** The length of the UTF-8 sequence that starts `bs`, or 0 if none does (section 4 of RFC 3629). */
  function SequenceLength(bs: seq<Byte>): (n: nat)
    ensures n <= 4 && n <= |bs|
  {
    if |bs| >= 1 && bs[0] < 0x80 then 1
    else if |bs| >= 2 && 0xC2 <= bs[0] < 0xE0 && Continuation(bs[1]) then 2
    else if |bs| >= 3 && 0xE0 <= bs[0] < 0xF0 && Continuation(bs[1]) && Continuation(bs[2])
            && (bs[0] == 0xE0 ==> bs[1] >= 0xA0) && (bs[0] == 0xED ==> bs[1] < 0xA0) then 3
    else if |bs| >= 4 && 0xF0 <= bs[0] < 0xF5 && Continuation(bs[1]) && Continuation(bs[2]) && Continuation(bs[3])
            && (bs[0] == 0xF0 ==> bs[1] >= 0x90) && (bs[0] == 0xF4 ==> bs[1] < 0x90) then 4
    else 0
  }

  predicate ValidUtf8(bs: seq<Byte>)
    decreases |bs|
  {
    bs == [] || (SequenceLength(bs) > 0 && ValidUtf8(bs[SequenceLength(bs)..]))
  }
}
