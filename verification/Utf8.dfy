/** Well-formed UTF-8 against the encoding of code points (section 3 of RFC 3629). */
module Utf8 {
  import opened Bytes

  /** A Unicode code point that is not a surrogate. */
  predicate Scalar(c: int) {
    0 <= c < 0xD800 || 0xE000 <= c <= 0x10FFFF
  }

  function Encoded(c: int): (bs: seq<Byte>)
    requires Scalar(c)
    ensures bs != []
  {
    if c < 0x80 then [c]
    else if c < 0x800 then [0xC0 + c / 0x40, 0x80 + c % 0x40]
    else if c < 0x10000 then [0xE0 + c / 0x1000, 0x80 + c / 0x40 % 0x40, 0x80 + c % 0x40]
    else [0xF0 + c / 0x40000, 0x80 + c / 0x1000 % 0x40, 0x80 + c / 0x40 % 0x40, 0x80 + c % 0x40]
  }

  function EncodedAll(cs: seq<int>): seq<Byte>
    requires forall c | c in cs :: Scalar(c)
  {
    if cs == [] then [] else Encoded(cs[0]) + EncodedAll(cs[1..])
  }

  lemma EncodingRead(c: int, rest: seq<Byte>)
    requires Scalar(c)
    ensures SequenceLength(Encoded(c) + rest) == |Encoded(c)|
  {
    var bs := Encoded(c) + rest;
    assert forall i | 0 <= i < |Encoded(c)| :: bs[i] == Encoded(c)[i];
  }

  // The parts of a code point in base 64.
  lemma TwoParts(x: int, y: int)
    requires 0 <= y < 0x40
    ensures (x * 0x40 + y) / 0x40 == x && (x * 0x40 + y) % 0x40 == y
  {
  }

  lemma ThreeParts(x: int, y: int, z: int)
    requires 0 <= y < 0x40 && 0 <= z < 0x40
    ensures var c := x * 0x1000 + y * 0x40 + z;
            c / 0x1000 == x && c / 0x40 == x * 0x40 + y && c / 0x40 % 0x40 == y && c % 0x40 == z
  {
    TwoParts(x * 0x40 + y, z);
    TwoParts(x, y);
  }

  lemma FourParts(x: int, y: int, z: int, w: int)
    requires 0 <= y < 0x40 && 0 <= z < 0x40 && 0 <= w < 0x40
    ensures var c := x * 0x40000 + y * 0x1000 + z * 0x40 + w;
            c / 0x40000 == x && c / 0x1000 % 0x40 == y && c / 0x40 % 0x40 == z && c % 0x40 == w
  {
    ThreeParts(x * 0x40 + y, z, w);
    TwoParts(x, y);
    var c := x * 0x40000 + y * 0x1000 + z * 0x40 + w;
    assert c / 0x1000 == x * 0x40 + y;
  }

  lemma PairRead(bs: seq<Byte>) returns (c: int)
    requires SequenceLength(bs) == 2
    ensures Scalar(c) && Encoded(c) == bs[..2]
  {
    var x: int, y: int := bs[0], bs[1];
    c := (x - 0xC0) * 0x40 + (y - 0x80);
    TwoParts(x - 0xC0, y - 0x80);
  }

  lemma TripleRead(bs: seq<Byte>) returns (c: int)
    requires SequenceLength(bs) == 3
    ensures Scalar(c) && Encoded(c) == bs[..3]
  {
    var x: int, y: int, z: int := bs[0], bs[1], bs[2];
    c := (x - 0xE0) * 0x1000 + (y - 0x80) * 0x40 + (z - 0x80);
    ThreeParts(x - 0xE0, y - 0x80, z - 0x80);
  }

  lemma QuadrupleRead(bs: seq<Byte>) returns (c: int)
    requires SequenceLength(bs) == 4
    ensures Scalar(c) && Encoded(c) == bs[..4]
  {
    var x: int, y: int, z: int, w: int := bs[0], bs[1], bs[2], bs[3];
    c := (x - 0xF0) * 0x40000 + (y - 0x80) * 0x1000 + (z - 0x80) * 0x40 + (w - 0x80);
    FourParts(x - 0xF0, y - 0x80, z - 0x80, w - 0x80);
  }

  /** Every sequence that is read is the encoding of a code point. */
  lemma SequenceRead(bs: seq<Byte>) returns (c: int)
    requires SequenceLength(bs) > 0
    ensures Scalar(c) && Encoded(c) == bs[..SequenceLength(bs)]
  {
    var n := SequenceLength(bs);
    if n == 1 {
      c := bs[0];
    } else if n == 2 {
      c := PairRead(bs);
    } else if n == 3 {
      c := TripleRead(bs);
    } else {
      c := QuadrupleRead(bs);
    }
  }

  lemma {:induction false} ValidRead(bs: seq<Byte>) returns (cs: seq<int>)
    requires ValidUtf8(bs)
    ensures (forall c | c in cs :: Scalar(c)) && EncodedAll(cs) == bs
    decreases |bs|
  {
    if bs == [] {
      cs := [];
    } else {
      var n := SequenceLength(bs);
      var c := SequenceRead(bs);
      var rest := ValidRead(bs[n..]);
      cs := [c] + rest;
      assert bs == bs[..n] + bs[n..];
    }
  }

  lemma {:induction false} EncodingValid(cs: seq<int>)
    requires forall c | c in cs :: Scalar(c)
    ensures ValidUtf8(EncodedAll(cs))
    decreases |cs|
  {
    if cs != [] {
      var first, rest := Encoded(cs[0]), EncodedAll(cs[1..]);
      EncodingRead(cs[0], rest);
      EncodingValid(cs[1..]);
      assert (first + rest)[|first|..] == rest;
    }
  }

  ghost predicate SpellsText(bs: seq<Byte>) {
    exists cs: seq<int> :: (forall c | c in cs :: Scalar(c)) && EncodedAll(cs) == bs
  }

  /** Bytes are accepted as UTF-8 exactly when they are the encoding of some code points. */
  lemma ValidIffText(bs: seq<Byte>)
    ensures ValidUtf8(bs) <==> SpellsText(bs)
  {
    if ValidUtf8(bs) {
      var cs := ValidRead(bs);
    }
    if cs: seq<int> :| (forall c | c in cs :: Scalar(c)) && EncodedAll(cs) == bs {
      EncodingValid(cs);
    }
  }
}
