/**
 The bytes of encodings and frames, spelled out: what a reader written from the format alone would expect.
*/
module WireLayout {
  import opened Bytes
  import opened Wire
  import opened WireFrames

  /** Two's complement in `w` bytes. */
  function TwosComplement(i: int, w: nat): seq<Byte>
    requires i + Pow256(w) >= 0
  {
    BigEndian(if i < 0 then i + Pow256(w) else i, w)
  }

  lemma ScalarLayout(f: seq<Byte>)
    ensures Encode(Null) == Ok([0x00])
    ensures Encode(Bool(true)) == Ok([0x01]) && Encode(Bool(false)) == Ok([0x02])
    ensures Encode(Float(f)) == Ok([0x04] + f)
  {
  }

  /** Integers of one byte take the short form, others up to 64 bits the long one, and larger ones are refused. */
  lemma IntLayout(i: int)
    ensures Pow256(1) == 256 && Pow256(8) == 0x1_0000_0000_0000_0000
    ensures Encode(Int(i)) ==
            if -128 <= i < 128 then Ok([0x09] + TwosComplement(i, 1))
            else if -0x8000_0000_0000_0000 <= i < 0x8000_0000_0000_0000 then Ok([0x03] + TwosComplement(i, 8))
            else Err(IntOverflow)
  {
    Widths();
  }

  /** A tag, a length or count in four bytes, and the body. */
  function Block(tag: Byte, n: nat, body: seq<Byte>): seq<Byte> {
    [tag] + BigEndian(n, 4) + body
  }

  lemma TextLayout(s: seq<Byte>)
    ensures Encode(Str(s)) == Encode(Other(s)) == if |s| < 0x1_0000_0000 then Ok(Block(0x05, |s|, s)) else Err(TooLong)
    ensures Encode(Bytes(s)) == Encode(ByteArray(s)) == if |s| < 0x1_0000_0000 then Ok(Block(0x06, |s|, s)) else Err(TooLong)
  {
  }

  /** The encodings one behind the other. */
  ghost predicate Concatenates(items: seq<Value>, body: seq<Byte>)
    decreases |items|
  {
    if items == [] then body == []
    else exists first, rest :: Encode(items[0]) == Ok(first) && Concatenates(items[1..], rest) && body == first + rest
  }

  ghost predicate ConcatenatesPairs(pairs: seq<Pair>, body: seq<Byte>)
    decreases |pairs|
  {
    if pairs == [] then body == []
    else exists k, v, rest :: && Encode(pairs[0].key) == Ok(k) && Encode(pairs[0].value) == Ok(v)
                         && ConcatenatesPairs(pairs[1..], rest) && body == k + v + rest
  }

  lemma {:induction false} AllConcatenate(items: seq<Value>)
    requires EncodeAll(items).Ok?
    ensures Concatenates(items, EncodeAll(items).value)
    decreases |items|
  {
    if items != [] { AllConcatenate(items[1..]); }
  }

  lemma {:induction false} PairsConcatenate(pairs: seq<Pair>)
    requires EncodePairs(pairs).Ok?
    ensures ConcatenatesPairs(pairs, EncodePairs(pairs).value)
    decreases |pairs|
  {
    if pairs != [] {
      PairsConcatenate(pairs[1..]);
      var k, v := Encode(pairs[0].key).value, Encode(pairs[0].value).value;
      assert EncodePairs(pairs).value == k + v + EncodePairs(pairs[1..]).value;
    }
  }

  /** Lists and tuples look alike; sets and dicts have tags of their own, a dict counting its pairs. */
  lemma ContainerLayout(items: seq<Value>, pairs: seq<Pair>)
    ensures Encode(Tuple(items)) == Encode(List(items))
    ensures Encode(List(items)).Ok? ==>
              exists body :: Concatenates(items, body) && Encode(List(items)).value == Block(0x07, |items|, body)
    ensures Encode(Set(items)).Ok? ==>
              exists body :: Concatenates(items, body) && Encode(Set(items)).value == Block(0x0A, |items|, body)
    ensures Encode(Dict(pairs)).Ok? ==>
              exists body :: ConcatenatesPairs(pairs, body) && Encode(Dict(pairs)).value == Block(0x08, |pairs|, body)
  {
    if EncodeAll(items).Ok? { AllConcatenate(items); }
    if EncodePairs(pairs).Ok? { PairsConcatenate(pairs); }
  }

  /** A frame: "CRDT", version 1, the type tag, the flags, the size of the body, and the body, which is the compressed
      payload exactly when compression was asked for and made it shorter. */
  lemma FrameLayout(m: Message, compress: bool, z: Zip)
    requires Serialize(m, compress, z).Ok?
    ensures Payload(m).Ok?
    ensures var payload := Payload(m).value;
            var smaller := compress && |z.compress(payload)| < |payload|;
            var body := if smaller then z.compress(payload) else payload;
            Serialize(m, compress, z).value ==
            [0x43, 0x52, 0x44, 0x54, 0x00, 0x01, m.tag, if smaller then 1 else 0] + BigEndian(|body|, 4) + body
  {
    assert BigEndian(1, 1) == [] + [1] && BigEndian(0, 1) == [] + [0];
    assert BigEndian(1, 2) == [0x00, 0x01];
  }

  /** So asking for compression never makes a frame longer. */
  lemma CompressionNeverLonger(m: Message, z: Zip)
    requires Serialize(m, true, z).Ok? && Serialize(m, false, z).Ok?
    ensures |Serialize(m, true, z).value| <= |Serialize(m, false, z).value|
  {
  }

  /** A batch: the number of frames, then every frame behind its size. */
  ghost predicate Frames(ms: seq<Message>, compress: bool, z: Zip, body: seq<Byte>)
    decreases |ms|
  {
    if ms == [] then body == []
    else exists frame, rest :: && Serialize(ms[0], compress, z) == Ok(frame) && Frames(ms[1..], compress, z, rest)
                          && body == BigEndian(|frame|, 4) + frame + rest
  }

  lemma {:induction false} AllFrames(ms: seq<Message>, compress: bool, z: Zip)
    requires SerializeAll(ms, compress, z).Ok?
    ensures Frames(ms, compress, z, SerializeAll(ms, compress, z).value)
    decreases |ms|
  {
    if ms != [] { AllFrames(ms[1..], compress, z); }
  }

  lemma BatchLayout(ms: seq<Message>, compress: bool, z: Zip)
    requires SerializeBatch(ms, compress, z).Ok?
    ensures exists body :: Frames(ms, compress, z, body) && SerializeBatch(ms, compress, z).value == BigEndian(|ms|, 4) + body
  {
    AllFrames(ms, compress, z);
  }

  // ---- what readers refuse and what they let pass ----

  /** A text or bytes body that ends early is returned short, and the offset still moves past its announced end. */
  lemma ShortBodyPasses(n: nat, part: seq<Byte>)
    requires |part| < n < 0x1_0000_0000
    ensures Decode([0x06] + BigEndian(n, 4) + part, 0) == Ok(Decoded(Bytes(part), 5 + n))
    ensures Decode([0x05] + BigEndian(n, 4) + part, 0) == if ValidUtf8(part) then Ok(Decoded(Str(part), 5 + n)) else Err(BadText)
  {
    ShortBody(0x06, n, part);
    ShortBody(0x05, n, part);
  }

  lemma ShortBody(tag: Byte, n: nat, part: seq<Byte>)
    requires |part| < n < 0x1_0000_0000
    ensures var data := [tag] + BigEndian(n, 4) + part;
            data[0] == tag && ReadAt(data, 1, 4) == Ok(n) && Slice(data, 5, 5 + n) == part
  {
    var data := [tag] + BigEndian(n, 4) + part;
    Widths();
    BigEndianRoundTrip(n, 4);
    assert data[1..5] == BigEndian(n, 4);
  }

  /** A number that ends early is refused. */
  lemma ShortNumberRefused(part: seq<Byte>)
    requires |part| < 8
    ensures Decode([0x03] + part, 0) == Err(Truncated) && Decode([0x04] + part, 0) == Err(Truncated)
  {
  }

  lemma UnknownTagRefused(data: seq<Byte>)
    requires data != [] && data[0] > 0x0A
    ensures Decode(data, 0) == Err(UnknownTag)
  {
  }

  /** A frame is refused when it is shorter than its header, does not start with "CRDT", or has a later version. */
  lemma FrameRefused(data: seq<Byte>, z: Zip)
    ensures |data| < 12 ==> Deserialize(data, z) == Err(TooShort)
    ensures |data| >= 12 && data[..4] != [0x43, 0x52, 0x44, 0x54] ==> Deserialize(data, z) == Err(BadMagic)
    ensures |data| >= 12 && data[..4] == [0x43, 0x52, 0x44, 0x54] && (data[4] != 0 || data[5] > 1) ==>
              Deserialize(data, z) == Err(BadVersion)
  {
    if |data| >= 12 {
      var v, first := data[4..6], [data[4]];
      assert v[..1] == first && first[..0] == [];
      assert FromBigEndian(first) == data[4];
      assert FromBigEndian(v) == 256 * FromBigEndian(first) + data[5];
    }
  }

  // ---- sets and dicts as decoded ----

  /** Dict assignment looks up what was assigned last, and a new key goes to the end. */
  lemma {:induction false} PutLooksUp(pairs: seq<Pair>, p: Pair, i: nat)
    ensures |Put(pairs, p)| == |pairs| + if exists j :: 0 <= j < |pairs| && pairs[j].key == p.key then 0 else 1
    ensures i < |pairs| && (forall j | 0 <= j < i :: pairs[j].key != p.key) ==>
            Put(pairs, p)[i] == if pairs[i].key == p.key then p else pairs[i]
    ensures (forall j | 0 <= j < |pairs| :: pairs[j].key != p.key) ==> Put(pairs, p) == pairs + [p]
    decreases |pairs|
  {
    if pairs != [] && pairs[0].key != p.key {
      PutLooksUp(pairs[1..], p, if i == 0 then 0 else i - 1);
      assert (exists j :: 0 <= j < |pairs| && pairs[j].key == p.key) ==> exists j :: 0 <= j < |pairs| - 1 && pairs[1..][j].key == p.key by {
        if j :| 0 <= j < |pairs| && pairs[j].key == p.key {
          assert pairs[1..][j - 1].key == p.key;
        }
      }
    }
  }

  ghost predicate ComesFrom(items: seq<Value>, x: Value) {
    exists i :: 0 <= i < |items| && Norm(items[i]) == x
  }

  /** A decoded set holds each of its elements once. */
  lemma {:induction false} SetHoldsOnce(acc: seq<Value>, items: seq<Value>, x: Value)
    requires NoRepeats(acc)
    ensures NoRepeats(NormSet(acc, items))
    ensures x in NormSet(acc, items) <==> x in acc || ComesFrom(items, x)
    decreases |items|
  {
    if items != [] {
      SetHoldsOnce(AddItem(acc, Norm(items[0])), items[1..], x);
      if i :| 0 < i < |items| && Norm(items[i]) == x {
        assert Norm(items[1..][i - 1]) == x;
      }
      if i :| 0 <= i < |items| - 1 && Norm(items[1..][i]) == x {
        assert Norm(items[i + 1]) == x;
      }
    }
  }
}
