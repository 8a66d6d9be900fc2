/** Encodings are self-delimiting: where one ends can be read off without decoding it. */
module WirePrefixes {
  import opened Bytes
  import opened Wire

  /** Where the value at `offset` ends, found from tags, lengths and counts alone. */
  function Skip(data: seq<Byte>, offset: nat): (r: Result<nat>)
    ensures r.Ok? ==> r.value > offset
    decreases Remaining(data, offset), 0
  {
    if offset >= |data| then Err(Truncated)
    else
      var tag, o := data[offset], offset + 1;
      if tag == NONE || tag == TRUE || tag == FALSE then Ok(o)
      else if tag == SMALLINT then Ok(o + 1)
      else if tag == INT64 || tag == FLOAT64 then Ok(o + 8)
      else
        var n := ReadAt(data, o, 4);
        if n.Err? then Err(n.error)
        else if tag == STR || tag == BYTES then Ok(o + 4 + n.value)
        else if tag == LIST || tag == SET then SkipAll(data, o + 4, n.value)
        else if tag == DICT then SkipAll(data, o + 4, 2 * n.value)
        else Err(UnknownTag)
  }

  function SkipAll(data: seq<Byte>, offset: nat, count: nat): (r: Result<nat>)
    ensures r.Ok? ==> r.value >= offset
    decreases Remaining(data, offset), count + 1
  {
    if count == 0 then Ok(offset)
    else
      var end := Skip(data, offset);
      if end.Err? then end else SkipAll(data, end.value, count - 1)
  }

  lemma SkipOne(data: seq<Byte>, offset: nat, end: nat, more: nat)
    requires Skip(data, offset) == Ok(end)
    ensures SkipAll(data, offset, more + 1) == SkipAll(data, end, more)
  {
  }

  lemma SkipTwo(data: seq<Byte>, offset: nat, middle: nat, end: nat, more: nat)
    requires Skip(data, offset) == Ok(middle) && Skip(data, middle) == Ok(end)
    ensures SkipAll(data, offset, more + 2) == SkipAll(data, end, more)
  {
    SkipOne(data, offset, middle, more + 1);
    SkipOne(data, middle, end, more);
  }

  lemma FirstByte(data: seq<Byte>, offset: nat, part: seq<Byte>)
    requires part != [] && Holds(data, offset, part)
    ensures offset < |data| && data[offset] == part[0]
  {
    assert data[offset] == data[offset..offset + |part|][0];
  }

  /** Skipping finds the exact end of any encoding, tuples in key position included. */
  lemma {:induction false} SkipsValue(data: seq<Byte>, offset: nat, v: Value)
    requires WellFormed(v) && Encode(v).Ok? && Holds(data, offset, Encode(v).value)
    ensures Skip(data, offset) == Ok(offset + |Encode(v).value|)
    decreases v, 2
  {
    FirstByte(data, offset, Encode(v).value);
    match v
    case Str(s) => HeaderReads(data, offset, STR, |s|, s);
    case Other(s) => HeaderReads(data, offset, STR, |s|, s);
    case Bytes(s) => HeaderReads(data, offset, BYTES, |s|, s);
    case ByteArray(s) => HeaderReads(data, offset, BYTES, |s|, s);
    case Set(items) => SkipsContainer(data, offset, v, SET);
    case List(items) => SkipsContainer(data, offset, v, LIST);
    case Tuple(items) => SkipsContainer(data, offset, v, LIST);
    case Dict(pairs) => SkipsDict(data, offset, v);
    case _ =>
  }

  lemma {:induction false} SkipsContainer(data: seq<Byte>, offset: nat, v: Value, tag: Byte)
    requires v.Set? || v.List? || v.Tuple?
    requires tag == if v.Set? then SET else LIST
    requires WellFormed(v) && Encode(v).Ok? && Holds(data, offset, Encode(v).value)
    ensures Skip(data, offset) == Ok(offset + |Encode(v).value|)
    decreases v, 1
  {
    HeaderReads(data, offset, tag, |v.items|, EncodeAll(v.items).value);
    SkipsItems(data, offset + 5, v.items);
  }

  lemma {:induction false} SkipsDict(data: seq<Byte>, offset: nat, v: Value)
    requires v.Dict?
    requires WellFormed(v) && Encode(v).Ok? && Holds(data, offset, Encode(v).value)
    ensures Skip(data, offset) == Ok(offset + |Encode(v).value|)
    decreases v, 1
  {
    HeaderReads(data, offset, DICT, |v.pairs|, EncodePairs(v.pairs).value);
    SkipsPairs(data, offset + 5, v.pairs);
  }

  lemma ItemsParts(data: seq<Byte>, offset: nat, items: seq<Value>)
    requires items != [] && EncodeAll(items).Ok? && Holds(data, offset, EncodeAll(items).value)
    ensures Encode(items[0]).Ok? && EncodeAll(items[1..]).Ok?
    ensures Holds(data, offset, Encode(items[0]).value)
    ensures Holds(data, offset + |Encode(items[0]).value|, EncodeAll(items[1..]).value)
    ensures |EncodeAll(items).value| == |Encode(items[0]).value| + |EncodeAll(items[1..]).value|
  {
    HoldsSplit(data, offset, Encode(items[0]).value, EncodeAll(items[1..]).value);
  }

  lemma PairParts(data: seq<Byte>, offset: nat, p: Pair)
    requires EncodePair(p).Ok? && Holds(data, offset, EncodePair(p).value)
    ensures Encode(p.key).Ok? && Encode(p.value).Ok?
    ensures Holds(data, offset, Encode(p.key).value)
    ensures Holds(data, offset + |Encode(p.key).value|, Encode(p.value).value)
    ensures |EncodePair(p).value| == |Encode(p.key).value| + |Encode(p.value).value|
  {
    HoldsSplit(data, offset, Encode(p.key).value, Encode(p.value).value);
  }

  lemma {:induction false} SkipsItems(data: seq<Byte>, offset: nat, items: seq<Value>)
    requires AllWellFormed(items) && EncodeAll(items).Ok? && Holds(data, offset, EncodeAll(items).value)
    ensures SkipAll(data, offset, |items|) == Ok(offset + |EncodeAll(items).value|)
    decreases items, 0
  {
    if items != [] {
      ItemsParts(data, offset, items);
      var middle := offset + |Encode(items[0]).value|;
      SkipsValue(data, offset, items[0]);
      SkipsItems(data, middle, items[1..]);
      SkipOne(data, offset, middle, |items| - 1);
    }
  }

  lemma {:induction false} SkipsPairs(data: seq<Byte>, offset: nat, pairs: seq<Pair>)
    requires PairsWellFormed(pairs) && EncodePairs(pairs).Ok? && Holds(data, offset, EncodePairs(pairs).value)
    ensures SkipAll(data, offset, 2 * |pairs|) == Ok(offset + |EncodePairs(pairs).value|)
    decreases pairs, 0
  {
    if pairs != [] {
      var first := EncodePair(pairs[0]).value;
      HoldsSplit(data, offset, first, EncodePairs(pairs[1..]).value);
      SkipsPair(data, offset, pairs[0], 2 * |pairs| - 2);
      SkipsPairs(data, offset + |first|, pairs[1..]);
    }
  }

  lemma {:induction false} SkipsKeyAndValue(data: seq<Byte>, offset: nat, p: Pair) returns (middle: nat)
    requires PairWellFormed(p) && EncodePair(p).Ok? && Holds(data, offset, EncodePair(p).value)
    ensures Skip(data, offset) == Ok(middle) && Skip(data, middle) == Ok(offset + |EncodePair(p).value|)
    decreases p, 0
  {
    PairParts(data, offset, p);
    middle := offset + |Encode(p.key).value|;
    SkipsValue(data, offset, p.key);
    SkipsValue(data, middle, p.value);
  }

  lemma {:induction false} SkipsPair(data: seq<Byte>, offset: nat, p: Pair, more: nat)
    requires PairWellFormed(p) && EncodePair(p).Ok? && Holds(data, offset, EncodePair(p).value)
    ensures SkipAll(data, offset, more + 2) == SkipAll(data, offset + |EncodePair(p).value|, more)
    decreases p, 1
  {
    var middle := SkipsKeyAndValue(data, offset, p);
    SkipTwo(data, offset, middle, offset + |EncodePair(p).value|, more);
  }

  /** No encoding is a proper prefix of another, whatever the values; and values with one encoding decode alike. */
  lemma PrefixFree(v: Value, w: Value, rest: seq<Byte>)
    requires WellFormed(v) && WellFormed(w)
    requires Encode(v).Ok? && Encode(w).Ok?
    requires Encode(v).value + rest == Encode(w).value
    ensures rest == []
    ensures KeysStayHashable(v) == KeysStayHashable(w)
    ensures KeysStayHashable(v) ==> Norm(v) == Norm(w)
  {
    var data := Encode(w).value;
    assert data[0..|Encode(v).value|] == Encode(v).value;
    assert data[0..|data|] == data;
    SkipsValue(data, 0, v);
    SkipsValue(data, 0, w);
    RoundTrip(data, 0, v);
    RoundTrip(data, 0, w);
  }
}
