/**
 The compact binary encoding: a recursive tag-length-value encoder and a decoder that threads an
 offset through the data. Reading past the end raises in Python, except that slicing a string or
 bytes body silently shortens it; the decoder here does the same.
*/
module Wire {
  import opened Bytes

  datatype Error = IntOverflow | TooLong | Truncated | BadText | UnknownTag | Unhashable
                 | TooShort | BadMagic | BadVersion | BadCompression

  datatype Result<+T> = Ok(value: T) | Err(error: Error)

  /** Python values. A set lists its items in the order the encoder visits them; `Other` is any value
      without an encoding of its own, given by its `str()`. Strings are their UTF-8 bytes. */
  datatype Value =
    | Null
    | Bool(b: bool)
    | Int(i: int)
    | Float(ieee: seq<Byte>)
    | Str(utf8: seq<Byte>)
    | Bytes(raw: seq<Byte>)
    | ByteArray(raw: seq<Byte>)
    | Set(items: seq<Value>)
    | List(items: seq<Value>)
    | Tuple(items: seq<Value>)
    | Dict(pairs: seq<Pair>)
    | Other(text: seq<Byte>)

  datatype Pair = Pair(key: Value, value: Value)

  datatype Decoded = Decoded(value: Value, end: nat)

  const NONE: Byte := 0x00
  const TRUE: Byte := 0x01
  const FALSE: Byte := 0x02
  const INT64: Byte := 0x03
  const FLOAT64: Byte := 0x04
  const STR: Byte := 0x05
  const BYTES: Byte := 0x06
  const LIST: Byte := 0x07
  const DICT: Byte := 0x08
  const SMALLINT: Byte := 0x09
  const SET: Byte := 0x0A

  const TWO32 := 0x1_0000_0000
  const TWO63 := 0x8000_0000_0000_0000
  const TWO64 := 0x1_0000_0000_0000_0000

  /** Floats are eight bytes and strings are well-formed, as they are in Python. */
  predicate WellFormed(v: Value)
    decreases v, 1
  {
    match v
    case Float(f) => |f| == 8
    case Str(s) => ValidUtf8(s)
    case Other(s) => ValidUtf8(s)
    case Set(items) => AllWellFormed(items)
    case List(items) => AllWellFormed(items)
    case Tuple(items) => AllWellFormed(items)
    case Dict(pairs) => PairsWellFormed(pairs)
    case _ => true
  }

  predicate AllWellFormed(items: seq<Value>)
    decreases items, 0
  {
    items == [] || (WellFormed(items[0]) && AllWellFormed(items[1..]))
  }

  predicate PairsWellFormed(pairs: seq<Pair>)
    decreases pairs, 0
  {
    pairs == [] || (PairWellFormed(pairs[0]) && PairsWellFormed(pairs[1..]))
  }

  predicate PairWellFormed(p: Pair)
    decreases p, 0
  {
    WellFormed(p.key) && WellFormed(p.value)
  }

  // ---- encoding ----

  /** Two's complement, given the modulus of the width. */
  function Wrap(i: int, modulus: nat): int {
    if i < 0 then i + modulus else i
  }

  function Header(tag: Byte, n: nat): Result<seq<Byte>> {
    if n < TWO32 then Ok([tag] + BigEndian(n, 4)) else Err(TooLong)
  }

  function Join(a: Result<seq<Byte>>, b: Result<seq<Byte>>): Result<seq<Byte>> {
    if a.Err? then a else if b.Err? then b else Ok(a.value + b.value)
  }

  function Encode(v: Value): Result<seq<Byte>>
    decreases v, 1
  {
    match v
    case Null => Ok([NONE])
    case Bool(b) => Ok([if b then TRUE else FALSE])
    case Int(i) => EncodeInt(i)
    case Float(f) => Ok([FLOAT64] + f)
    case Str(s) => Join(Header(STR, |s|), Ok(s))
    case Other(s) => Join(Header(STR, |s|), Ok(s))
    case Bytes(s) => Join(Header(BYTES, |s|), Ok(s))
    case ByteArray(s) => Join(Header(BYTES, |s|), Ok(s))
    case Set(items) => Join(Header(SET, |items|), EncodeAll(items))
    case List(items) => Join(Header(LIST, |items|), EncodeAll(items))
    case Tuple(items) => Join(Header(LIST, |items|), EncodeAll(items))
    case Dict(pairs) => Join(Header(DICT, |pairs|), EncodePairs(pairs))
  }

  function EncodeInt(i: int): Result<seq<Byte>> {
    if i >= TWO63 || i < -TWO63 then Err(IntOverflow)
    else if -128 <= i <= 127 then Ok([SMALLINT] + BigEndian(Wrap(i, 256), 1))
    else Ok([INT64] + BigEndian(Wrap(i, TWO64), 8))
  }

  function EncodeAll(items: seq<Value>): Result<seq<Byte>>
    decreases items, 0
  {
    if items == [] then Ok([]) else Join(Encode(items[0]), EncodeAll(items[1..]))
  }

  function EncodePairs(pairs: seq<Pair>): Result<seq<Byte>>
    decreases pairs, 0
  {
    if pairs == [] then Ok([])
    else Join(EncodePair(pairs[0]), EncodePairs(pairs[1..]))
  }

  function EncodePair(p: Pair): Result<seq<Byte>>
    decreases p, 0
  {
    Join(Encode(p.key), Encode(p.value))
  }

  // ---- decoding ----

  /** Lists, sets and dicts cannot be set elements or dict keys. */
  predicate Hashable(v: Value) {
    !v.List? && !v.Set? && !v.Dict?
  }

  function AddItem(items: seq<Value>, x: Value): seq<Value> {
    if x in items then items else items + [x]
  }

  /** Assignment to a dict key: an existing key keeps its place. */
  function Put(pairs: seq<Pair>, p: Pair): seq<Pair> {
    if pairs == [] then [p]
    else if pairs[0].key == p.key then [p] + pairs[1..]
    else [pairs[0]] + Put(pairs[1..], p)
  }

  /** An unsigned read of `w` bytes. */
  function ReadAt(data: seq<Byte>, offset: nat, w: nat): Result<nat> {
    if offset + w <= |data| then Ok(FromBigEndian(data[offset..offset + w])) else Err(Truncated)
  }

  /** `data[lo:hi]` with Python's clamping. */
  function Slice(data: seq<Byte>, lo: nat, hi: nat): seq<Byte>
    requires lo <= hi
  {
    data[if lo <= |data| then lo else |data|..if hi <= |data| then hi else |data|]
  }

  function Remaining(data: seq<Byte>, offset: nat): nat {
    if offset <= |data| then |data| - offset else 0
  }

  function Decode(data: seq<Byte>, offset: nat): (r: Result<Decoded>)
    ensures r.Ok? ==> r.value.end > offset
    decreases Remaining(data, offset), 0
  {
    if offset >= |data| then Err(Truncated)
    else
      var o := offset + 1;
      match data[offset]
      case 0x00 => Ok(Decoded(Null, o))
      case 0x01 => Ok(Decoded(Bool(true), o))
      case 0x02 => Ok(Decoded(Bool(false), o))
      case 0x09 =>
        var n := ReadAt(data, o, 1);
        if n.Err? then Err(n.error) else Ok(Decoded(Int(if n.value < 128 then n.value else n.value - 256), o + 1))
      case 0x03 =>
        var n := ReadAt(data, o, 8);
        if n.Err? then Err(n.error) else Ok(Decoded(Int(if n.value < TWO63 then n.value else n.value - TWO64), o + 8))
      case 0x04 =>
        if o + 8 <= |data| then Ok(Decoded(Float(data[o..o + 8]), o + 8)) else Err(Truncated)
      case 0x05 =>
        var n := ReadAt(data, o, 4);
        if n.Err? then Err(n.error)
        else if !ValidUtf8(Slice(data, o + 4, o + 4 + n.value)) then Err(BadText)
        else Ok(Decoded(Str(Slice(data, o + 4, o + 4 + n.value)), o + 4 + n.value))
      case 0x06 =>
        var n := ReadAt(data, o, 4);
        if n.Err? then Err(n.error)
        else Ok(Decoded(Bytes(Slice(data, o + 4, o + 4 + n.value)), o + 4 + n.value))
      case 0x0A =>
        var n := ReadAt(data, o, 4);
        if n.Err? then Err(n.error) else DecodeSet(data, o + 4, n.value, [])
      case 0x07 =>
        var n := ReadAt(data, o, 4);
        if n.Err? then Err(n.error) else DecodeList(data, o + 4, n.value, [])
      case 0x08 =>
        var n := ReadAt(data, o, 4);
        if n.Err? then Err(n.error) else DecodeDict(data, o + 4, n.value, [])
      case _ => Err(UnknownTag)
  }

  function DecodeList(data: seq<Byte>, offset: nat, count: nat, acc: seq<Value>): (r: Result<Decoded>)
    ensures r.Ok? ==> r.value.end >= offset
    decreases Remaining(data, offset), count + 1
  {
    if count == 0 then Ok(Decoded(List(acc), offset))
    else
      var x := Decode(data, offset);
      if x.Err? then x else DecodeList(data, x.value.end, count - 1, acc + [x.value.value])
  }

  function DecodeSet(data: seq<Byte>, offset: nat, count: nat, acc: seq<Value>): (r: Result<Decoded>)
    ensures r.Ok? ==> r.value.end >= offset
    decreases Remaining(data, offset), count + 1
  {
    if count == 0 then Ok(Decoded(Set(acc), offset))
    else
      var x := Decode(data, offset);
      if x.Err? then x
      else if !Hashable(x.value.value) then Err(Unhashable)
      else DecodeSet(data, x.value.end, count - 1, AddItem(acc, x.value.value))
  }

  function DecodeDict(data: seq<Byte>, offset: nat, count: nat, acc: seq<Pair>): (r: Result<Decoded>)
    ensures r.Ok? ==> r.value.end >= offset
    decreases Remaining(data, offset), count + 1
  {
    if count == 0 then Ok(Decoded(Dict(acc), offset))
    else
      var k := Decode(data, offset);
      if k.Err? then k else
      var v := Decode(data, k.value.end);
      if v.Err? then v
      else if !Hashable(k.value.value) then Err(Unhashable)
      else DecodeDict(data, v.value.end, count - 1, Put(acc, Pair(k.value.value, v.value.value)))
  }

  // ---- what comes back ----

  /** The value a decoder rebuilds: tuples become lists, bytearrays bytes, other values strings. */
  function Norm(v: Value): Value
    decreases v, 1
  {
    match v
    case ByteArray(s) => Bytes(s)
    case Other(s) => Str(s)
    case Tuple(items) => List(NormAll(items))
    case List(items) => List(NormAll(items))
    case Set(items) => Set(NormSet([], items))
    case Dict(pairs) => Dict(NormDict([], pairs))
    case _ => v
  }

  function NormAll(items: seq<Value>): seq<Value>
    decreases items, 0
  {
    if items == [] then [] else [Norm(items[0])] + NormAll(items[1..])
  }

  function NormSet(acc: seq<Value>, items: seq<Value>): seq<Value>
    decreases items, 0
  {
    if items == [] then acc else NormSet(AddItem(acc, Norm(items[0])), items[1..])
  }

  function NormDict(acc: seq<Pair>, pairs: seq<Pair>): seq<Pair>
    decreases pairs, 0
  {
    if pairs == [] then acc
    else NormDict(Put(acc, NormPair(pairs[0])), pairs[1..])
  }

  function NormPair(p: Pair): Pair
    decreases p, 0
  {
    Pair(Norm(p.key), Norm(p.value))
  }

  /** No set element or dict key turns into a list on the way: no tuple stands in key position. */
  predicate KeysStayHashable(v: Value)
    decreases v, 1
  {
    match v
    case Set(items) => SetKeys(items)
    case List(items) => ListKeys(items)
    case Tuple(items) => ListKeys(items)
    case Dict(pairs) => DictKeys(pairs)
    case _ => true
  }

  predicate ListKeys(items: seq<Value>)
    decreases items, 0
  {
    items == [] || (KeysStayHashable(items[0]) && ListKeys(items[1..]))
  }

  predicate SetKeys(items: seq<Value>)
    decreases items, 0
  {
    items == [] || (KeysStayHashable(items[0]) && Hashable(Norm(items[0])) && SetKeys(items[1..]))
  }

  predicate DictKeys(pairs: seq<Pair>)
    decreases pairs, 0
  {
    pairs == [] || (PairKeys(pairs[0]) && Hashable(NormPair(pairs[0]).key) && DictKeys(pairs[1..]))
  }

  predicate PairKeys(p: Pair)
    decreases p, 0
  {
    KeysStayHashable(p.key) && KeysStayHashable(p.value)
  }

  /** Decoding finds, at `offset`, the outcome for `v` and stops right after its encoding. */
  ghost predicate Recovers(data: seq<Byte>, offset: nat, v: Value)
    requires Encode(v).Ok?
  {
    Decode(data, offset) ==
      if KeysStayHashable(v) then Ok(Decoded(Norm(v), offset + |Encode(v).value|)) else Err(Unhashable)
  }

  ghost predicate PairRecovers(data: seq<Byte>, offset: nat, p: Pair)
    requires EncodePair(p).Ok?
  {
    Recovers(data, offset, p.key) && Recovers(data, offset + |Encode(p.key).value|, p.value)
  }

  /** `part` occurs in `data` at `offset`. */
  predicate Holds(data: seq<Byte>, offset: nat, part: seq<Byte>) {
    offset + |part| <= |data| && data[offset..offset + |part|] == part
  }

  lemma HoldsSplit(data: seq<Byte>, offset: nat, a: seq<Byte>, b: seq<Byte>)
    ensures Holds(data, offset, a + b) <==> Holds(data, offset, a) && Holds(data, offset + |a|, b)
  {
    if Holds(data, offset, a + b) {
      assert data[offset..offset + |a|] == data[offset..offset + |a + b|][..|a|] == a;
      assert data[offset + |a|..offset + |a| + |b|] == data[offset..offset + |a + b|][|a|..] == b;
    }
    if Holds(data, offset, a) && Holds(data, offset + |a|, b) {
      assert data[offset..offset + |a + b|] == data[offset..offset + |a|] + data[offset + |a|..offset + |a| + |b|];
    }
  }

  /** A tag followed by a four-byte length reads back as that length. */
  lemma HeaderReads(data: seq<Byte>, offset: nat, tag: Byte, n: nat, body: seq<Byte>)
    requires n < TWO32 && Holds(data, offset, [tag] + BigEndian(n, 4) + body)
    ensures offset < |data| && data[offset] == tag
    ensures ReadAt(data, offset + 1, 4) == Ok(n)
    ensures Holds(data, offset + 5, body)
  {
    HoldsSplit(data, offset, [tag] + BigEndian(n, 4), body);
    HoldsSplit(data, offset, [tag], BigEndian(n, 4));
    assert data[offset] == data[offset..offset + 1][0];
    Widths();
    BigEndianRoundTrip(n, 4);
  }

  /** A tag followed by `n` in `w` bytes reads back as `n`. */
  lemma NumberReads(data: seq<Byte>, offset: nat, tag: Byte, n: nat, w: nat)
    requires n < Pow256(w) && Holds(data, offset, [tag] + BigEndian(n, w))
    ensures offset < |data| && data[offset] == tag
    ensures ReadAt(data, offset + 1, w) == Ok(n)
  {
    HoldsSplit(data, offset, [tag], BigEndian(n, w));
    assert data[offset] == data[offset..offset + 1][0];
    BigEndianRoundTrip(n, w);
  }

  lemma IntRecovers(data: seq<Byte>, offset: nat, i: int)
    requires EncodeInt(i).Ok? && Holds(data, offset, EncodeInt(i).value)
    ensures Recovers(data, offset, Int(i))
  {
    Widths();
    if -128 <= i <= 127 {
      NumberReads(data, offset, SMALLINT, Wrap(i, 256), 1);
    } else {
      NumberReads(data, offset, INT64, Wrap(i, TWO64), 8);
    }
  }

  lemma TextRecovers(data: seq<Byte>, offset: nat, v: Value, s: seq<Byte>)
    requires v == Str(s) || v == Other(s) || v == Bytes(s) || v == ByteArray(s)
    requires WellFormed(v) && Encode(v).Ok? && Holds(data, offset, Encode(v).value)
    ensures Recovers(data, offset, v)
  {
    HeaderReads(data, offset, if v.Str? || v.Other? then STR else BYTES, |s|, s);
  }

  lemma ConstantRecovers(data: seq<Byte>, offset: nat, v: Value)
    requires v.Null? || v.Bool? || (v.Float? && WellFormed(v))
    requires Holds(data, offset, Encode(v).value)
    ensures Recovers(data, offset, v)
  {
    var e := Encode(v).value;
    assert data[offset] == data[offset..offset + |e|][0];
    if v.Float? {
      HoldsSplit(data, offset, [FLOAT64], v.ieee);
    }
  }

  /** Decoding an encoding, wherever it stands and whatever follows it, gives the value back and the exact end
      offset; it fails only if a tuple stands as a set element or dict key, and then always. */
  lemma {:induction false} RoundTrip(data: seq<Byte>, offset: nat, v: Value)
    requires WellFormed(v) && Encode(v).Ok? && Holds(data, offset, Encode(v).value)
    ensures Recovers(data, offset, v)
    decreases v, 2
  {
    match v
    case Int(i) => IntRecovers(data, offset, i);
    case Str(s) => TextRecovers(data, offset, v, s);
    case Other(s) => TextRecovers(data, offset, v, s);
    case Bytes(s) => TextRecovers(data, offset, v, s);
    case ByteArray(s) => TextRecovers(data, offset, v, s);
    case Set(items) => SetValueRecovers(data, offset, v);
    case List(items) => ListValueRecovers(data, offset, v);
    case Tuple(items) => ListValueRecovers(data, offset, v);
    case Dict(pairs) => DictValueRecovers(data, offset, v);
    case _ => ConstantRecovers(data, offset, v);
  }

  lemma {:induction false} ListValueRecovers(data: seq<Byte>, offset: nat, v: Value)
    requires v.List? || v.Tuple?
    requires WellFormed(v) && Encode(v).Ok? && Holds(data, offset, Encode(v).value)
    ensures Recovers(data, offset, v)
    decreases v, 1
  {
    HeaderReads(data, offset, LIST, |v.items|, EncodeAll(v.items).value);
    ListRoundTrip(data, offset + 5, v.items, []);
    assert [] + NormAll(v.items) == NormAll(v.items);
  }

  lemma {:induction false} SetValueRecovers(data: seq<Byte>, offset: nat, v: Value)
    requires v.Set?
    requires WellFormed(v) && Encode(v).Ok? && Holds(data, offset, Encode(v).value)
    ensures Recovers(data, offset, v)
    decreases v, 1
  {
    HeaderReads(data, offset, SET, |v.items|, EncodeAll(v.items).value);
    SetRoundTrip(data, offset + 5, v.items, []);
  }

  lemma {:induction false} DictValueRecovers(data: seq<Byte>, offset: nat, v: Value)
    requires v.Dict?
    requires WellFormed(v) && Encode(v).Ok? && Holds(data, offset, Encode(v).value)
    ensures Recovers(data, offset, v)
    decreases v, 1
  {
    HeaderReads(data, offset, DICT, |v.pairs|, EncodePairs(v.pairs).value);
    DictRoundTrip(data, offset + 5, v.pairs, []);
  }

  ghost predicate ListRecovers(data: seq<Byte>, offset: nat, items: seq<Value>, acc: seq<Value>)
    requires EncodeAll(items).Ok?
  {
    DecodeList(data, offset, |items|, acc) ==
      if ListKeys(items)
      then Ok(Decoded(List(acc + NormAll(items)), offset + |EncodeAll(items).value|)) else Err(Unhashable)
  }

  /** One turn of the list loop, then the rest. */
  lemma ListStep(data: seq<Byte>, offset: nat, items: seq<Value>, acc: seq<Value>)
    requires items != [] && EncodeAll(items).Ok?
    requires Recovers(data, offset, items[0])
    requires ListRecovers(data, offset + |Encode(items[0]).value|, items[1..], acc + [Norm(items[0])])
    ensures ListRecovers(data, offset, items, acc)
  {
    assert |items| == |items[1..]| + 1;
    assert |EncodeAll(items).value| == |Encode(items[0]).value| + |EncodeAll(items[1..]).value|;
    assert acc + [Norm(items[0])] + NormAll(items[1..]) == acc + NormAll(items);
  }

  lemma {:induction false} ListRoundTrip(data: seq<Byte>, offset: nat, items: seq<Value>, acc: seq<Value>)
    requires AllWellFormed(items)
    requires EncodeAll(items).Ok? && Holds(data, offset, EncodeAll(items).value)
    ensures ListRecovers(data, offset, items, acc)
    decreases items, 1
  {
    if items == [] {
      assert acc + NormAll(items) == acc;
    } else {
      HeadRoundTrip(data, offset, items);
      ListRoundTrip(data, offset + |Encode(items[0]).value|, items[1..], acc + [Norm(items[0])]);
      ListStep(data, offset, items, acc);
    }
  }

  ghost predicate SetRecovers(data: seq<Byte>, offset: nat, items: seq<Value>, acc: seq<Value>)
    requires EncodeAll(items).Ok?
  {
    DecodeSet(data, offset, |items|, acc) ==
      if SetKeys(items)
      then Ok(Decoded(Set(NormSet(acc, items)), offset + |EncodeAll(items).value|)) else Err(Unhashable)
  }

  /** One turn of the set loop, then the rest. */
  lemma SetStep(data: seq<Byte>, offset: nat, items: seq<Value>, acc: seq<Value>)
    requires items != [] && EncodeAll(items).Ok?
    requires Recovers(data, offset, items[0])
    requires SetRecovers(data, offset + |Encode(items[0]).value|, items[1..], AddItem(acc, Norm(items[0])))
    ensures SetRecovers(data, offset, items, acc)
  {
    assert |items| == |items[1..]| + 1;
    assert |EncodeAll(items).value| == |Encode(items[0]).value| + |EncodeAll(items[1..]).value|;
  }

  lemma {:induction false} SetRoundTrip(data: seq<Byte>, offset: nat, items: seq<Value>, acc: seq<Value>)
    requires AllWellFormed(items)
    requires EncodeAll(items).Ok? && Holds(data, offset, EncodeAll(items).value)
    ensures SetRecovers(data, offset, items, acc)
    decreases items, 1
  {
    if items != [] {
      HeadRoundTrip(data, offset, items);
      SetRoundTrip(data, offset + |Encode(items[0]).value|, items[1..], AddItem(acc, Norm(items[0])));
      SetStep(data, offset, items, acc);
    }
  }

  ghost predicate DictRecovers(data: seq<Byte>, offset: nat, pairs: seq<Pair>, acc: seq<Pair>)
    requires EncodePairs(pairs).Ok?
  {
    DecodeDict(data, offset, |pairs|, acc) ==
      if DictKeys(pairs)
      then Ok(Decoded(Dict(NormDict(acc, pairs)), offset + |EncodePairs(pairs).value|)) else Err(Unhashable)
  }

  /** One turn of the dict loop, then the rest. */
  lemma DictStep(data: seq<Byte>, offset: nat, pairs: seq<Pair>, acc: seq<Pair>)
    requires pairs != [] && EncodePairs(pairs).Ok?
    requires PairRecovers(data, offset, pairs[0])
    requires DictRecovers(data, offset + |EncodePair(pairs[0]).value|, pairs[1..], Put(acc, NormPair(pairs[0])))
    ensures DictRecovers(data, offset, pairs, acc)
  {
    assert |pairs| == |pairs[1..]| + 1;
    assert |EncodePairs(pairs).value| == |EncodePair(pairs[0]).value| + |EncodePairs(pairs[1..]).value|;
  }

  lemma {:induction false} DictRoundTrip(data: seq<Byte>, offset: nat, pairs: seq<Pair>, acc: seq<Pair>)
    requires PairsWellFormed(pairs)
    requires EncodePairs(pairs).Ok? && Holds(data, offset, EncodePairs(pairs).value)
    ensures DictRecovers(data, offset, pairs, acc)
    decreases pairs, 1
  {
    if pairs != [] {
      PairRoundTrip(data, offset, pairs);
      DictRoundTrip(data, offset + |EncodePair(pairs[0]).value|, pairs[1..], Put(acc, NormPair(pairs[0])));
      DictStep(data, offset, pairs, acc);
    }
  }

  /** The first item of a run of items decodes, and the rest of the run stands right behind it. */
  lemma {:induction false} HeadRoundTrip(data: seq<Byte>, offset: nat, items: seq<Value>)
    requires items != [] && AllWellFormed(items)
    requires EncodeAll(items).Ok? && Holds(data, offset, EncodeAll(items).value)
    ensures Encode(items[0]).Ok? && EncodeAll(items[1..]).Ok?
    ensures Recovers(data, offset, items[0])
    ensures Holds(data, offset + |Encode(items[0]).value|, EncodeAll(items[1..]).value)
    ensures |EncodeAll(items).value| == |Encode(items[0]).value| + |EncodeAll(items[1..]).value|
    decreases items, 0
  {
    HoldsSplit(data, offset, Encode(items[0]).value, EncodeAll(items[1..]).value);
    RoundTrip(data, offset, items[0]);
  }

  lemma {:induction false} PairRoundTrip(data: seq<Byte>, offset: nat, pairs: seq<Pair>)
    requires pairs != [] && PairsWellFormed(pairs)
    requires EncodePairs(pairs).Ok? && Holds(data, offset, EncodePairs(pairs).value)
    ensures EncodePair(pairs[0]).Ok? && EncodePairs(pairs[1..]).Ok?
    ensures PairRecovers(data, offset, pairs[0])
    ensures Holds(data, offset + |EncodePair(pairs[0]).value|, EncodePairs(pairs[1..]).value)
    ensures |EncodePairs(pairs).value| == |EncodePair(pairs[0]).value| + |EncodePairs(pairs[1..]).value|
    decreases pairs, 0
  {
    HoldsSplit(data, offset, EncodePair(pairs[0]).value, EncodePairs(pairs[1..]).value);
    OnePairRecovers(data, offset, pairs[0]);
  }

  lemma {:induction false} OnePairRecovers(data: seq<Byte>, offset: nat, p: Pair)
    requires PairWellFormed(p) && EncodePair(p).Ok? && Holds(data, offset, EncodePair(p).value)
    ensures PairRecovers(data, offset, p)
    decreases p, 0
  {
    HoldsSplit(data, offset, Encode(p.key).value, Encode(p.value).value);
    RoundTrip(data, offset, p.key);
    RoundTrip(data, offset + |Encode(p.key).value|, p.value);
  }

  // ---- values that come back unchanged ----

  /** Built only from kinds that have their own encoding, with no repeated set element or dict key. */
  predicate Plain(v: Value)
    decreases v, 1
  {
    match v
    case ByteArray(_) => false
    case Other(_) => false
    case Tuple(_) => false
    case List(items) => AllPlain(items)
    case Set(items) => AllPlain(items) && NoRepeats(items)
    case Dict(pairs) => PairsPlain(pairs)
    case _ => true
  }

  predicate AllPlain(items: seq<Value>)
    decreases items, 0
  {
    items == [] || (Plain(items[0]) && AllPlain(items[1..]))
  }

  predicate NoRepeats(items: seq<Value>) {
    forall i, j | 0 <= i < j < |items| :: items[i] != items[j]
  }

  predicate PairsPlain(pairs: seq<Pair>)
    decreases pairs, 0
  {
    pairs == [] || (PairPlain(pairs[0]) && (forall p | p in pairs[1..] :: p.key != pairs[0].key) && PairsPlain(pairs[1..]))
  }

  predicate PairPlain(p: Pair)
    decreases p, 0
  {
    Plain(p.key) && Plain(p.value)
  }

  /** Plain values come back unchanged. */
  lemma {:induction false} PlainUnchanged(v: Value)
    requires Plain(v)
    ensures Norm(v) == v
    decreases v, 1
  {
    match v
    case List(items) => AllPlainUnchanged(items);
    case Set(items) => SetUnchanged([], items);
    case Dict(pairs) => DictUnchanged([], pairs);
    case _ =>
  }

  lemma {:induction false} AllPlainUnchanged(items: seq<Value>)
    requires AllPlain(items)
    ensures NormAll(items) == items
    decreases items, 0
  {
    if items != [] {
      PlainUnchanged(items[0]);
      AllPlainUnchanged(items[1..]);
    }
  }

  lemma {:induction false} SetUnchanged(acc: seq<Value>, items: seq<Value>)
    requires AllPlain(items) && NoRepeats(acc + items)
    ensures NormSet(acc, items) == acc + items
    decreases items, 0
  {
    if items == [] {
      assert acc + items == acc;
    } else {
      PlainUnchanged(items[0]);
      forall x | x in acc ensures x != items[0] {
        var j :| 0 <= j < |acc| && acc[j] == x;
        assert (acc + items)[j] == x && (acc + items)[|acc|] == items[0];
      }
      assert acc + [items[0]] + items[1..] == acc + items;
      SetUnchanged(acc + [items[0]], items[1..]);
    }
  }

  lemma {:induction false} PutNewKey(pairs: seq<Pair>, p: Pair)
    requires forall q | q in pairs :: q.key != p.key
    ensures Put(pairs, p) == pairs + [p]
  {
    if pairs != [] {
      assert pairs[0] in pairs;
      PutNewKey(pairs[1..], p);
    }
  }

  lemma {:induction false} DictUnchanged(acc: seq<Pair>, pairs: seq<Pair>)
    requires PairsPlain(pairs)
    requires forall p, q | p in acc && q in pairs :: p.key != q.key
    ensures NormDict(acc, pairs) == acc + pairs
    decreases pairs, 0
  {
    if pairs == [] {
      assert acc + pairs == acc;
    } else {
      var p := pairs[0];
      PairUnchanged(p);
      assert p in pairs;
      PutNewKey(acc, p);
      forall a, q | a in acc + [p] && q in pairs[1..] ensures a.key != q.key {
        assert q in pairs;
      }
      DictUnchanged(acc + [p], pairs[1..]);
      assert acc + [p] + pairs[1..] == acc + pairs;
    }
  }

  lemma {:induction false} PairUnchanged(p: Pair)
    requires PairPlain(p)
    ensures NormPair(p) == p
    decreases p, 0
  {
    PlainUnchanged(p.key);
    PlainUnchanged(p.value);
  }

  // ---- the encoder and decoder as loops ----

  method EncodeValue(v: Value) returns (r: Result<seq<Byte>>)
    ensures r == Encode(v)
    decreases v, 1
  {
    match v
    case Set(items) => r := EncodeItems(SET, items);
    case List(items) => r := EncodeItems(LIST, items);
    case Tuple(items) => r := EncodeItems(LIST, items);
    case Dict(pairs) => r := EncodeEntries(pairs);
    case _ => r := Encode(v);
  }

  lemma JoinAssociates(a: Result<seq<Byte>>, b: Result<seq<Byte>>, c: Result<seq<Byte>>)
    ensures Join(Join(a, b), c) == Join(a, Join(b, c))
  {
    if a.Ok? && b.Ok? && c.Ok? {
      assert a.value + b.value + c.value == a.value + (b.value + c.value);
    }
  }

  method EncodeItems(tag: Byte, items: seq<Value>) returns (r: Result<seq<Byte>>)
    ensures r == Join(Header(tag, |items|), EncodeAll(items))
    decreases items, 0
  {
    r := Header(tag, |items|);
    if r.Err? {
      return;
    }
    for i := 0 to |items|
      invariant r.Ok?
      invariant Join(r, EncodeAll(items[i..])) == Join(Header(tag, |items|), EncodeAll(items))
    {
      var part := EncodeValue(items[i]);
      assert items[i..][0] == items[i] && items[i..][1..] == items[i + 1..];
      JoinAssociates(r, part, EncodeAll(items[i + 1..]));
      r := Join(r, part);
      if r.Err? {
        return;
      }
    }
    assert r.value + [] == r.value;
  }

  method EncodeEntries(pairs: seq<Pair>) returns (r: Result<seq<Byte>>)
    ensures r == Join(Header(DICT, |pairs|), EncodePairs(pairs))
    decreases pairs, 0
  {
    r := Header(DICT, |pairs|);
    if r.Err? {
      return;
    }
    for i := 0 to |pairs|
      invariant r.Ok?
      invariant Join(r, EncodePairs(pairs[i..])) == Join(Header(DICT, |pairs|), EncodePairs(pairs))
    {
      var p := pairs[i];
      assert p.key < p && p.value < p;
      var k := EncodeValue(p.key);
      var v := EncodeValue(p.value);
      assert pairs[i..][0] == p && pairs[i..][1..] == pairs[i + 1..];
      JoinAssociates(r, Join(k, v), EncodePairs(pairs[i + 1..]));
      r := Join(r, Join(k, v));
      if r.Err? {
        return;
      }
    }
    assert r.value + [] == r.value;
  }

  method DecodeValue(data: seq<Byte>, offset: nat) returns (r: Result<Decoded>)
    ensures r == Decode(data, offset)
    decreases Remaining(data, offset), 0
  {
    if offset < |data| && data[offset] in {SET, LIST, DICT} {
      var n := ReadAt(data, offset + 1, 4);
      if n.Err? {
        return Err(n.error);
      }
      if data[offset] == SET {
        r := DecodeSetItems(data, offset + 5, n.value);
      } else if data[offset] == LIST {
        r := DecodeListItems(data, offset + 5, n.value);
      } else {
        r := DecodeDictItems(data, offset + 5, n.value);
      }
    } else {
      r := Decode(data, offset);
    }
  }

  method DecodeListItems(data: seq<Byte>, offset: nat, count: nat) returns (r: Result<Decoded>)
    ensures r == DecodeList(data, offset, count, [])
    decreases Remaining(data, offset), 1
  {
    var o, items := offset, [];
    for i := 0 to count
      invariant o >= offset
      invariant DecodeList(data, o, count - i, items) == DecodeList(data, offset, count, [])
    {
      var x := DecodeValue(data, o);
      if x.Err? {
        return x;
      }
      o, items := x.value.end, items + [x.value.value];
    }
    r := Ok(Decoded(List(items), o));
  }

  method DecodeSetItems(data: seq<Byte>, offset: nat, count: nat) returns (r: Result<Decoded>)
    ensures r == DecodeSet(data, offset, count, [])
    decreases Remaining(data, offset), 1
  {
    var o, items := offset, [];
    for i := 0 to count
      invariant o >= offset
      invariant DecodeSet(data, o, count - i, items) == DecodeSet(data, offset, count, [])
    {
      var x := DecodeValue(data, o);
      if x.Err? {
        return x;
      }
      if !Hashable(x.value.value) {
        return Err(Unhashable);
      }
      o, items := x.value.end, AddItem(items, x.value.value);
    }
    r := Ok(Decoded(Set(items), o));
  }

  method DecodeDictItems(data: seq<Byte>, offset: nat, count: nat) returns (r: Result<Decoded>)
    ensures r == DecodeDict(data, offset, count, [])
    decreases Remaining(data, offset), 1
  {
    var o, pairs := offset, [];
    for i := 0 to count
      invariant o >= offset
      invariant DecodeDict(data, o, count - i, pairs) == DecodeDict(data, offset, count, [])
    {
      var k := DecodeValue(data, o);
      if k.Err? {
        return k;
      }
      var v := DecodeValue(data, k.value.end);
      if v.Err? {
        return v;
      }
      if !Hashable(k.value.value) {
        return Err(Unhashable);
      }
      o, pairs := v.value.end, Put(pairs, Pair(k.value.value, v.value.value));
    }
    r := Ok(Decoded(Dict(pairs), o));
  }
}
