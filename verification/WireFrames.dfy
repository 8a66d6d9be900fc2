/**
 Frames and batches: a twelve-byte header in front of a payload, optionally compressed, and a
 counted sequence of length-prefixed frames.

 Types added later carry JSON text instead of the compact encoding; that text is opaque here.
 Rebuilding an object of a given type from its decoded dict is not part of this model.
*/
module WireFrames {
  import opened Bytes
  import opened Wire

  /** What a frame carries: a value under a binary type tag, or JSON text under a later tag. */
  datatype Message =
    | Binary(tag: Byte, value: Value)
    | Json(tag: Byte, text: seq<Byte>)

  /** zlib, as the pair of functions the format relies on. */
  datatype Zip = Zip(compress: seq<Byte> -> seq<Byte>, decompress: seq<Byte> -> Result<seq<Byte>>)

  ghost predicate Lossless(z: Zip) {
    forall x :: z.decompress(z.compress(x)) == Ok(x)
  }

  const MAGIC: seq<Byte> := [0x43, 0x52, 0x44, 0x54]
  const HEADER_SIZE := 12
  const PROTOCOL_VERSION := 1

  predicate BinaryTag(t: Byte) {
    t in {0x01, 0x02, 0x03, 0x04, 0x05, 0x10, 0x20, 0x30, 0x31, 0x32}
  }

  predicate JsonTag(t: Byte) {
    0x40 <= t <= 0x47 || 0x50 <= t <= 0x55
  }

  predicate Sendable(m: Message) {
    match m
    case Binary(t, v) => BinaryTag(t) && WellFormed(v)
    case Json(t, _) => JsonTag(t)
  }

  function Payload(m: Message): Result<seq<Byte>> {
    match m
    case Binary(_, v) =>
      var e := Encode(v);
      if e.Ok? && |e.value| > TWO32 then Err(TooLong) else e
    case Json(_, text) => Ok(text)
  }

  /** The payload as sent and its flag byte: compressed only when asked and when that is shorter. */
  function Packed(payload: seq<Byte>, compress: bool, z: Zip): (seq<Byte>, Byte) {
    if compress && |z.compress(payload)| < |payload| then (z.compress(payload), 1) else (payload, 0)
  }

  function FrameHeader(tag: Byte, flags: Byte, n: nat): (h: seq<Byte>)
    ensures |h| == HEADER_SIZE
  {
    MAGIC + BigEndian(PROTOCOL_VERSION, 2) + [tag, flags] + BigEndian(n, 4)
  }

  function Serialize(m: Message, compress: bool, z: Zip): Result<seq<Byte>> {
    var p := Payload(m);
    if p.Err? then p
    else
      var (body, flags) := Packed(p.value, compress, z);
      if |body| >= TWO32 then Err(TooLong) else Ok(FrameHeader(m.tag, flags, |body|) + body)
  }

  function Deserialize(data: seq<Byte>, z: Zip): Result<Message> {
    if |data| < HEADER_SIZE then Err(TooShort)
    else if data[..4] != MAGIC then Err(BadMagic)
    else if FromBigEndian(data[4..6]) > PROTOCOL_VERSION then Err(BadVersion)
    else
      var n := FromBigEndian(data[8..12]);
      var body := Slice(data, HEADER_SIZE, HEADER_SIZE + n);
      if |body| != n then Err(Truncated)
      else
        var p := if data[7] % 2 == 1 then z.decompress(body) else Ok(body);
        if p.Err? then Err(BadCompression) else Interpret(data[6], p.value)
  }

  function Interpret(tag: Byte, payload: seq<Byte>): Result<Message> {
    if JsonTag(tag) then Ok(Json(tag, payload))
    else
      var d := Decode(payload, 0);
      if d.Err? then Err(d.error)
      else if !BinaryTag(tag) then Err(UnknownTag)
      else Ok(Binary(tag, d.value.value))
  }

  /** What a receiver reads for `m`. */
  function Received(m: Message): Result<Message> {
    match m
    case Json(_, _) => Ok(m)
    case Binary(t, v) => if KeysStayHashable(v) then Ok(Binary(t, Norm(v))) else Err(Unhashable)
  }

  lemma HeaderFields(tag: Byte, flags: Byte, n: nat, rest: seq<Byte>)
    requires n < TWO32
    ensures var d := FrameHeader(tag, flags, n) + rest;
            && d[..4] == MAGIC && FromBigEndian(d[4..6]) == PROTOCOL_VERSION
            && d[6] == tag && d[7] == flags && FromBigEndian(d[8..12]) == n && d[12..] == rest
  {
    var d := FrameHeader(tag, flags, n) + rest;
    Widths();
    BigEndianRoundTrip(PROTOCOL_VERSION, 2);
    BigEndianRoundTrip(n, 4);
    assert d[4..6] == BigEndian(PROTOCOL_VERSION, 2);
    assert d[8..12] == BigEndian(n, 4);
  }

  lemma PayloadInterpreted(m: Message)
    requires Sendable(m) && Payload(m).Ok?
    ensures Interpret(m.tag, Payload(m).value) == Received(m)
  {
    if m.Binary? {
      var p := Encode(m.value).value;
      assert p[0..|p|] == p;
      RoundTrip(p, 0, m.value);
    }
  }

  /** A frame followed by any bytes reads back as its message. */
  lemma FrameRoundTrip(m: Message, compress: bool, z: Zip, rest: seq<Byte>)
    requires Lossless(z) && Sendable(m) && Serialize(m, compress, z).Ok?
    ensures Deserialize(Serialize(m, compress, z).value + rest, z) == Received(m)
  {
    var (body, flags) := Packed(Payload(m).value, compress, z);
    var data := Serialize(m, compress, z).value + rest;
    assert data == FrameHeader(m.tag, flags, |body|) + (body + rest);
    HeaderFields(m.tag, flags, |body|, body + rest);
    assert Slice(data, 12, 12 + |body|) == data[12..][..|body|] == body;
    PayloadInterpreted(m);
  }

  /** No strict prefix of a frame is accepted. */
  lemma FramePrefixRejected(m: Message, compress: bool, z: Zip, cut: nat)
    requires Serialize(m, compress, z).Ok? && cut < |Serialize(m, compress, z).value|
    ensures Deserialize(Serialize(m, compress, z).value[..cut], z).Err?
  {
    if cut >= HEADER_SIZE {
      var (body, flags) := Packed(Payload(m).value, compress, z);
      var data := Serialize(m, compress, z).value[..cut];
      assert data == FrameHeader(m.tag, flags, |body|) + body[..cut - 12];
      HeaderFields(m.tag, flags, |body|, body[..cut - 12]);
    }
  }

  // ---- batches ----

  function Sized(frame: Result<seq<Byte>>): Result<seq<Byte>> {
    if frame.Err? then frame
    else if |frame.value| >= TWO32 then Err(TooLong)
    else Ok(BigEndian(|frame.value|, 4) + frame.value)
  }

  function SerializeAll(ms: seq<Message>, compress: bool, z: Zip): Result<seq<Byte>> {
    if ms == [] then Ok([])
    else Join(Sized(Serialize(ms[0], compress, z)), SerializeAll(ms[1..], compress, z))
  }

  function CountHeader(n: nat): Result<seq<Byte>> {
    if n < TWO32 then Ok(BigEndian(n, 4)) else Err(TooLong)
  }

  function SerializeBatch(ms: seq<Message>, compress: bool, z: Zip): Result<seq<Byte>> {
    Join(CountHeader(|ms|), SerializeAll(ms, compress, z))
  }

  datatype Step = Step(message: Message, end: nat)

  /** The length-prefixed frame at `offset`, and where the next one starts. */
  function NextMessage(data: seq<Byte>, offset: nat, z: Zip): Result<Step> {
    var size := ReadAt(data, offset, 4);
    if size.Err? then Err(Truncated)
    else
      var m := Deserialize(Slice(data, offset + 4, offset + 4 + size.value), z);
      if m.Err? then Err(m.error) else Ok(Step(m.value, offset + 4 + size.value))
  }

  function DeserializeAll(data: seq<Byte>, offset: nat, count: nat, acc: seq<Message>, z: Zip): Result<seq<Message>>
    decreases count
  {
    if count == 0 then Ok(acc)
    else
      var next := NextMessage(data, offset, z);
      if next.Err? then Err(next.error)
      else DeserializeAll(data, next.value.end, count - 1, acc + [next.value.message], z)
  }

  function DeserializeBatch(data: seq<Byte>, z: Zip): Result<seq<Message>> {
    if |data| < 4 then Err(TooShort) else DeserializeAll(data, 4, FromBigEndian(data[..4]), [], z)
  }

  /** What a receiver reads for a list of messages: all of them, or the first failure. */
  function ReceivedAll(ms: seq<Message>, acc: seq<Message>): Result<seq<Message>>
    decreases |ms|
  {
    if ms == [] then Ok(acc)
    else
      var r := Received(ms[0]);
      if r.Err? then Err(r.error) else ReceivedAll(ms[1..], acc + [r.value])
  }

  ghost predicate AllSendable(ms: seq<Message>) {
    forall m | m in ms :: Sendable(m)
  }

  lemma NumberReads(data: seq<Byte>, offset: nat, n: nat)
    requires n < TWO32 && Holds(data, offset, BigEndian(n, 4))
    ensures ReadAt(data, offset, 4) == Ok(n)
  {
    Widths();
    BigEndianRoundTrip(n, 4);
  }

  lemma SecondPart(data: seq<Byte>, offset: nat, first: seq<Byte>, second: seq<Byte>)
    requires |first| == 4 && Holds(data, offset, first + second)
    ensures Holds(data, offset, first) && Slice(data, offset + 4, offset + 4 + |second|) == second
  {
    HoldsSplit(data, offset, first, second);
  }

  lemma SizeReads(data: seq<Byte>, offset: nat, frame: seq<Byte>)
    requires |frame| < TWO32 && Holds(data, offset, BigEndian(|frame|, 4) + frame)
    ensures ReadAt(data, offset, 4) == Ok(|frame|)
    ensures Slice(data, offset + 4, offset + 4 + |frame|) == frame
  {
    SecondPart(data, offset, BigEndian(|frame|, 4), frame);
    NumberReads(data, offset, |frame|);
  }

  ghost predicate AllReceived(data: seq<Byte>, offset: nat, ms: seq<Message>, acc: seq<Message>, z: Zip) {
    DeserializeAll(data, offset, |ms|, acc, z) == ReceivedAll(ms, acc)
  }

  /** One turn of the batch loop, then the rest. */
  lemma ReceiveStep(data: seq<Byte>, offset: nat, frame: seq<Byte>, ms: seq<Message>, acc: seq<Message>, z: Zip)
    requires ms != [] && ReadAt(data, offset, 4) == Ok(|frame|)
    requires Slice(data, offset + 4, offset + 4 + |frame|) == frame && Deserialize(frame, z) == Received(ms[0])
    requires Received(ms[0]).Ok? ==> AllReceived(data, offset + 4 + |frame|, ms[1..], acc + [Received(ms[0]).value], z)
    ensures AllReceived(data, offset, ms, acc, z)
  {
  }

  /** The frames of `ms` stand at `offset`, one behind the other. */
  ghost predicate Stands(data: seq<Byte>, offset: nat, ms: seq<Message>, compress: bool, z: Zip) {
    SerializeAll(ms, compress, z).Ok? && Holds(data, offset, SerializeAll(ms, compress, z).value)
  }

  /** The first frame of a run of frames reads back, and the rest of the run stands right behind it. */
  lemma FirstFrame(data: seq<Byte>, offset: nat, ms: seq<Message>, compress: bool, z: Zip) returns (frame: seq<Byte>)
    requires Lossless(z) && ms != [] && Sendable(ms[0]) && Stands(data, offset, ms, compress, z)
    ensures ReadAt(data, offset, 4) == Ok(|frame|)
    ensures Slice(data, offset + 4, offset + 4 + |frame|) == frame && Deserialize(frame, z) == Received(ms[0])
    ensures Stands(data, offset + 4 + |frame|, ms[1..], compress, z)
  {
    frame := Serialize(ms[0], compress, z).value;
    HoldsSplit(data, offset, BigEndian(|frame|, 4) + frame, SerializeAll(ms[1..], compress, z).value);
    SizeReads(data, offset, frame);
    FrameRoundTrip(ms[0], compress, z, []);
    assert frame + [] == frame;
  }

  lemma SendableParts(ms: seq<Message>)
    requires AllSendable(ms) && ms != []
    ensures Sendable(ms[0]) && AllSendable(ms[1..])
  {
    assert forall m | m in ms[1..] :: m in ms;
  }

  lemma {:induction false} AllRoundTrip(data: seq<Byte>, offset: nat, ms: seq<Message>, compress: bool, z: Zip, acc: seq<Message>)
    requires Lossless(z) && AllSendable(ms) && Stands(data, offset, ms, compress, z)
    ensures AllReceived(data, offset, ms, acc, z)
    decreases |ms|
  {
    if ms != [] {
      SendableParts(ms);
      var frame := FirstFrame(data, offset, ms, compress, z);
      var first := Received(ms[0]);
      if first.Ok? {
        AllRoundTrip(data, offset + 4 + |frame|, ms[1..], compress, z, acc + [first.value]);
      }
      ReceiveStep(data, offset, frame, ms, acc, z);
    }
  }

  /** A batch, even followed by other bytes, reads back as its messages. */
  lemma BatchRoundTrip(ms: seq<Message>, compress: bool, z: Zip, rest: seq<Byte>)
    requires Lossless(z) && AllSendable(ms) && SerializeBatch(ms, compress, z).Ok?
    ensures DeserializeBatch(SerializeBatch(ms, compress, z).value + rest, z) == ReceivedAll(ms, [])
  {
    var body := SerializeAll(ms, compress, z).value;
    var data := SerializeBatch(ms, compress, z).value + rest;
    assert data[..4] == BigEndian(|ms|, 4);
    Widths();
    BigEndianRoundTrip(|ms|, 4);
    assert data[4..4 + |body|] == body;
    AllRoundTrip(data, 4, ms, compress, z, []);
  }

  /** `data` is what is left of `part` at `offset` after everything from some point on was cut off. */
  predicate CutShort(data: seq<Byte>, offset: nat, part: seq<Byte>) {
    offset <= |data| < offset + |part| && data[offset..] == part[..|data| - offset]
  }

  /** A cut in two adjacent parts is a cut in the first, or spares the first and cuts the second. */
  lemma CutSplits(data: seq<Byte>, offset: nat, a: seq<Byte>, b: seq<Byte>)
    requires CutShort(data, offset, a + b)
    ensures CutShort(data, offset, a) || (Holds(data, offset, a) && CutShort(data, offset + |a|, b))
  {
    var have := |data| - offset;
    if have < |a| {
      assert (a + b)[..have] == a[..have];
    } else {
      assert data[offset..offset + |a|] == data[offset..][..|a|] == (a + b)[..have][..|a|] == a;
      assert data[offset + |a|..] == data[offset..][|a|..] == (a + b)[..have][|a|..] == b[..have - |a|];
    }
  }

  /** A cut frame is not accepted. */
  lemma CutFrameRejected(data: seq<Byte>, offset: nat, m: Message, compress: bool, z: Zip)
    requires Serialize(m, compress, z).Ok? && CutShort(data, offset, Serialize(m, compress, z).value)
    ensures Deserialize(Slice(data, offset, offset + |Serialize(m, compress, z).value|), z).Err?
  {
    var frame := Serialize(m, compress, z).value;
    assert Slice(data, offset, offset + |frame|) == data[offset..] == frame[..|data| - offset];
    FramePrefixRejected(m, compress, z, |data| - offset);
  }

  /** Nor is a frame whose length prefix or body is cut. */
  lemma CutItemRejected(data: seq<Byte>, offset: nat, m: Message, compress: bool, z: Zip)
    requires Sized(Serialize(m, compress, z)).Ok? && CutShort(data, offset, Sized(Serialize(m, compress, z)).value)
    ensures var size := ReadAt(data, offset, 4);
            size.Ok? ==> Deserialize(Slice(data, offset + 4, offset + 4 + size.value), z).Err?
  {
    var frame := Serialize(m, compress, z).value;
    CutSplits(data, offset, BigEndian(|frame|, 4), frame);
    if !CutShort(data, offset, BigEndian(|frame|, 4)) {
      Widths();
      BigEndianRoundTrip(|frame|, 4);
      CutFrameRejected(data, offset + 4, m, compress, z);
    }
  }

  ghost predicate Rejects(data: seq<Byte>, offset: nat, count: nat, z: Zip) {
    forall acc :: DeserializeAll(data, offset, count, acc, z).Err?
  }

  lemma RejectsHere(data: seq<Byte>, offset: nat, count: nat, z: Zip)
    requires count > 0
    requires var size := ReadAt(data, offset, 4);
             size.Ok? ==> Deserialize(Slice(data, offset + 4, offset + 4 + size.value), z).Err?
    ensures Rejects(data, offset, count, z)
  {
  }

  lemma RejectsLater(data: seq<Byte>, offset: nat, n: nat, count: nat, z: Zip)
    requires count > 0 && ReadAt(data, offset, 4) == Ok(n)
    requires Rejects(data, offset + 4 + n, count - 1, z)
    ensures Rejects(data, offset, count, z)
  {
  }

  /** With any tail of the frames missing, some frame is missing or cut. */
  lemma {:induction false} CutRejected(data: seq<Byte>, offset: nat, ms: seq<Message>, compress: bool, z: Zip)
    requires SerializeAll(ms, compress, z).Ok? && CutShort(data, offset, SerializeAll(ms, compress, z).value)
    ensures Rejects(data, offset, |ms|, z)
    decreases |ms|
  {
    var item := Sized(Serialize(ms[0], compress, z)).value;
    CutSplits(data, offset, item, SerializeAll(ms[1..], compress, z).value);
    if CutShort(data, offset, item) {
      CutItemRejected(data, offset, ms[0], compress, z);
      RejectsHere(data, offset, |ms|, z);
    } else {
      var frame := Serialize(ms[0], compress, z).value;
      SizeReads(data, offset, frame);
      CutRejected(data, offset + |item|, ms[1..], compress, z);
      RejectsLater(data, offset, |frame|, |ms|, z);
    }
  }

  /** Every strict prefix of a batch is rejected. */
  lemma BatchPrefixRejected(ms: seq<Message>, compress: bool, z: Zip, cut: nat)
    requires SerializeBatch(ms, compress, z).Ok? && cut < |SerializeBatch(ms, compress, z).value|
    ensures DeserializeBatch(SerializeBatch(ms, compress, z).value[..cut], z).Err?
  {
    if cut >= 4 {
      var data := SerializeBatch(ms, compress, z).value[..cut];
      var body := SerializeAll(ms, compress, z).value;
      assert data[..4] == BigEndian(|ms|, 4);
      Widths();
      BigEndianRoundTrip(|ms|, 4);
      assert data[4..] == body[..cut - 4];
      CutRejected(data, 4, ms, compress, z);
    }
  }

  // ---- the loops ----

  method SerializeMany(ms: seq<Message>, compress: bool, z: Zip) returns (r: Result<seq<Byte>>)
    ensures r == SerializeBatch(ms, compress, z)
  {
    r := CountHeader(|ms|);
    if r.Err? {
      return;
    }
    for i := 0 to |ms|
      invariant r.Ok?
      invariant Join(r, SerializeAll(ms[i..], compress, z)) == SerializeBatch(ms, compress, z)
    {
      var part := Sized(Serialize(ms[i], compress, z));
      assert ms[i..][0] == ms[i] && ms[i..][1..] == ms[i + 1..];
      JoinAssociates(r, part, SerializeAll(ms[i + 1..], compress, z));
      r := Join(r, part);
      if r.Err? {
        return;
      }
    }
    assert r.value + [] == r.value;
  }

  method ReadNext(data: seq<Byte>, offset: nat, z: Zip) returns (r: Result<Step>)
    ensures r == NextMessage(data, offset, z)
  {
    var size := ReadAt(data, offset, 4);
    if size.Err? {
      return Err(Truncated);
    }
    var end := offset + 4 + size.value;
    var m := Deserialize(Slice(data, offset + 4, end), z);
    if m.Err? {
      return Err(m.error);
    }
    r := Ok(Step(m.value, end));
  }

  method DeserializeMany(data: seq<Byte>, z: Zip) returns (r: Result<seq<Message>>)
    ensures r == DeserializeBatch(data, z)
  {
    if |data| < 4 {
      return Err(TooShort);
    }
    var count := FromBigEndian(data[..4]);
    var offset: nat, results := 4, [];
    for i := 0 to count
      invariant DeserializeAll(data, offset, count - i, results, z) == DeserializeBatch(data, z)
    {
      var next := ReadNext(data, offset, z);
      if next.Err? {
        return Err(next.error);
      }
      results, offset := results + [next.value.message], next.value.end;
    }
    r := Ok(results);
  }
}
