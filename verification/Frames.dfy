/** All frames of a packet (section 19 of RFC 9000). */
module Frames {
  import opened Protocol
  import opened VarInt
  import opened StreamCredit
  import StreamFrames
  import AckFrames

  type StreamFrame = StreamFrames.StreamFrame
  type AckFrame = AckFrames.AckFrame

  /** All frames that consist of a type byte and a fixed list of fields. */
  datatype SimpleFrame =
    | Ping
    | ResetStream(id: nat, code: nat, offset: nat)
    | StopSending(id: nat, code: nat)
    | Crypto(offset: nat, data: seq<byte>)
    | NewToken(token: seq<byte>)
    | MaxData(limit: nat)
    | MaxStreamData(id: nat, limit: nat)
    | MaxStreams(kind: StreamType, n: nat)
    | DataBlocked(limit: nat)
    | StreamDataBlocked(id: nat, limit: nat)
    | StreamsBlocked(kind: StreamType, n: nat)
    | PathChallenge(data: seq<byte>)
    | PathResponse(data: seq<byte>)
    | ConnectionClose(application: bool, code: nat, reason: seq<byte>)

  datatype Frame = Ack(ack: AckFrame) | Stream(stream: StreamFrame) | Simple(simple: SimpleFrame)

  // ---------------------------------------------------------------- fields

  /** A variable-length integer, a 16-bit number, bytes with their length before them, and eight bytes. */
  datatype Field = Number(n: nat) | Code(n: nat) | Bytes(b: seq<byte>) | Fixed(b: seq<byte>)

  datatype FieldKind = ANumber | ACode | SomeBytes | EightBytes

  function KindOf(f: Field): FieldKind {
    match f
    case Number(_) => ANumber
    case Code(_) => ACode
    case Bytes(_) => SomeBytes
    case Fixed(_) => EightBytes
  }

  predicate FieldFits(f: Field) {
    match f
    case Number(n) => n <= MAX_BYTE_COUNT
    case Code(n) => n < 0x1_0000
    case Bytes(b) => |b| <= MAX_BYTE_COUNT
    case Fixed(b) => |b| == 8
  }

  function WriteField(c: Codec, f: Field, rest: seq<byte>): seq<byte> {
    match f
    case Number(n) => c.write(n) + rest
    case Code(n) => Octets(n, 2) + rest
    case Bytes(b) => c.write(|b|) + (b + rest)
    case Fixed(b) => b + rest
  }

  function ReadField(c: Codec, k: FieldKind, b: seq<byte>): Parsed<Field> {
    match k
    case ANumber =>
      var (n, b1) :- c.read(b);
      Ok(Number(n), b1)
    case ACode =>
      var (n, b1) :- ReadOctets(b, 2, 0);
      Ok(Code(n), b1)
    case SomeBytes =>
      var (n, b1) :- c.read(b);
      var (data, b2) :- ReadBytes(b1, n);
      Ok(Bytes(data), b2)
    case EightBytes =>
      var (data, b1) :- ReadBytes(b, 8);
      Ok(Fixed(data), b1)
  }

  function FieldSize(f: Field): nat
    requires FieldFits(f)
  {
    match f
    case Number(n) => VarIntLen(n)
    case Code(_) => 2
    case Bytes(b) => VarIntLen(|b|) + |b|
    case Fixed(b) => 8
  }

  lemma FieldRoundTrip(c: Codec, f: Field, rest: seq<byte>)
    requires Lawful(c) && FieldFits(f)
    ensures ReadField(c, KindOf(f), WriteField(c, f, rest)) == Ok(f, rest)
    ensures |WriteField(c, f, rest)| == FieldSize(f) + |rest|
  {
    match f
    case Number(n) =>
    case Code(n) =>
      Powers();
      UintRoundTrip(n, 2, rest);
    case Bytes(b) => BytesRoundTrip(b, rest);
    case Fixed(b) => BytesRoundTrip(b, rest);
  }

  lemma FieldGoesForward(c: Codec, k: FieldKind, b: seq<byte>)
    requires Lawful(c) && ReadField(c, k, b).Ok?
    ensures |ReadField(c, k, b).rest| <= |b|
  {
  }

  function WriteFields(c: Codec, fs: seq<Field>, rest: seq<byte>): seq<byte> {
    if fs == [] then rest else WriteField(c, fs[0], WriteFields(c, fs[1..], rest))
  }

  function ReadFields(c: Codec, ks: seq<FieldKind>, b: seq<byte>): (r: Parsed<seq<Field>>)
    ensures r.Ok? ==> |r.value| == |ks|
  {
    if ks == [] then Ok([], b)
    else
      var (f, b1) :- ReadField(c, ks[0], b);
      var (fs, b2) :- ReadFields(c, ks[1..], b1);
      Ok([f] + fs, b2)
  }

  function FieldsSize(fs: seq<Field>): nat
    requires forall f :: f in fs ==> FieldFits(f)
  {
    if fs == [] then 0 else FieldSize(fs[0]) + FieldsSize(fs[1..])
  }

  function Kinds(fs: seq<Field>): (ks: seq<FieldKind>)
    ensures |ks| == |fs|
  {
    seq(|fs|, i requires 0 <= i < |fs| => KindOf(fs[i]))
  }

  lemma {:induction false} FieldsRoundTrip(c: Codec, fs: seq<Field>, rest: seq<byte>)
    requires Lawful(c) && forall f :: f in fs ==> FieldFits(f)
    ensures ReadFields(c, Kinds(fs), WriteFields(c, fs, rest)) == Ok(fs, rest)
    ensures |WriteFields(c, fs, rest)| == FieldsSize(fs) + |rest|
  {
    if fs != [] {
      FieldsRoundTrip(c, fs[1..], rest);
      FieldRoundTrip(c, fs[0], WriteFields(c, fs[1..], rest));
      assert Kinds(fs)[1..] == Kinds(fs[1..]);
      assert [fs[0]] + fs[1..] == fs;
    }
  }

  lemma {:induction false} FieldsGoForward(c: Codec, ks: seq<FieldKind>, b: seq<byte>)
    requires Lawful(c) && ReadFields(c, ks, b).Ok?
    ensures |ReadFields(c, ks, b).rest| <= |b|
  {
    if ks != [] {
      FieldGoesForward(c, ks[0], b);
      FieldsGoForward(c, ks[1..], ReadField(c, ks[0], b).rest);
    }
  }

  // ---------------------------------------------------------------- simple frames

  function SimpleType(f: SimpleFrame): (t: byte)
    ensures t != 0 && t != 2 && t != 3 && !(8 <= t < 16)
  {
    match f
    case Ping => 0x01
    case ResetStream(_, _, _) => 0x04
    case StopSending(_, _) => 0x05
    case Crypto(_, _) => 0x06
    case NewToken(_) => 0x07
    case MaxData(_) => 0x10
    case MaxStreamData(_, _) => 0x11
    case MaxStreams(kind, _) => if kind == Bidi then 0x12 else 0x13
    case DataBlocked(_) => 0x14
    case StreamDataBlocked(_, _) => 0x15
    case StreamsBlocked(kind, _) => if kind == Bidi then 0x16 else 0x17
    case PathChallenge(_) => 0x1A
    case PathResponse(_) => 0x1B
    case ConnectionClose(application, _, _) => if application then 0x1D else 0x1C
  }

  /** The fields as written. The frame type that an error refers to is always given as 0. */
  function SimpleFields(f: SimpleFrame): seq<Field> {
    match f
    case Ping => []
    case ResetStream(id, code, offset) => [Number(id), Code(code), Number(offset)]
    case StopSending(id, code) => [Number(id), Code(code)]
    case Crypto(offset, data) => [Number(offset), Bytes(data)]
    case NewToken(token) => [Bytes(token)]
    case MaxData(limit) => [Number(limit)]
    case MaxStreamData(id, limit) => [Number(id), Number(limit)]
    case MaxStreams(_, n) => [Number(n)]
    case DataBlocked(limit) => [Number(limit)]
    case StreamDataBlocked(id, limit) => [Number(id), Number(limit)]
    case StreamsBlocked(_, n) => [Number(n)]
    case PathChallenge(data) => [Fixed(data)]
    case PathResponse(data) => [Fixed(data)]
    case ConnectionClose(application, code, reason) =>
      if application then [Code(code), Bytes(reason)] else [Code(code), Number(0), Bytes(reason)]
  }

  /** The fields that the parser expects after a type byte; none for an unknown type. */
  function Schema(t: byte): Option<seq<FieldKind>> {
    if t == 0x01 then Some([])
    else if t == 0x04 then Some([ANumber, ACode, ANumber])
    else if t == 0x05 then Some([ANumber, ACode])
    else if t == 0x06 then Some([ANumber, SomeBytes])
    else if t == 0x07 then Some([SomeBytes])
    else if t in {0x10, 0x12, 0x13, 0x14, 0x16, 0x17} then Some([ANumber])
    else if t in {0x11, 0x15} then Some([ANumber, ANumber])
    else if t in {0x1A, 0x1B} then Some([EightBytes])
    else if t == 0x1C then Some([ACode, ANumber, SomeBytes])
    else if t == 0x1D then Some([ACode, SomeBytes])
    else None
  }

  function Num(f: Field): nat {
    if f.Number? || f.Code? then f.n else 0
  }

  function Data(f: Field): seq<byte> {
    if f.Bytes? || f.Fixed? then f.b else []
  }

  function BuildSimple(t: byte, fs: seq<Field>): SimpleFrame
    requires Schema(t).Some? && |fs| == |Schema(t).value|
  {
    if t == 0x01 then Ping
    else if t == 0x04 then ResetStream(Num(fs[0]), Num(fs[1]), Num(fs[2]))
    else if t == 0x05 then StopSending(Num(fs[0]), Num(fs[1]))
    else if t == 0x06 then Crypto(Num(fs[0]), Data(fs[1]))
    else if t == 0x07 then NewToken(Data(fs[0]))
    else if t == 0x10 then MaxData(Num(fs[0]))
    else if t == 0x11 then MaxStreamData(Num(fs[0]), Num(fs[1]))
    else if t == 0x12 then MaxStreams(Bidi, Num(fs[0]))
    else if t == 0x13 then MaxStreams(Uni, Num(fs[0]))
    else if t == 0x14 then DataBlocked(Num(fs[0]))
    else if t == 0x15 then StreamDataBlocked(Num(fs[0]), Num(fs[1]))
    else if t == 0x16 then StreamsBlocked(Bidi, Num(fs[0]))
    else if t == 0x17 then StreamsBlocked(Uni, Num(fs[0]))
    else if t == 0x1A then PathChallenge(Data(fs[0]))
    else if t == 0x1B then PathResponse(Data(fs[0]))
    else if t == 0x1C then ConnectionClose(false, Num(fs[0]), Data(fs[2]))
    else ConnectionClose(true, Num(fs[0]), Data(fs[1]))
  }

  lemma SimpleInverse(f: SimpleFrame)
    ensures Schema(SimpleType(f)) == Some(Kinds(SimpleFields(f)))
    ensures BuildSimple(SimpleType(f), SimpleFields(f)) == f
  {
    assert Schema(SimpleType(f)).value == Kinds(SimpleFields(f));
  }

  // ---------------------------------------------------------------- STREAM frames

  function StreamType8(f: StreamFrame): (t: byte)
    ensures 8 <= t < 16
  {
    8 + (if f.fin then 1 else 0) + (if f.hasLen then 2 else 0) + (if f.offset != 0 then 4 else 0)
  }

  function WriteStream(c: Codec, f: StreamFrame, rest: seq<byte>): seq<byte> {
    var data := if f.hasLen then c.write(|f.data|) + (f.data + rest) else f.data + rest;
    [StreamType8(f)] + (c.write(f.id) + (if f.offset != 0 then c.write(f.offset) + data else data))
  }

  /** Without a length field, the frame extends to the end of the packet. */
  function ParseStream(c: Codec, t: byte, b: seq<byte>): Parsed<StreamFrame> {
    var (id, b1) :- c.read(b);
    var (offset, b2) :- if t / 4 % 2 == 1 then c.read(b1) else Ok(0, b1);
    var (n, b3) :- if t / 2 % 2 == 1 then c.read(b2) else Ok(|b2|, b2);
    var (data, b4) :- ReadBytes(b3, n);
    if offset + n > MAX_BYTE_COUNT then Bad(Invalid)
    else Ok(StreamFrames.StreamFrame(id, t % 2 == 1, t / 2 % 2 == 1, offset, data), b4)
  }

  lemma StreamBits(f: StreamFrame)
    ensures var t := StreamType8(f);
      (t % 2 == 1 <==> f.fin) && (t / 2 % 2 == 1 <==> f.hasLen) && (t / 4 % 2 == 1 <==> f.offset != 0)
  {
  }

  lemma StreamRoundTrip(c: Codec, f: StreamFrame, rest: seq<byte>)
    requires Lawful(c) && f.Encodable() && (f.hasLen || rest == [])
    ensures WriteStream(c, f, rest)[0] == StreamType8(f)
    ensures ParseStream(c, StreamType8(f), WriteStream(c, f, rest)[1..]) == Ok(f, rest)
    ensures |WriteStream(c, f, rest)| == StreamFrames.Length(f) + |rest|
  {
    StreamBits(f);
    var data := if f.hasLen then c.write(|f.data|) + (f.data + rest) else f.data + rest;
    var b1 := if f.offset != 0 then c.write(f.offset) + data else data;
    assert WriteStream(c, f, rest)[1..] == c.write(f.id) + b1;
    BytesRoundTrip(f.data, rest);
  }

  lemma StreamGoesForward(c: Codec, t: byte, b: seq<byte>)
    requires Lawful(c) && ParseStream(c, t, b).Ok?
    ensures |ParseStream(c, t, b).rest| <= |b|
  {
  }

  // ---------------------------------------------------------------- any frame

  /** Writing the frame gives no error and does not panic. */
  ghost predicate Writable(f: Frame) {
    match f
    case Ack(ack) => AckFrames.Writable(ack)
    case Stream(s) => s.Encodable() && (s.data != [] || s.fin)
    case Simple(s) => forall field :: field in SimpleFields(s) ==> FieldFits(field)
  }

  ghost function WriteFrame(c: Codec, f: Frame, rest: seq<byte>): seq<byte>
    requires Writable(f)
  {
    match f
    case Ack(ack) => AckFrames.WriteAck(c, ack, rest)
    case Stream(s) => WriteStream(c, s, rest)
    case Simple(s) => [SimpleType(s)] + WriteFields(c, SimpleFields(s), rest)
  }

  ghost function ParseFrame(c: Codec, b: seq<byte>): Parsed<Frame>
    requires b != []
  {
    if 8 <= b[0] < 16 then
      var (s, b1) :- ParseStream(c, b[0], b[1..]);
      Ok(Stream(s), b1)
    else if b[0] == 2 || b[0] == 3 then
      var (ack, b1) :- AckFrames.ParseAck(c, b);
      Ok(Ack(ack), b1)
    else if Schema(b[0]).Some? then
      var (fs, b1) :- ReadFields(c, Schema(b[0]).value, b[1..]);
      Ok(Simple(BuildSimple(b[0], fs)), b1)
    else Bad(Invalid)
  }

  /** What the receiver sees of a frame: an ACK frame may lose its lowest ranges. */
  ghost function Normalized(f: Frame): Frame
    requires Writable(f)
  {
    if f.Ack? then Ack(AckFrames.Normalized(f.ack)) else f
  }

  /** A STREAM frame without a length must come last. */
  predicate Delimited(f: Frame) {
    f.Stream? ==> f.stream.hasLen
  }

  lemma FrameRoundTrip(c: Codec, f: Frame, rest: seq<byte>)
    requires Lawful(c) && Writable(f) && (Delimited(f) || rest == [])
    ensures WriteFrame(c, f, rest) != [] && WriteFrame(c, f, rest)[0] != 0
    ensures ParseFrame(c, WriteFrame(c, f, rest)) == Ok(Normalized(f), rest)
  {
    match f
    case Ack(ack) => AckFrames.AckRoundTrip(c, ack, rest);
    case Stream(s) => StreamRoundTrip(c, s, rest);
    case Simple(s) =>
      SimpleInverse(s);
      FieldsRoundTrip(c, SimpleFields(s), rest);
      assert WriteFrame(c, f, rest)[1..] == WriteFields(c, SimpleFields(s), rest);
  }

  /** The length of a frame other than an ACK frame; for those, see `AckFrames.Length`. */
  ghost function Length(f: Frame): nat
    requires Writable(f) && !f.Ack?
  {
    if f.Stream? then StreamFrames.Length(f.stream) else 1 + FieldsSize(SimpleFields(f.simple))
  }

  lemma LengthIsExact(c: Codec, f: Frame, rest: seq<byte>)
    requires Lawful(c) && Writable(f) && !f.Ack?
    ensures |WriteFrame(c, f, rest)| == Length(f) + |rest|
  {
    if f.Simple? {
      FieldsRoundTrip(c, SimpleFields(f.simple), rest);
    }
  }

  lemma FrameGoesForward(c: Codec, b: seq<byte>)
    requires Lawful(c) && b != [] && ParseFrame(c, b).Ok?
    ensures |ParseFrame(c, b).rest| < |b|
  {
    if 8 <= b[0] < 16 {
      StreamGoesForward(c, b[0], b[1..]);
    } else if b[0] == 2 || b[0] == 3 {
      AckFrames.AckGoesForward(c, b);
    } else {
      FieldsGoForward(c, Schema(b[0]).value, b[1..]);
    }
  }

  // ---------------------------------------------------------------- a whole packet

  function SkipPadding(b: seq<byte>): (r: seq<byte>)
    ensures |r| <= |b| && (r != [] ==> r[0] != 0)
  {
    if b != [] && b[0] == 0 then SkipPadding(b[1..]) else b
  }

  /** Parses until nothing but padding is left. */
  ghost function ParseFrames(c: Codec, b: seq<byte>): Parsed<seq<Frame>>
    requires Lawful(c)
    decreases |b|
  {
    var b1 := SkipPadding(b);
    if b1 == [] then Ok([], [])
    else if ParseFrame(c, b1).Bad? then Bad(ParseFrame(c, b1).error)
    else
      FrameGoesForward(c, b1);
      var (fs, b2) :- ParseFrames(c, ParseFrame(c, b1).rest);
      Ok([ParseFrame(c, b1).value] + fs, b2)
  }

  /** An empty packet is an error. */
  ghost function ParsePacket(c: Codec, b: seq<byte>): Parsed<seq<Frame>>
    requires Lawful(c)
  {
    if b == [] then Bad(Invalid) else ParseFrames(c, b)
  }

  method ParseOne(c: Codec, b: seq<byte>) returns (r: Parsed<Frame>)
    requires b != []
    ensures r == ParseFrame(c, b)
  {
    if 8 <= b[0] < 16 {
      var s := ParseStream(c, b[0], b[1..]);
      return if s.Bad? then Bad(s.error) else Ok(Stream(s.value), s.rest);
    } else if b[0] == 2 || b[0] == 3 {
      var ack := AckFrames.Parse(c, b);
      return if ack.Bad? then Bad(ack.error) else Ok(Ack(ack.value), ack.rest);
    } else if Schema(b[0]).Some? {
      var fs := ReadFields(c, Schema(b[0]).value, b[1..]);
      return if fs.Bad? then Bad(fs.error) else Ok(Simple(BuildSimple(b[0], fs.value)), fs.rest);
    }
    return Bad(Invalid);
  }

  /** The next frame after any padding, or none at the end. */
  method ParseNextFrame(c: Codec, b: seq<byte>) returns (r: Parsed<Option<Frame>>)
    ensures var b1 := SkipPadding(b);
      r == if b1 == [] then Ok(None, [])
           else if ParseFrame(c, b1).Bad? then Bad(ParseFrame(c, b1).error)
           else Ok(Some(ParseFrame(c, b1).value), ParseFrame(c, b1).rest)
  {
    var rest := b;
    while rest != []
      invariant SkipPadding(rest) == SkipPadding(b)
      decreases |rest|
    {
      if rest[0] != 0 {
        var f := ParseOne(c, rest);
        return if f.Bad? then Bad(f.error) else Ok(Some(f.value), f.rest);
      }
      rest := rest[1..];
    }
    return Ok(None, []);
  }

  method ParsePayload(c: Codec, b: seq<byte>) returns (r: Parsed<seq<Frame>>)
    requires Lawful(c)
    ensures r == ParsePacket(c, b)
  {
    if b == [] {
      return Bad(Invalid);
    }
    var fs: seq<Frame>, rest := [], b;
    ghost var all := ParseFrames(c, b);
    assert all.Ok? ==> fs + all.value == all.value;
    while true
      invariant match ParseFrames(c, rest)
                case Bad(e) => all == Bad(e)
                case Ok(more, end) => all == Ok(fs + more, end)
      decreases |rest|
    {
      var next := ParseNextFrame(c, rest);
      if next.Bad? {
        return Bad(next.error);
      }
      if next.value.None? {
        assert fs + [] == fs;
        return Ok(fs, []);
      }
      FrameGoesForward(c, SkipPadding(rest));
      ghost var more := ParseFrames(c, next.rest);
      assert more.Ok? ==> fs + ([next.value.value] + more.value) == fs + [next.value.value] + more.value;
      fs, rest := fs + [next.value.value], next.rest;
    }
  }

  datatype Item = Padding | Framed(frame: Frame)

  ghost predicate WritableItems(items: seq<Item>) {
    forall i :: 0 <= i < |items| && items[i].Framed? ==>
      Writable(items[i].frame) && (i < |items| - 1 ==> Delimited(items[i].frame))
  }

  ghost function WriteItems(c: Codec, items: seq<Item>): seq<byte>
    requires WritableItems(items)
  {
    if items == [] then []
    else if items[0].Padding? then [0] + WriteItems(c, items[1..])
    else WriteFrame(c, items[0].frame, WriteItems(c, items[1..]))
  }

  ghost function FramesOf(items: seq<Item>): seq<Frame>
    requires WritableItems(items)
  {
    if items == [] then []
    else if items[0].Padding? then FramesOf(items[1..])
    else [Normalized(items[0].frame)] + FramesOf(items[1..])
  }

  /** A packet of frames, with padding between them, is parsed into the same frames. */
  lemma {:induction false} PacketRoundTrip(c: Codec, items: seq<Item>)
    requires Lawful(c) && WritableItems(items)
    ensures ParseFrames(c, WriteItems(c, items)) == Ok(FramesOf(items), [])
  {
    if items != [] {
      var rest := WriteItems(c, items[1..]);
      PacketRoundTrip(c, items[1..]);
      if items[0].Padding? {
        assert ([0] + rest)[1..] == rest;
        SamePadding(c, [0] + rest);
      } else {
        assert |items| == 1 ==> rest == [];
        FrameRoundTrip(c, items[0].frame, rest);
      }
    }
  }

  lemma SamePadding(c: Codec, b: seq<byte>)
    requires Lawful(c) && b != [] && b[0] == 0
    ensures ParseFrames(c, b) == ParseFrames(c, b[1..])
  {
  }

  /** The same with the integers of the source, and for the whole payload. */
  lemma PayloadRoundTrip(items: seq<Item>)
    requires WritableItems(items) && items != []
    ensures Lawful(VARINT) && ParsePacket(VARINT, WriteItems(VARINT, items)) == Ok(FramesOf(items), [])
  {
    VarIntIsLawful();
    PacketRoundTrip(VARINT, items);
    assert WriteItems(VARINT, items) != [] by {
      if items[0].Framed? {
        assert |items| == 1 ==> WriteItems(VARINT, items[1..]) == [];
        FrameRoundTrip(VARINT, items[0].frame, WriteItems(VARINT, items[1..]));
      }
    }
  }
}
