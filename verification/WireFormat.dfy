/**
 The bytes of the wire format, written out: numbers as big-endian values, and a table of frames and
 headers. The codecs are proved against these, in both directions.
 */
module WireFormat {
  import opened Protocol
  import opened VarInt
  import opened PacketNumbers
  import opened AckRanges
  import opened StreamCredit
  import Headers
  import Frames
  import AckFrames
  import StreamFrames

  // ---------------------------------------------------------------- numbers

  /** The number that these bytes are, most significant first. */
  function BigEndian(b: seq<byte>): nat {
    if b == [] then 0 else 256 * BigEndian(b[..|b| - 1]) + b[|b| - 1]
  }

  lemma BigEndianSnoc(b: seq<byte>, x: byte)
    ensures BigEndian(b + [x]) == 256 * BigEndian(b) + x
  {
    assert (b + [x])[..|b|] == b;
  }

  lemma {:induction false} BigEndianFront(x: byte, b: seq<byte>)
    ensures BigEndian([x] + b) == x * Pow256(|b|) + BigEndian(b)
    decreases |b|
  {
    if b == [] {
      assert [x] + b == [] + [x];
      BigEndianSnoc([], x);
    } else {
      var n := |b| - 1;
      BigEndianFront(x, b[..n]);
      assert [x] + b == ([x] + b[..n]) + [b[n]];
      BigEndianSnoc([x] + b[..n], b[n]);
      Scale(x, Pow256(n), BigEndian(b[..n]));
    }
  }

  lemma Scale(x: nat, p: nat, y: nat)
    ensures 256 * (x * p + y) == x * (256 * p) + 256 * y
  {
  }

  /** The low octets are the number without what is above them. */
  lemma {:induction false} OctetsValue(i: nat, n: nat)
    ensures BigEndian(Octets(i, n)) + Top(i, n) * Pow256(n) == i
    decreases n
  {
    if n > 0 {
      OctetsValue(i / 256, n - 1);
      BigEndianSnoc(Octets(i / 256, n - 1), i % 256);
      Scale(Top(i, n), Pow256(n - 1), BigEndian(Octets(i / 256, n - 1)));
    }
  }

  lemma {:induction false} ReadOctetsValue(b: seq<byte>, n: nat, acc: nat)
    ensures ReadOctets(b, n, acc).Ok? <==> n <= |b|
    ensures n <= |b| ==> ReadOctets(b, n, acc) == Ok(acc * Pow256(n) + BigEndian(b[..n]), b[n..])
    decreases n
  {
    if n > 0 && b != [] {
      ReadOctetsValue(b[1..], n - 1, acc * 256 + b[0]);
      if n <= |b| {
        assert b[..n] == [b[0]] + b[1..][..n - 1];
        BigEndianFront(b[0], b[1..][..n - 1]);
        Shift(acc, b[0], Pow256(n - 1));
      }
    }
  }

  lemma Shift(acc: nat, x: nat, p: nat)
    ensures (acc * 256 + x) * p == acc * (256 * p) + x * p
  {
    assert acc * 256 * p == acc * (256 * p);
  }

  /** The shortest of 1, 2, 4 and 8 bytes that has two bits to spare; the length is in those bits. */
  lemma VarIntBytes(i: nat)
    requires i < 0x4000_0000_0000_0000
    ensures var b := WriteVarInt(i);
      if i < 0x40 then |b| == 1 && BigEndian(b) == i
      else if i < 0x4000 then |b| == 2 && BigEndian(b) == 0x4000 + i
      else if i < 0x4000_0000 then |b| == 4 && BigEndian(b) == 0x8000_0000 + i
      else |b| == 8 && BigEndian(b) == 0xC000_0000_0000_0000 + i
  {
    var n := VarIntLen(i) - 1;
    Powers();
    TopByShift(i);
    OctetsValue(i, n);
    BigEndianFront(FirstByte(i), Octets(i, n));
    if i < 0x40 {
      assert n == 0 && Octets(i, 0) == [];
    } else if i < 0x4000 {
      assert n == 1;
    } else if i < 0x4000_0000 {
      assert n == 3;
    } else {
      assert n == 7;
    }
  }

  /** How long a number is, by its first byte. */
  function LengthByFirst(first: byte): (n: nat)
    ensures n in {1, 2, 4, 8}
  {
    match first / 64 case 0 => 1 case 1 => 2 case 2 => 4 case _ => 8
  }

  /** Reading takes as many bytes as the first one says and drops its two top bits, also for numbers that were not written in the shortest way. */
  lemma ReadVarIntBytes(b: seq<byte>)
    ensures ReadVarInt(b).Ok? <==> b != [] && LengthByFirst(b[0]) <= |b|
    ensures ReadVarInt(b).Ok? ==>
      var n := LengthByFirst(b[0]);
      && ReadVarInt(b).rest == b[n..]
      && ReadVarInt(b).value == BigEndian(b[..n]) - (b[0] / 64 * 64) * Pow256(n - 1)
  {
    if b != [] {
      var n := LengthByFirst(b[0]);
      assert Following(b[0]) == n - 1;
      ReadOctetsValue(b[1..], n - 1, b[0] % 64);
      if n <= |b| {
        assert b[..n] == [b[0]] + b[1..][..n - 1] && b[1..][n - 1..] == b[n..];
        BigEndianFront(b[0], b[1..][..n - 1]);
        Split(b[0] / 64 * 64, b[0] % 64, Pow256(n - 1));
      }
    }
  }

  lemma Split(high: nat, low: nat, p: nat)
    ensures (high + low) * p == high * p + low * p
  {
  }

  /** A packet number is cut to 7, 14 or 30 bits, with the length in the bits above. */
  lemma PacketNumberBytes(pn: nat, len: nat)
    requires ValidLen(len)
    ensures var b := WritePacketNumber(pn, len, []);
      && |b| == len
      && BigEndian(b) == (if len == 1 then pn % 0x80 else if len == 2 then 0x8000 + pn % 0x4000 else 0xC000_0000 + pn % 0x4000_0000)
  {
    var b := WritePacketNumber(pn, len, []);
    PacketNumberRoundTrip(pn, len, []);
    if len == 1 {
      assert BigEndian(b) == 256 * BigEndian([]) + b[0];
    } else if len == 2 {
      assert b[..1] == [b[0]] && [b[0]][..0] == [];
      assert BigEndian([b[0]]) == b[0];
    } else {
      assert b[..3][..2] == b[..2] && b[..2][..1] == [b[0]] && [b[0]][..0] == [];
      assert BigEndian([b[0]]) == b[0];
      assert BigEndian(b[..2]) == 256 * BigEndian([b[0]]) + b[1];
      assert BigEndian(b[..3]) == 256 * BigEndian(b[..2]) + b[2];
    }
  }

  // ---------------------------------------------------------------- frames

  lemma TwoOctets(n: nat)
    requires n < 0x1_0000
    ensures Octets(n, 2) == [n / 0x100, n % 0x100]
  {
    assert Octets(n, 2) == Octets(n / 0x100, 1) + [n % 0x100];
    assert Octets(n / 0x100, 1) == Octets(n / 0x100 / 0x100, 0) + [n / 0x100 % 0x100];
  }

  function Code(n: nat): seq<byte>
    requires n < 0x1_0000
  {
    [n / 0x100, n % 0x100]
  }

  /** The codes of a frame fit 16 bits. */
  predicate CodesFit(f: Frames.SimpleFrame) {
    match f
    case ResetStream(_, code, _) => code < 0x1_0000
    case StopSending(_, code) => code < 0x1_0000
    case ConnectionClose(_, code, _) => code < 0x1_0000
    case _ => true
  }

  /** The bytes of every frame but STREAM and ACK frames. */
  function Table(c: Codec, f: Frames.SimpleFrame, rest: seq<byte>): seq<byte>
    requires CodesFit(f)
  {
    match f
    case Ping => [0x01] + rest
    case ResetStream(id, code, offset) => [0x04] + (c.write(id) + (Code(code) + (c.write(offset) + rest)))
    case StopSending(id, code) => [0x05] + (c.write(id) + (Code(code) + rest))
    case Crypto(offset, data) => [0x06] + (c.write(offset) + (c.write(|data|) + (data + rest)))
    case NewToken(token) => [0x07] + (c.write(|token|) + (token + rest))
    case MaxData(limit) => [0x10] + (c.write(limit) + rest)
    case MaxStreamData(id, limit) => [0x11] + (c.write(id) + (c.write(limit) + rest))
    case MaxStreams(Bidi, n) => [0x12] + (c.write(n) + rest)
    case MaxStreams(Uni, n) => [0x13] + (c.write(n) + rest)
    case DataBlocked(limit) => [0x14] + (c.write(limit) + rest)
    case StreamDataBlocked(id, limit) => [0x15] + (c.write(id) + (c.write(limit) + rest))
    case StreamsBlocked(Bidi, n) => [0x16] + (c.write(n) + rest)
    case StreamsBlocked(Uni, n) => [0x17] + (c.write(n) + rest)
    case PathChallenge(data) => [0x1A] + (data + rest)
    case PathResponse(data) => [0x1B] + (data + rest)
    case ConnectionClose(false, code, reason) => [0x1C] + (Code(code) + (c.write(0) + (c.write(|reason|) + (reason + rest))))
    case ConnectionClose(true, code, reason) => [0x1D] + (Code(code) + (c.write(|reason|) + (reason + rest)))
  }

  lemma OneField(c: Codec, a: Frames.Field, rest: seq<byte>)
    ensures Frames.WriteFields(c, [a], rest) == Frames.WriteField(c, a, rest)
  {
    assert [a][1..] == [];
  }

  lemma TwoFields(c: Codec, a: Frames.Field, b: Frames.Field, rest: seq<byte>)
    ensures Frames.WriteFields(c, [a, b], rest) == Frames.WriteField(c, a, Frames.WriteField(c, b, rest))
  {
    assert [a, b][1..] == [b];
    OneField(c, b, rest);
  }

  lemma ThreeFields(c: Codec, a: Frames.Field, b: Frames.Field, d: Frames.Field, rest: seq<byte>)
    ensures Frames.WriteFields(c, [a, b, d], rest) == Frames.WriteField(c, a, Frames.WriteField(c, b, Frames.WriteField(c, d, rest)))
  {
    assert [a, b, d][1..] == [b, d];
    TwoFields(c, b, d, rest);
  }

  lemma WritableCodes(f: Frames.SimpleFrame)
    requires Frames.Writable(Frames.Simple(f))
    ensures CodesFit(f)
  {
    match f
    case ResetStream(id, code, offset) => assert Frames.Field.Code(code) in Frames.SimpleFields(f);
    case StopSending(id, code) => assert Frames.Field.Code(code) in Frames.SimpleFields(f);
    case ConnectionClose(application, code, reason) => assert Frames.Field.Code(code) in Frames.SimpleFields(f);
    case _ =>
  }

  /** Every frame is written as the table says. */
  lemma SimpleBytes(c: Codec, f: Frames.SimpleFrame, rest: seq<byte>)
    requires Frames.Writable(Frames.Simple(f))
    ensures CodesFit(f) && Frames.WriteFrame(c, Frames.Simple(f), rest) == Table(c, f, rest)
  {
    WritableCodes(f);
    var fs := Frames.SimpleFields(f);
    if |fs| == 1 {
      OneField(c, fs[0], rest);
    } else if |fs| == 2 {
      TwoFields(c, fs[0], fs[1], rest);
    } else if |fs| == 3 {
      ThreeFields(c, fs[0], fs[1], fs[2], rest);
    }
    match f
    case ResetStream(id, code, offset) => TwoOctets(code);
    case StopSending(id, code) => TwoOctets(code);
    case ConnectionClose(application, code, reason) => TwoOctets(code);
    case _ =>
  }

  /** A CONNECTION_CLOSE frame may name any frame type; it is ignored. */
  lemma CloseParses(c: Codec, code: nat, frameType: nat, reason: seq<byte>, rest: seq<byte>)
    requires Lawful(c) && code < 0x1_0000 && frameType <= MAX_BYTE_COUNT && |reason| <= MAX_BYTE_COUNT
    ensures Frames.ParseFrame(c, [0x1C] + (Code(code) + (c.write(frameType) + (c.write(|reason|) + (reason + rest)))))
      == Ok(Frames.Simple(Frames.ConnectionClose(false, code, reason)), rest)
  {
    var fs := [Frames.Field.Code(code), Frames.Number(frameType), Frames.Bytes(reason)];
    Frames.FieldsRoundTrip(c, fs, rest);
    ThreeFields(c, fs[0], fs[1], fs[2], rest);
    TwoOctets(code);
    var body := Frames.WriteFields(c, fs, rest);
    assert ([0x1C] + body)[1..] == body;
    assert Frames.Kinds(fs) == [Frames.ACode, Frames.ANumber, Frames.SomeBytes];
  }

  /** A frame with any other type byte is refused. */
  lemma UnknownTypes(c: Codec, b: seq<byte>)
    requires b != []
    requires b[0] !in {0x01, 0x02, 0x03, 0x04, 0x05, 0x06, 0x07, 0x10, 0x11, 0x12, 0x13, 0x14, 0x15, 0x16, 0x17, 0x1A, 0x1B, 0x1C, 0x1D}
    requires !(0x08 <= b[0] <= 0x0F)
    ensures Frames.ParseFrame(c, b) == Bad(Invalid)
  {
  }

  // ---------------------------------------------------------------- STREAM frames

  /** The type byte of a STREAM frame: 0x08, and one bit each for the end, the length field and the offset field. */
  function StreamType(fin: bool, hasLen: bool, hasOffset: bool): byte {
    match (fin, hasLen, hasOffset)
    case (false, false, false) => 0x08
    case (true, false, false) => 0x09
    case (false, true, false) => 0x0A
    case (true, true, false) => 0x0B
    case (false, false, true) => 0x0C
    case (true, false, true) => 0x0D
    case (false, true, true) => 0x0E
    case (true, true, true) => 0x0F
  }

  /** The bytes of a STREAM frame whose offset field may be left out. */
  function StreamBytes(c: Codec, f: StreamFrames.StreamFrame, hasOffset: bool, rest: seq<byte>): seq<byte> {
    [StreamType(f.fin, f.hasLen, hasOffset)] + (c.write(f.id)
      + ((if hasOffset then c.write(f.offset) else []) + ((if f.hasLen then c.write(|f.data|) else []) + (f.data + rest))))
  }

  /** The offset field is written exactly if the offset is not zero. */
  lemma StreamFrameBytes(c: Codec, f: StreamFrames.StreamFrame, rest: seq<byte>)
    ensures Frames.WriteStream(c, f, rest) == StreamBytes(c, f, f.offset != 0, rest)
  {
    var empty: seq<byte> := [];
    var data := f.data + rest;
    assert empty + data == data;
    assert empty + (c.write(|f.data|) + data) == c.write(|f.data|) + data;
  }

  lemma TypeBits(fin: bool, hasLen: bool, hasOffset: bool)
    ensures var t := StreamType(fin, hasLen, hasOffset);
      8 <= t < 16 && (t % 2 == 1 <==> fin) && (t / 2 % 2 == 1 <==> hasLen) && (t / 4 % 2 == 1 <==> hasOffset)
  {
  }

  lemma StreamOf(c: Codec, f: StreamFrames.StreamFrame, hasOffset: bool, b: seq<byte>, b1: seq<byte>, b2: seq<byte>, b3: seq<byte>, rest: seq<byte>)
    requires f.Encodable() && c.read(b) == Ok(f.id, b1)
    requires if hasOffset then c.read(b1) == Ok(f.offset, b2) else b1 == b2 && f.offset == 0
    requires if f.hasLen then c.read(b2) == Ok(|f.data|, b3) else b2 == b3 && |b2| == |f.data|
    requires ReadBytes(b3, |f.data|) == Ok(f.data, rest)
    ensures Frames.ParseFrame(c, [StreamType(f.fin, f.hasLen, hasOffset)] + b) == Ok(Frames.Stream(f), rest)
  {
    var t := StreamType(f.fin, f.hasLen, hasOffset);
    TypeBits(f.fin, f.hasLen, hasOffset);
    assert ([t] + b)[1..] == b;
  }

  /** It is read whether it is zero or not. */
  lemma StreamFrameParses(c: Codec, f: StreamFrames.StreamFrame, hasOffset: bool, rest: seq<byte>)
    requires Lawful(c) && f.Encodable() && (f.hasLen || rest == []) && (!hasOffset ==> f.offset == 0)
    ensures Frames.ParseFrame(c, StreamBytes(c, f, hasOffset, rest)) == Ok(Frames.Stream(f), rest)
  {
    var b3 := f.data + rest;
    var b2 := (if f.hasLen then c.write(|f.data|) else []) + b3;
    var b1 := (if hasOffset then c.write(f.offset) else []) + b2;
    assert !f.hasLen ==> b2 == b3;
    assert !hasOffset ==> b1 == b2;
    BytesRoundTrip(f.data, rest);
    StreamOf(c, f, hasOffset, c.write(f.id) + b1, b1, b2, b3, rest);
  }

  /** Data beyond the largest offset is refused. */
  lemma StreamBeyondRefused(c: Codec, id: nat, fin: bool, offset: nat, data: seq<byte>, rest: seq<byte>)
    requires Lawful(c) && id <= MAX_BYTE_COUNT && offset <= MAX_BYTE_COUNT && |data| <= MAX_BYTE_COUNT && offset + |data| > MAX_BYTE_COUNT
    ensures Frames.ParseStream(c, StreamType(fin, true, true), c.write(id) + (c.write(offset) + (c.write(|data|) + (data + rest)))) == Bad(Invalid)
  {
    TypeBits(fin, true, true);
    var b3 := data + rest;
    var b2 := c.write(|data|) + b3;
    var b1 := c.write(offset) + b2;
    assert c.read(c.write(id) + b1) == Ok(id, b1);
    assert c.read(b1) == Ok(offset, b2);
    assert c.read(b2) == Ok(|data|, b3);
    BytesRoundTrip(data, rest);
  }

  // ---------------------------------------------------------------- payloads

  /** An empty payload is refused, one of padding alone is not. */
  lemma EmptyPayloads(c: Codec, n: nat)
    requires Lawful(c)
    ensures Frames.ParsePacket(c, []) == Bad(Invalid)
    ensures n > 0 ==> Frames.ParsePacket(c, seq(n, _ => 0 as byte)) == Ok([], [])
  {
    if n > 0 {
      OnlyPadding(n);
    }
  }

  lemma {:induction false} OnlyPadding(n: nat)
    ensures Frames.SkipPadding(seq(n, _ => 0 as byte)) == []
  {
    if n > 0 {
      assert seq(n, _ => 0 as byte)[1..] == seq(n - 1, _ => 0 as byte);
      OnlyPadding(n - 1);
    }
  }

  /** If the frame after any padding is refused, so is the payload, with the same error. */
  lemma BadFrameRefused(c: Codec, n: nat, b: seq<byte>)
    requires Lawful(c) && b != [] && b[0] != 0 && Frames.ParseFrame(c, b).Bad?
    ensures Frames.ParsePacket(c, seq(n, _ => 0 as byte) + b) == Bad(Frames.ParseFrame(c, b).error)
  {
    PaddingBefore(n, b);
  }

  lemma {:induction false} PaddingBefore(n: nat, b: seq<byte>)
    requires b != [] && b[0] != 0
    ensures Frames.SkipPadding(seq(n, _ => 0 as byte) + b) == b
  {
    var all := seq(n, _ => 0 as byte) + b;
    if n == 0 {
      assert all == b;
    } else {
      assert all[1..] == seq(n - 1, _ => 0 as byte) + b;
      PaddingBefore(n - 1, b);
    }
  }

  // ---------------------------------------------------------------- ACK frames

  /** Each range is nonempty, and at least one number is missing between it and the one above. */
  predicate Below(above: AckRange, rs: seq<AckRange>)
    decreases |rs|
  {
    rs == [] || (rs[0].smallest <= rs[0].largest && rs[0].largest + 2 <= above.smallest && Below(rs[0], rs[1..]))
  }

  lemma {:induction false} ValidIsBelow(rs: seq<AckRange>, i: nat, n: nat)
    requires ValidRanges(rs) && 0 < i <= n <= |rs|
    ensures Below(rs[i - 1], rs[i..n])
    decreases n - i
  {
    if i < n {
      ValidIsBelow(rs, i + 1, n);
      assert rs[i..n][1..] == rs[i + 1..n];
    }
  }

  /** The further ranges: how many numbers lie between two ranges, less one, and how many a range has, less one. */
  function RangeBytes(c: Codec, above: AckRange, rs: seq<AckRange>, rest: seq<byte>): seq<byte>
    requires Below(above, rs)
    decreases |rs|
  {
    if rs == [] then rest
    else
      c.write(above.smallest - rs[0].largest - 2)
      + (c.write(rs[0].largest - rs[0].smallest) + RangeBytes(c, rs[0], rs[1..], rest))
  }

  lemma {:induction false} WrittenRanges(c: Codec, rs: seq<AckRange>, i: nat, n: nat, rest: seq<byte>)
    requires ValidRanges(rs) && AckFrames.Encodes(rs) && 0 < i <= n <= |rs|
    ensures Below(rs[i - 1], rs[i..n])
    ensures AckFrames.WriteRanges(c, rs, i, n, rest) == RangeBytes(c, rs[i - 1], rs[i..n], rest)
    decreases n - i
  {
    ValidIsBelow(rs, i, n);
    if i < n {
      WrittenRanges(c, rs, i + 1, n, rest);
      assert rs[i..n][1..] == rs[i + 1..n];
    }
  }

  /** Type, largest number, delay in units of 8 microseconds, number of further ranges, first range, further ranges. */
  lemma AckBytes(c: Codec, f: AckFrames.AckFrame, rest: seq<byte>)
    requires AckFrames.Writable(f) && f.delay >= 0
    ensures Below(f.ranges[0], f.ranges[1..AckFrames.Kept(f)])
    ensures var n, first := AckFrames.Kept(f), f.ranges[0];
      AckFrames.WriteAck(c, f, rest) ==
        [0x02] + (c.write(first.largest) + (c.write(f.delay / 8000) + (c.write(n - 1)
          + (c.write(first.largest - first.smallest) + RangeBytes(c, first, f.ranges[1..n], rest)))))
  {
    WrittenRanges(c, f.ranges, 1, AckFrames.Kept(f), rest);
  }

  /** Any number of ranges is read, and any delay, which is scaled in 64-bit arithmetic. */
  lemma AckParses(c: Codec, rs: seq<AckRange>, delay: nat, rest: seq<byte>)
    requires Lawful(c) && ValidRanges(rs) && rs[0].largest <= MAX_BYTE_COUNT && |rs| <= MAX_BYTE_COUNT && delay <= MAX_BYTE_COUNT
    ensures Below(rs[0], rs[1..])
    ensures var ranges := RangeBytes(c, rs[0], rs[1..], rest);
      var b := c.write(rs[0].largest) + (c.write(delay) + (c.write(|rs| - 1) + (c.write(rs[0].largest - rs[0].smallest) + ranges)));
      Frames.ParseFrame(c, [0x02] + b) == Ok(Frames.Ack(AckFrames.AckFrame(rs, AckFrames.Wrap(8000 * delay))), rest)
  {
    AllRangesWritten(c, rs, rest);
    var b := c.write(rs[0].largest) + (c.write(delay) + (c.write(|rs| - 1)
      + (c.write(rs[0].largest - rs[0].smallest) + RangeBytes(c, rs[0], rs[1..], rest))));
    AllRangesParse(c, rs, delay, rest, b);
    AckOf(c, b, AckFrames.AckFrame(rs, AckFrames.Wrap(8000 * delay)), rest);
  }

  lemma AllRangesWritten(c: Codec, rs: seq<AckRange>, rest: seq<byte>)
    requires ValidRanges(rs) && rs[0].largest <= MAX_BYTE_COUNT
    ensures AckFrames.Encodes(rs) && Below(rs[0], rs[1..])
    ensures AckFrames.WriteRanges(c, rs, 1, |rs|, rest) == RangeBytes(c, rs[0], rs[1..], rest)
  {
    AckFrames.ValidEncodes(rs);
    WrittenRanges(c, rs, 1, |rs|, rest);
    assert rs[1..|rs|] == rs[1..];
  }

  lemma AllRangesParse(c: Codec, rs: seq<AckRange>, delay: nat, rest: seq<byte>, b: seq<byte>)
    requires Lawful(c) && ValidRanges(rs) && rs[0].largest <= MAX_BYTE_COUNT && |rs| <= MAX_BYTE_COUNT && delay <= MAX_BYTE_COUNT
    requires AckFrames.Encodes(rs)
    requires b == c.write(rs[0].largest) + (c.write(delay) + (c.write(|rs| - 1)
      + (c.write(AckFrames.Len(rs, 0)) + AckFrames.WriteRanges(c, rs, 1, |rs|, rest))))
    ensures AckFrames.ParseAck(c, [0x02] + b) == Ok(AckFrames.AckFrame(rs, AckFrames.Wrap(8000 * delay)), rest)
  {
    assert rs[..|rs|] == rs;
    AckFrames.WrittenParses(c, rs, |rs|, delay, rest, b);
    ScaledDelay(delay);
  }

  lemma ScaledDelay(delay: nat)
    ensures AckFrames.DecodeDelay(delay) == AckFrames.Wrap(8000 * delay)
  {
  }

  lemma AckOf(c: Codec, b: seq<byte>, f: AckFrames.AckFrame, rest: seq<byte>)
    requires AckFrames.ParseAck(c, [0x02] + b) == Ok(f, rest)
    ensures Frames.ParseFrame(c, [0x02] + b) == Ok(Frames.Ack(f), rest)
  {
  }

  /** A first range with more packets than there are numbers is refused. */
  lemma FirstRangeRefused(c: Codec, largest: nat, delay: nat, count: nat, block: nat, rest: seq<byte>)
    requires Lawful(c) && largest < block <= MAX_BYTE_COUNT && delay <= MAX_BYTE_COUNT && count <= MAX_BYTE_COUNT
    ensures AckFrames.ParseBody(c, c.write(largest) + (c.write(delay) + (c.write(count) + (c.write(block) + rest)))) == Bad(Invalid)
  {
    var b3 := c.write(block) + rest;
    var b2 := c.write(count) + b3;
    var b1 := c.write(delay) + b2;
    assert c.read(c.write(largest) + b1) == Ok(largest, b1);
    assert c.read(b1) == Ok(delay, b2);
    assert c.read(b2) == Ok(count, b3);
    assert c.read(b3) == Ok(block, rest);
  }

  /** So is a further range that would reach below zero. */
  lemma RangeRefused(c: Codec, smallest: nat, gap: nat, block: nat, rest: seq<byte>)
    requires Lawful(c) && gap <= MAX_BYTE_COUNT && block <= MAX_BYTE_COUNT && gap + 2 + block > smallest
    ensures AckFrames.ReadRange(c, c.write(gap) + (c.write(block) + rest), smallest) == Bad(Invalid)
  {
    assert c.read(c.write(block) + rest) == Ok(block, rest);
  }

  /** With type 3 three counters follow, which are skipped. */
  lemma EcnParses(c: Codec, f: AckFrames.AckFrame, ect0: nat, ect1: nat, ce: nat, rest: seq<byte>)
    requires Lawful(c) && AckFrames.Writable(f) && ect0 <= MAX_BYTE_COUNT && ect1 <= MAX_BYTE_COUNT && ce <= MAX_BYTE_COUNT
    ensures var counters := c.write(ect0) + (c.write(ect1) + (c.write(ce) + rest));
      var b := AckFrames.WriteAck(c, f, counters);
      Frames.ParseFrame(c, [0x03] + b[1..]) == Ok(Frames.Ack(AckFrames.Normalized(f)), rest)
  {
    var counters := c.write(ect0) + (c.write(ect1) + (c.write(ce) + rest));
    var b := AckFrames.WriteAck(c, f, counters);
    AckFrames.AckRoundTrip(c, f, counters);
    SkipThree(c, ect0, ect1, ce, rest);
    EcnOf(c, b, AckFrames.Normalized(f), counters, rest);
  }

  lemma SkipThree(c: Codec, x: nat, y: nat, z: nat, rest: seq<byte>)
    requires Lawful(c) && x <= MAX_BYTE_COUNT && y <= MAX_BYTE_COUNT && z <= MAX_BYTE_COUNT
    ensures AckFrames.SkipNumbers(c, c.write(x) + (c.write(y) + (c.write(z) + rest)), 3) == Ok((), rest)
  {
    assert AckFrames.SkipNumbers(c, rest, 0) == Ok((), rest);
    assert AckFrames.SkipNumbers(c, c.write(z) + rest, 1) == Ok((), rest);
    assert AckFrames.SkipNumbers(c, c.write(y) + (c.write(z) + rest), 2) == Ok((), rest);
  }

  lemma EcnOf(c: Codec, b: seq<byte>, f: AckFrames.AckFrame, counters: seq<byte>, rest: seq<byte>)
    requires b != [] && b[0] == 2 && AckFrames.ParseAck(c, b) == Ok(f, counters)
    requires AckFrames.SkipNumbers(c, counters, 3) == Ok((), rest)
    ensures Frames.ParseFrame(c, [0x03] + b[1..]) == Ok(Frames.Ack(f), rest)
  {
    assert ([0x03] + b[1..])[1..] == b[1..];
  }

  // ---------------------------------------------------------------- headers

  function FourBytes(n: nat): seq<byte>
    requires n < 0x1_0000_0000
  {
    [n / 0x100_0000, n / 0x1_0000 % 0x100, n / 0x100 % 0x100, n % 0x100]
  }

  lemma FourOctets(n: nat)
    requires n < 0x1_0000_0000
    ensures Octets(n, 4) == FourBytes(n)
  {
    ShiftsCompose(n);
    assert Octets(n, 4) == Octets(n / 0x100, 3) + [n % 0x100];
    assert Octets(n / 0x100, 3) == Octets(n / 0x1_0000, 2) + [n / 0x100 % 0x100];
    assert Octets(n / 0x1_0000, 2) == Octets(n / 0x100_0000, 1) + [n / 0x1_0000 % 0x100];
    assert Octets(n / 0x100_0000, 1) == Octets(n / 0x1_0000_0000, 0) + [n / 0x100_0000 % 0x100];
  }

  /** A connection ID is empty or has 4 to 18 bytes; its length is coded in four bits. */
  function IDCode(id: seq<byte>): (n: nat)
    requires |id| == 0 || 4 <= |id| <= 18
    ensures n < 16
  {
    if id == [] then 0 else |id| - 3
  }

  predicate CanCode(id: seq<byte>) {
    |id| == 0 || 4 <= |id| <= 18
  }

  /** What every long header starts with. */
  function LongStart(t: byte, version: nat, dest: seq<byte>, src: seq<byte>, rest: seq<byte>): seq<byte>
    requires version < 0x1_0000_0000 && CanCode(dest) && CanCode(src)
  {
    [t] + (FourBytes(version) + ([16 * IDCode(dest) + IDCode(src)] + (dest + (src + rest))))
  }

  lemma StartBytes(t: byte, version: nat, dest: seq<byte>, src: seq<byte>, rest: seq<byte>)
    requires version < 0x1_0000_0000
    ensures Headers.ValidConnID(dest) <==> CanCode(dest)
    ensures CanCode(dest) && CanCode(src) ==> Headers.WriteInvariant(t, version, dest, src, rest) == LongStart(t, version, dest, src, rest)
  {
    FourOctets(version);
  }

  /** Initial, Handshake and 0-RTT headers; only an Initial header has a token. */
  lemma LongHeaderBytes(c: Codec, h: Headers.Header, rest: seq<byte>)
    requires h.Long? && Headers.InRange(h)
    ensures Headers.WriteHeader(c, h, 0, rest).Some? <==> CanCode(h.dest) && CanCode(h.src) && ValidLen(h.pnLen)
    ensures Headers.WriteHeader(c, h, 0, rest).Some? ==>
      var end := c.write(h.payloadLen) + WritePacketNumber(h.pn, h.pnLen, rest);
      Headers.WriteHeader(c, h, 0, rest).value ==
        match h.typ
        case Initial => LongStart(0xFF, h.version, h.dest, h.src, c.write(|h.token|) + (h.token + end))
        case Handshake => LongStart(0xFD, h.version, h.dest, h.src, end)
        case ZeroRTT => LongStart(0xFC, h.version, h.dest, h.src, end)
  {
    StartBytes(0xFF, h.version, h.dest, h.src, []);
    StartBytes(0xFF, h.version, h.src, h.dest, []);
    if Headers.WriteHeader(c, h, 0, rest).Some? {
      var end := c.write(h.payloadLen) + WritePacketNumber(h.pn, h.pnLen, rest);
      StartBytes(Headers.TypeByte(h.typ), h.version, h.dest, h.src, Headers.WriteToken(c, h, end));
    }
  }

  lemma RetryHeaderBytes(c: Codec, h: Headers.Header, nibble: nat)
    requires h.Retry? && Headers.InRange(h) && nibble < 16 && CanCode(h.dest) && CanCode(h.src) && CanCode(h.origDest)
    ensures Headers.WriteHeader(c, h, nibble, [])
      == Some(LongStart(0xFE, h.version, h.dest, h.src, [16 * nibble + IDCode(h.origDest)] + (h.origDest + h.token)))
  {
    StartBytes(0xFE, h.version, h.origDest, h.dest, []);
    StartBytes(0xFE, h.version, h.src, h.dest, []);
    StartBytes(0xFE, h.version, h.dest, h.src, [16 * nibble + IDCode(h.origDest)] + (h.origDest + h.token));
    assert h.token + [] == h.token;
  }

  lemma ShortHeaderBytes(c: Codec, h: Headers.Header, rest: seq<byte>)
    requires h.Short? && ValidLen(h.pnLen)
    ensures Headers.WriteHeader(c, h, 0, rest)
      == Some([if h.keyPhase then 0x70 else 0x30] + (h.dest + WritePacketNumber(h.pn, h.pnLen, rest)))
  {
  }

  /** Of the type byte of a short header, only the bit of the key phase counts. */
  lemma ShortHeaderParses(c: Codec, t: byte, dest: seq<byte>, pn: nat, len: nat, rest: seq<byte>)
    requires t < 0x80 && ValidLen(len)
    ensures Headers.ParseHeader(c, [t] + (dest + WritePacketNumber(pn, len, rest)), |dest|)
      == Ok(Headers.Short(dest, t >= 0x40, pn % Window(len), len), rest)
  {
    var b := WritePacketNumber(pn, len, rest);
    assert ([t] + (dest + b))[1..] == dest + b;
    BytesRoundTrip(dest, b);
    PacketNumberRoundTrip(pn, len, rest);
  }

  /** A long header of another type is refused. */
  lemma UnknownHeaders(c: Codec, t: byte, version: nat, dest: seq<byte>, src: seq<byte>, rest: seq<byte>, shortConnIDLen: nat)
    requires 0x80 <= t < 0xFC && 0 < version < 0x1_0000_0000 && CanCode(dest) && CanCode(src)
    ensures Headers.ParseHeader(c, LongStart(t, version, dest, src, rest), shortConnIDLen) == Bad(Invalid)
  {
    StartParses(t, version, dest, src, rest, shortConnIDLen);
  }

  function VersionBytes(versions: seq<nat>): seq<byte>
    requires forall i :: 0 <= i < |versions| ==> versions[i] < 0x1_0000_0000
  {
    if versions == [] then [] else FourBytes(versions[0]) + VersionBytes(versions[1..])
  }

  lemma {:induction false} VersionsParse(versions: seq<nat>)
    requires forall i :: 0 <= i < |versions| ==> versions[i] < 0x1_0000_0000
    ensures Headers.ParseVersions(VersionBytes(versions)) == Ok(versions, [])
  {
    if versions != [] {
      var v, rest := versions[0], VersionBytes(versions[1..]);
      VersionsParse(versions[1..]);
      FourOctets(v);
      Powers();
      UintRoundTrip(v, 4, rest);
      assert versions == [v] + versions[1..];
    }
  }

  /** Version 0 makes a version negotiation packet of any long header; it lists at least one version. */
  lemma VersionNegotiationParses(c: Codec, t: byte, dest: seq<byte>, src: seq<byte>, versions: seq<nat>, shortConnIDLen: nat)
    requires t >= 0x80 && CanCode(dest) && CanCode(src) && forall i :: 0 <= i < |versions| ==> versions[i] < 0x1_0000_0000
    ensures Headers.ParseHeader(c, LongStart(t, 0, dest, src, VersionBytes(versions)), shortConnIDLen)
      == if versions == [] then Bad(Invalid) else Ok(Headers.VersionNegotiation(dest, src, versions), [])
  {
    var rest := VersionBytes(versions);
    StartParses(t, 0, dest, src, rest, shortConnIDLen);
    VersionsParse(versions);
    NegotiationOf(c, LongStart(t, 0, dest, src, rest), t, dest, src, rest, versions, shortConnIDLen);
  }

  lemma StartParses(t: byte, version: nat, dest: seq<byte>, src: seq<byte>, rest: seq<byte>, shortConnIDLen: nat)
    requires t >= 0x80 && version < 0x1_0000_0000 && CanCode(dest) && CanCode(src)
    ensures Headers.ParseInvariant(LongStart(t, version, dest, src, rest), shortConnIDLen) == Ok(Headers.Invariant(t, version, dest, src), rest)
  {
    StartBytes(t, version, dest, src, rest);
    StartBytes(t, version, src, dest, rest);
    Headers.InvariantRoundTrip(t, version, dest, src, rest, shortConnIDLen);
  }

  lemma NegotiationOf(c: Codec, b: seq<byte>, t: byte, dest: seq<byte>, src: seq<byte>, rest: seq<byte>, versions: seq<nat>, shortConnIDLen: nat)
    requires t >= 0x80 && Headers.ParseInvariant(b, shortConnIDLen) == Ok(Headers.Invariant(t, 0, dest, src), rest)
    requires Headers.ParseVersions(rest) == Ok(versions, []) && (rest == [] <==> versions == [])
    ensures Headers.ParseHeader(c, b, shortConnIDLen)
      == if versions == [] then Bad(Invalid) else Ok(Headers.VersionNegotiation(dest, src, versions), [])
  {
  }
}
