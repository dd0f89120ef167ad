/** Packet headers (an earlier draft of section 17 of RFC 9000). */
module Headers {
  import opened Protocol
  import opened VarInt
  import opened PacketNumbers

  datatype LongType = Initial | Handshake | ZeroRTT

  datatype Header =
    | Long(typ: LongType, version: nat, dest: seq<byte>, src: seq<byte>, token: seq<byte>, payloadLen: nat, pn: nat, pnLen: nat)
    | Retry(version: nat, dest: seq<byte>, src: seq<byte>, origDest: seq<byte>, token: seq<byte>)
    | VersionNegotiation(dest: seq<byte>, src: seq<byte>, versions: seq<nat>)
    | Short(dest: seq<byte>, keyPhase: bool, pn: nat, pnLen: nat)

  // ---------------------------------------------------------------- lengths of connection IDs

  function EncodeConnIDLen(n: nat): Option<nat> {
    if n == 0 then Some(0) else if n < 4 || n > 18 then None else Some(n - 3)
  }

  function DecodeConnIDLen(e: nat): nat {
    if e == 0 then 0 else e + 3
  }

  /** The four-bit code and the valid lengths correspond one to one. */
  lemma ConnIDLenInverse(n: nat, e: nat)
    ensures EncodeConnIDLen(n) == Some(e) <==> e < 16 && DecodeConnIDLen(e) == n
  {
  }

  predicate ValidConnID(id: seq<byte>) {
    EncodeConnIDLen(|id|).Some?
  }

  /** Both codes in one byte, the destination first. */
  function ConnIDLens(dest: seq<byte>, src: seq<byte>): byte
    requires ValidConnID(dest) && ValidConnID(src)
  {
    16 * EncodeConnIDLen(|dest|).value + EncodeConnIDLen(|src|).value
  }

  // ---------------------------------------------------------------- writing

  function TypeByte(typ: LongType): byte {
    match typ case Initial => 0xFF case Handshake => 0xFD case ZeroRTT => 0xFC
  }

  /** The numbers of a header fit their fields, and a long header has a version. */
  predicate InRange(h: Header) {
    match h
    case Long(typ, version, _, _, token, payloadLen, _, _) =>
      0 < version < 0x1_0000_0000 && |token| <= MAX_BYTE_COUNT && payloadLen <= MAX_BYTE_COUNT && (typ != Initial ==> token == [])
    case Retry(version, _, _, _, _) => 0 < version < 0x1_0000_0000
    case VersionNegotiation(_, _, _) => false
    case Short(_, _, _, _) => true
  }

  /** What both kinds of long header start with. */
  function WriteInvariant(t: byte, version: nat, dest: seq<byte>, src: seq<byte>, rest: seq<byte>): seq<byte>
    requires ValidConnID(dest) && ValidConnID(src)
  {
    [t] + (Octets(version, 4) + ([ConnIDLens(dest, src)] + (dest + (src + rest))))
  }

  function WriteToken(c: Codec, h: Header, rest: seq<byte>): seq<byte>
    requires h.Long?
  {
    if h.typ == Initial then c.write(|h.token|) + (h.token + rest) else rest
  }

  /** The header as written before the bytes `rest`, or none for an invalid length. `nibble` is random. */
  function WriteHeader(c: Codec, h: Header, nibble: nat, rest: seq<byte>): Option<seq<byte>>
    requires InRange(h) && nibble < 16
  {
    match h
    case Long(typ, version, dest, src, token, payloadLen, pn, pnLen) =>
      if !ValidConnID(dest) || !ValidConnID(src) || !ValidLen(pnLen) then None
      else Some(WriteInvariant(TypeByte(typ), version, dest, src,
                               WriteToken(c, h, c.write(payloadLen) + WritePacketNumber(pn, pnLen, rest))))
    case Retry(version, dest, src, origDest, token) =>
      if !ValidConnID(dest) || !ValidConnID(src) || !ValidConnID(origDest) then None
      else Some(WriteInvariant(0xFE, version, dest, src,
                               [16 * nibble + EncodeConnIDLen(|origDest|).value] + (origDest + (token + rest))))
    case Short(dest, keyPhase, pn, pnLen) =>
      if !ValidLen(pnLen) then None
      else Some([if keyPhase then 0x70 else 0x30] + (dest + WritePacketNumber(pn, pnLen, rest)))
  }

  function GetLength(h: Header): nat
    requires InRange(h) && !h.Retry?
  {
    match h
    case Long(typ, _, dest, src, token, payloadLen, _, pnLen) =>
      1 + 4 + 1 + |dest| + |src| + pnLen + VarIntLen(payloadLen)
        + if typ == Initial then VarIntLen(|token|) + |token| else 0
    case Short(dest, _, _, pnLen) => 1 + |dest| + pnLen
  }

  /** Its length is known before it is written. */
  lemma LengthIsExact(c: Codec, h: Header, nibble: nat, rest: seq<byte>)
    requires Lawful(c) && InRange(h) && !h.Retry? && nibble < 16 && WriteHeader(c, h, nibble, rest).Some?
    ensures |WriteHeader(c, h, nibble, rest).value| == GetLength(h) + |rest|
  {
    PacketNumberRoundTrip(h.pn, h.pnLen, rest);
  }

  // ---------------------------------------------------------------- parsing

  datatype Invariant = Invariant(t: byte, version: nat, dest: seq<byte>, src: seq<byte>)

  function ReadByte(b: seq<byte>): Parsed<byte> {
    if b == [] then Bad(Eof) else Ok(b[0], b[1..])
  }

  /** The part that does not depend on the version. A short header does not tell the length of its ID. */
  function ParseInvariant(b: seq<byte>, shortConnIDLen: nat): Parsed<Invariant> {
    var (t, b1) :- ReadByte(b);
    if t < 0x80 then
      var (dest, b2) :- ReadBytes(b1, shortConnIDLen);
      Ok(Invariant(t, 0, dest, []), b2)
    else
      var (version, b2) :- ReadOctets(b1, 4, 0);
      var (lens, b3) :- ReadByte(b2);
      var (dest, b4) :- ReadBytes(b3, DecodeConnIDLen(lens / 16));
      var (src, b5) :- ReadBytes(b4, DecodeConnIDLen(lens % 16));
      Ok(Invariant(t, version, dest, src), b5)
  }

  function ParseVersions(b: seq<byte>): Parsed<seq<nat>>
    decreases |b|
  {
    if b == [] then Ok([], [])
    else
      match ReadOctets(b, 4, 0)
      case Bad(_) => Bad(Invalid)
      case Ok(v, b1) =>
        var (vs, b2) :- ParseVersions(b1);
        Ok([v] + vs, b2)
  }

  function ParseToken(c: Codec, typ: LongType, b: seq<byte>): Parsed<seq<byte>> {
    if typ != Initial then Ok([], b)
    else
      var (n, b1) :- c.read(b);
      ReadBytes(b1, n)
  }

  function ParseLong(c: Codec, iv: Invariant, typ: LongType, b: seq<byte>): Parsed<Header> {
    var (token, b1) :- ParseToken(c, typ, b);
    var (payloadLen, b2) :- c.read(b1);
    var (n, b3) :- ReadPacketNumber(b2);
    Ok(Long(typ, iv.version, iv.dest, iv.src, token, payloadLen, n.number, n.len), b3)
  }

  function ParseRetry(iv: Invariant, b: seq<byte>): Parsed<Header> {
    var (odcil, b1) :- ReadByte(b);
    var (origDest, b2) :- ReadBytes(b1, DecodeConnIDLen(odcil % 16));
    Ok(Retry(iv.version, iv.dest, iv.src, origDest, b2), [])
  }

  function ParseHeader(c: Codec, b: seq<byte>, shortConnIDLen: nat): Parsed<Header> {
    var (iv, b1) :- ParseInvariant(b, shortConnIDLen);
    if iv.t < 0x80 then
      var (n, b2) :- ReadPacketNumber(b1);
      Ok(Short(iv.dest, iv.t / 64 == 1, n.number, n.len), b2)
    else if iv.version == 0 then
      if b1 == [] then Bad(Invalid)
      else
        var (versions, b2) :- ParseVersions(b1);
        Ok(VersionNegotiation(iv.dest, iv.src, versions), b2)
    else if iv.t == 0xFF then ParseLong(c, iv, Initial, b1)
    else if iv.t == 0xFE then ParseRetry(iv, b1)
    else if iv.t == 0xFD then ParseLong(c, iv, Handshake, b1)
    else if iv.t == 0xFC then ParseLong(c, iv, ZeroRTT, b1)
    else Bad(Invalid)
  }

  // ---------------------------------------------------------------- round trips

  lemma InvariantRoundTrip(t: byte, version: nat, dest: seq<byte>, src: seq<byte>, rest: seq<byte>, shortConnIDLen: nat)
    requires t >= 0x80 && version < 0x1_0000_0000 && ValidConnID(dest) && ValidConnID(src)
    ensures ParseInvariant(WriteInvariant(t, version, dest, src, rest), shortConnIDLen) == Ok(Invariant(t, version, dest, src), rest)
  {
    Powers();
    var b3 := dest + (src + rest);
    var b2 := [ConnIDLens(dest, src)] + b3;
    var b1 := Octets(version, 4) + b2;
    UintRoundTrip(version, 4, b2);
    assert ([t] + b1)[1..] == b1 && b2[1..] == b3;
    ConnIDLenInverse(|dest|, EncodeConnIDLen(|dest|).value);
    ConnIDLenInverse(|src|, EncodeConnIDLen(|src|).value);
    BytesRoundTrip(dest, src + rest);
    BytesRoundTrip(src, rest);
  }

  lemma TokenRoundTrip(c: Codec, h: Header, rest: seq<byte>)
    requires Lawful(c) && h.Long? && InRange(h)
    ensures ParseToken(c, h.typ, WriteToken(c, h, rest)) == Ok(h.token, rest)
  {
    if h.typ == Initial {
      BytesRoundTrip(h.token, rest);
    }
  }

  /** What the receiver sees of a header: the packet number is cut. */
  function AsParsed(h: Header): Header {
    if h.Long? || h.Short? then h.(pn := h.pn % Window(h.pnLen)) else h
  }

  lemma LongRoundTrip(c: Codec, h: Header, rest: seq<byte>, shortConnIDLen: nat)
    requires Lawful(c) && h.Long? && InRange(h) && WriteHeader(c, h, 0, rest).Some?
    ensures ParseHeader(c, WriteHeader(c, h, 0, rest).value, shortConnIDLen) == Ok(AsParsed(h), rest)
  {
    var b3 := WritePacketNumber(h.pn, h.pnLen, rest);
    var b2 := c.write(h.payloadLen) + b3;
    var b1 := WriteToken(c, h, b2);
    InvariantRoundTrip(TypeByte(h.typ), h.version, h.dest, h.src, b1, shortConnIDLen);
    TokenRoundTrip(c, h, b2);
    PacketNumberRoundTrip(h.pn, h.pnLen, rest);
    var iv := Invariant(TypeByte(h.typ), h.version, h.dest, h.src);
    assert ParseLong(c, iv, h.typ, b1) == Ok(AsParsed(h), rest);
  }

  lemma ShortRoundTrip(c: Codec, h: Header, rest: seq<byte>)
    requires h.Short? && WriteHeader(c, h, 0, rest).Some?
    ensures ParseHeader(c, WriteHeader(c, h, 0, rest).value, |h.dest|) == Ok(AsParsed(h), rest)
  {
    var b2 := WritePacketNumber(h.pn, h.pnLen, rest);
    var b1 := h.dest + b2;
    var t: byte := if h.keyPhase then 0x70 else 0x30;
    assert ([t] + b1)[1..] == b1;
    BytesRoundTrip(h.dest, b2);
    PacketNumberRoundTrip(h.pn, h.pnLen, rest);
  }

  /** The token of a Retry packet extends to its end. */
  lemma RetryRoundTrip(c: Codec, h: Header, nibble: nat, shortConnIDLen: nat)
    requires h.Retry? && InRange(h) && nibble < 16 && WriteHeader(c, h, nibble, []).Some?
    ensures ParseHeader(c, WriteHeader(c, h, nibble, []).value, shortConnIDLen) == Ok(h, [])
  {
    var e := EncodeConnIDLen(|h.origDest|).value;
    assert h.token + [] == h.token;
    RetryBody(Invariant(0xFE, h.version, h.dest, h.src), h.origDest, nibble, h.token);
    InvariantRoundTrip(0xFE, h.version, h.dest, h.src, [16 * nibble + e] + (h.origDest + h.token), shortConnIDLen);
  }

  lemma RetryBody(iv: Invariant, origDest: seq<byte>, nibble: nat, token: seq<byte>)
    requires ValidConnID(origDest) && nibble < 16
    ensures var b := [16 * nibble + EncodeConnIDLen(|origDest|).value] + (origDest + token);
      ParseRetry(iv, b) == Ok(Retry(iv.version, iv.dest, iv.src, origDest, token), [])
  {
    var e := EncodeConnIDLen(|origDest|).value;
    LowNibble(nibble, e);
    ConnIDLenInverse(|origDest|, e);
    BytesRoundTrip(origDest, token);
  }

  lemma LowNibble(nibble: nat, e: nat)
    requires e < 16
    ensures (16 * nibble + e) % 16 == e
  {
  }

  /** A packet number goes through any long or short header and is recovered exactly under `Decodable`. */
  lemma PacketNumberThroughHeader(c: Codec, h: Header, rest: seq<byte>, last: nat)
    requires Lawful(c) && (h.Long? || h.Short?) && InRange(h) && WriteHeader(c, h, 0, rest).Some?
    requires h.pn <= MAX_BYTE_COUNT && last <= MAX_BYTE_COUNT
    ensures var r := ParseHeader(c, WriteHeader(c, h, 0, rest).value, |h.dest|);
      && r.Ok? && (r.value.Long? || r.value.Short?) && r.value.pn < TWO_64
      && (InferPacketNumber(r.value.pnLen, last, r.value.pn) == h.pn <==> Decodable(h.pnLen, last, h.pn))
  {
    if h.Long? {
      LongRoundTrip(c, h, rest, |h.dest|);
    } else {
      ShortRoundTrip(c, h, rest);
    }
    InferIff(h.pnLen, last, h.pn);
  }

  /** So the length that the sender chooses is enough. */
  lemma ChosenLengthArrives(c: Codec, h: Header, rest: seq<byte>, leastUnacked: nat, last: nat)
    requires Lawful(c) && (h.Long? || h.Short?) && InRange(h) && WriteHeader(c, h, 0, rest).Some?
    requires h.pn <= MAX_BYTE_COUNT && leastUnacked <= h.pn < leastUnacked + 0x2000_0000
    requires h.pnLen == LengthForHeader(h.pn, leastUnacked) && leastUnacked <= last + 1 && last <= h.pn
    ensures var r := ParseHeader(c, WriteHeader(c, h, 0, rest).value, |h.dest|);
      r.Ok? && (r.value.Long? || r.value.Short?) && r.value.pn < TWO_64 && InferPacketNumber(r.value.pnLen, last, r.value.pn) == h.pn
  {
    PacketNumberThroughHeader(c, h, rest, last);
    ChosenLengthSuffices(h.pn, leastUnacked, last);
    InferIff(h.pnLen, last, h.pn);
  }
}
