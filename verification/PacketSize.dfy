/** How long a packet gets when it is written and sealed, and how much of it the receiver takes. */
module PacketSizes {
  import opened Protocol
  import opened VarInt
  import opened PacketNumbers
  import opened Headers
  import Packer
  import StreamFrames

  /** The first Initial packet of a client is padded to this size. No maximum packet size is below it. */
  const MIN_INITIAL_PACKET_SIZE: nat := 1200

  /** A header as it is made before the frames are chosen: no token yet, and the largest payload length. */
  predicate Template(h: Header, maxPacketSize: nat) {
    && MIN_INITIAL_PACKET_SIZE <= maxPacketSize <= MAX_BYTE_COUNT
    && InRange(h)
    && (h.Short? || (h.Long? && h.token == [] && h.payloadLen == maxPacketSize))
    && h.pnLen < 256
  }

  /** The connection IDs of a long header and the length of the packet number can be written. */
  predicate HasValidLengths(h: Header)
    requires h.Long? || h.Short?
  {
    HasValidIDs(h) && ValidLen(h.pnLen)
  }

  predicate HasValidIDs(h: Header) {
    h.Long? ==> ValidConnID(h.dest) && ValidConnID(h.src)
  }

  predicate IsInitial(h: Header) {
    h.Long? && h.typ == Initial
  }

  /** A client puts its token into an Initial packet only now; a server has none. */
  function WithToken(h: Header, token: seq<byte>): Header {
    match h
    case Long(Initial, version, dest, src, _, payloadLen, pn, pnLen) =>
      Long(Initial, version, dest, src, token, payloadLen, pn, pnLen)
    case _ => h
  }

  /** What a token adds to a header that had an empty one. */
  function TokenSize(token: seq<byte>): nat
    requires |token| <= MAX_BYTE_COUNT
  {
    VarIntLen(|token|) - 1 + |token|
  }

  /** The header as it is written before `payload` bytes of frames. The payload length of a padded packet may wrap around. */
  function FinalHeader(h: Header, token: seq<byte>, payload: nat, overhead: nat, padded: bool): Header
    requires InRange(WithToken(h, token)) && !h.Retry?
  {
    var h1 := WithToken(h, token);
    if h1.Short? then h1
    else h1.(payloadLen := if padded then (MIN_INITIAL_PACKET_SIZE - GetLength(h1)) % TWO_64 else overhead + payload)
  }

  /** The bytes of the sealed packet. */
  function SealedSize(h: Header, payload: nat, overhead: nat, padded: bool): (n: nat)
    requires InRange(h) && !h.Retry?
    ensures n >= GetLength(h) + payload + overhead
  {
    var size := GetLength(h) + payload + overhead;
    if padded then Max(size, MIN_INITIAL_PACKET_SIZE) else size
  }

  /** The header has a payload length that can be written, and the packet is not too large. */
  predicate Accepted(h: Header, token: seq<byte>, payload: nat, overhead: nat, padded: bool, maxPacketSize: nat)
    requires InRange(WithToken(h, token)) && !h.Retry?
  {
    var h' := FinalHeader(h, token, payload, overhead, padded);
    InRange(h') && SealedSize(h', payload, overhead, padded) <= maxPacketSize
  }

  lemma {:induction false} VarIntLenGrows(a: nat, b: nat)
    requires a <= b <= MAX_BYTE_COUNT
    ensures VarIntLen(a) <= VarIntLen(b)
  {
  }

  /** The payload length of a padded packet wraps around, beyond what can be written, exactly if the header is longer than the padding. */
  lemma WrapsIff(n: nat)
    requires n <= MAX_BYTE_COUNT + 1000
    ensures (MIN_INITIAL_PACKET_SIZE - n) % TWO_64 <= MAX_BYTE_COUNT <==> n <= MIN_INITIAL_PACKET_SIZE
    ensures n <= MIN_INITIAL_PACKET_SIZE ==> (MIN_INITIAL_PACKET_SIZE - n) % TWO_64 == MIN_INITIAL_PACKET_SIZE - n
  {
    if n > MIN_INITIAL_PACKET_SIZE {
      assert MIN_INITIAL_PACKET_SIZE - n == -1 * TWO_64 + (TWO_64 + MIN_INITIAL_PACKET_SIZE - n);
    }
  }

  lemma TokenLengthens(h: Header, token: seq<byte>)
    requires (h.Long? || h.Short?) && InRange(h) && InRange(WithToken(h, token)) && (h.Long? ==> h.token == [])
    ensures GetLength(WithToken(h, token)) == GetLength(h) + if IsInitial(h) then TokenSize(token) else 0
    ensures WithToken(h, []) == h
  {
  }

  /** The length that is put into the header of a long packet. */
  lemma PayloadLength(h: Header, token: seq<byte>, payload: nat, overhead: nat, padded: bool, maxPacketSize: nat)
    requires Template(h, maxPacketSize) && h.Long? && HasValidIDs(h) && InRange(WithToken(h, token))
    ensures var h', n := FinalHeader(h, token, payload, overhead, padded), GetLength(WithToken(h, token));
      && (InRange(h') <==> if padded then n <= MIN_INITIAL_PACKET_SIZE else overhead + payload <= MAX_BYTE_COUNT)
      && (InRange(h') ==>
            && h'.payloadLen == (if padded then MIN_INITIAL_PACKET_SIZE - n else overhead + payload)
            && GetLength(h') == n + VarIntLen(h'.payloadLen) - VarIntLen(maxPacketSize))
  {
    WrapsIff(GetLength(WithToken(h, token)));
  }

  /**
   The room for frames is what header and overhead leave. The header that is written is no longer
   than the one the room was computed with, and it can be written unless the packet is padded and
   the header alone is longer than that.
   */
  lemma HeaderOnlyShrinks(h: Header, token: seq<byte>, payload: nat, overhead: nat, padded: bool, maxPacketSize: nat)
    requires Template(h, maxPacketSize) && HasValidIDs(h) && InRange(WithToken(h, token))
    requires overhead + payload <= maxPacketSize
    ensures var h', n := FinalHeader(h, token, payload, overhead, padded), GetLength(WithToken(h, token));
      && (InRange(h') <==> !(h.Long? && padded && n > MIN_INITIAL_PACKET_SIZE))
      && (InRange(h') ==> GetLength(h') <= n)
      && (h.Short? ==> h' == h)
  {
    if h.Long? {
      PayloadLength(h, token, payload, overhead, padded, maxPacketSize);
      var h' := FinalHeader(h, token, payload, overhead, padded);
      if InRange(h') {
        VarIntLenGrows(h'.payloadLen, maxPacketSize);
      }
    }
  }

  /** Frames that fit the room give a packet that is accepted, unless a token comes in between. */
  lemma PacketFits(h: Header, payload: nat, overhead: nat, padded: bool, maxPacketSize: nat)
    requires Template(h, maxPacketSize) && HasValidIDs(h)
    requires GetLength(h) + overhead + payload <= maxPacketSize
    ensures WithToken(h, []) == h && Accepted(h, [], payload, overhead, padded, maxPacketSize)
  {
    TokenLengthens(h, []);
    HeaderOnlyShrinks(h, [], payload, overhead, padded, maxPacketSize);
  }

  // ---------------------------------------------------------------- a token

  /**
   With a token, an Initial packet is accepted exactly if the token fits what the frames and the
   payload length leave; a padded one, if in addition the header alone is not longer than the padding.
   */
  lemma TokenFitsIff(h: Header, token: seq<byte>, payload: nat, overhead: nat, maxPacketSize: nat)
    requires Template(h, maxPacketSize) && IsInitial(h) && HasValidIDs(h)
    requires InRange(WithToken(h, token)) && overhead + payload <= MAX_BYTE_COUNT
    ensures
      var left := maxPacketSize - GetLength(h) - overhead - payload;
      var n := GetLength(h) + TokenSize(token);
      && (Accepted(h, token, payload, overhead, false, maxPacketSize) <==>
            TokenSize(token) <= left + VarIntLen(maxPacketSize) - VarIntLen(overhead + payload))
      && (Accepted(h, token, payload, overhead, true, maxPacketSize) <==>
            && n <= MIN_INITIAL_PACKET_SIZE
            && TokenSize(token) <= left + VarIntLen(maxPacketSize) - VarIntLen(MIN_INITIAL_PACKET_SIZE - n))
  {
    TokenLengthens(h, token);
    PayloadLength(h, token, payload, overhead, false, maxPacketSize);
    PayloadLength(h, token, payload, overhead, true, maxPacketSize);
  }

  /** A full Initial packet with a token of 20 bytes is 20 bytes too long. */
  lemma TokenOverruns(h: Header, token: seq<byte>)
    requires h == Long(Initial, 1, [0, 0, 0, 0], [], [], 1252, 0, 2) && |token| == 20
    ensures GetLength(h) == 15 && InRange(FinalHeader(h, token, 1221, 16, false))
    ensures GetLength(h) + 16 + 1221 == 1252
    ensures SealedSize(FinalHeader(h, token, 1221, 16, false), 1221, 16, false) == 1272
  {
  }

  /** A token of 1190 bytes and 20 bytes of frames fit into a packet, but not if it is padded: its payload length wraps around. */
  lemma TokenWrapsAround(h: Header, token: seq<byte>)
    requires h == Long(Initial, 1, [0, 0, 0, 0, 0, 0, 0, 0], [], [], 1252, 0, 2) && |token| == 1190
    ensures Template(h, 1252) && HasValidLengths(h) && GetLength(WithToken(h, token)) == 1210
    ensures Accepted(h, token, 20, 16, false, 1252)
    ensures FinalHeader(h, token, 20, 16, true).payloadLen == TWO_64 - 10
    ensures !Accepted(h, token, 20, 16, true, 1252)
  {
    WrapsIff(1210);
  }

  // ---------------------------------------------------------------- writing

  /** `Panics` stands for a payload length that does not fit its field. */
  datatype Sealed = Packet(bytes: seq<byte>) | Refused | Panics

  /** Writes header, frames and padding. */
  method WriteAndSeal(c: Codec, h: Header, token: seq<byte>, frames: seq<byte>, overhead: nat,
                      perspective: Perspective, hasSentPacket: bool, maxPacketSize: nat)
    returns (r: Sealed)
    requires Lawful(c) && Template(h, maxPacketSize) && InRange(WithToken(h, token))
    ensures InRange(WithToken(h, if perspective == Client then token else []))
    ensures var own := if perspective == Client then token else [];
      var padded := perspective == Client && IsInitial(h) && !hasSentPacket;
      var h' := FinalHeader(h, own, |frames|, overhead, padded);
      && (r.Panics? <==>
            && h.Long? && HasValidIDs(h)
            && if padded then GetLength(WithToken(h, own)) > MIN_INITIAL_PACKET_SIZE else overhead + |frames| > MAX_BYTE_COUNT)
      && (r.Packet? <==> HasValidLengths(h) && Accepted(h, own, |frames|, overhead, padded, maxPacketSize))
      && (r.Packet? ==>
            && WriteHeader(c, h', 0, []).Some?
            && |r.bytes| + overhead == SealedSize(h', |frames|, overhead, padded)
            && WriteHeader(c, h', 0, []).value + frames <= r.bytes
            && forall i :: GetLength(h') + |frames| <= i < |r.bytes| ==> r.bytes[i] == 0)
  {
    var addPadding := perspective == Client && IsInitial(h) && !hasSentPacket;
    if !HasValidIDs(h) {
      return Refused;
    }
    var own := if perspective == Client then token else [];
    var h' := FinalHeader(h, own, |frames|, overhead, addPadding);
    if h.Long? {
      PayloadLength(h, own, |frames|, overhead, addPadding, maxPacketSize);
      if h'.payloadLen > MAX_BYTE_COUNT {
        return Panics;
      }
    }
    var header := WriteHeader(c, h', 0, []);
    if header.None? {
      return Refused;
    }
    LengthIsExact(c, h', 0, []);
    var buffer := header.value + frames;
    if addPadding {
      var paddingLen := MIN_INITIAL_PACKET_SIZE - overhead - |buffer|;
      if paddingLen > 0 {
        buffer := buffer + seq(paddingLen, _ => 0);
      }
    }
    if |buffer| + overhead > maxPacketSize {
      return Refused;
    }
    return Packet(buffer);
  }

  // ---------------------------------------------------------------- receiving

  /** What the receiver takes for the sealed payload: as much of the bytes after the header as it announces. */
  function TakePayload(h: Header, data: seq<byte>): Option<seq<byte>> {
    if !h.Long? then Some(data)
    else if |data| < h.payloadLen then None
    else Some(data[..h.payloadLen])
  }

  lemma TakesAllIff(h: Header, data: seq<byte>)
    requires h.Long? && h.payloadLen <= |data|
    ensures TakePayload(h, data).Some?
    ensures TakePayload(h, data) == Some(data) <==> h.payloadLen == |data|
  {
    assert data[..|data|] == data;
    assert |data[..h.payloadLen]| == h.payloadLen;
  }

  /**
   The receiver takes the whole sealed payload of a long packet, no less, exactly if it is not
   padded, or it is no longer than the padding and the payload length takes as many bytes as the
   largest one.
   */
  lemma ArrivesWholeIff(c: Codec, h: Header, token: seq<byte>, payload: nat, overhead: nat, padded: bool, maxPacketSize: nat,
                        sealed: seq<byte>, shortConnIDLen: nat)
    requires Lawful(c) && Template(h, maxPacketSize) && h.Long? && HasValidLengths(h) && InRange(WithToken(h, token))
    requires Accepted(h, token, payload, overhead, padded, maxPacketSize)
    requires var h' := FinalHeader(h, token, payload, overhead, padded);
      GetLength(h') + |sealed| == SealedSize(h', payload, overhead, padded)
    ensures var h', n := FinalHeader(h, token, payload, overhead, padded), GetLength(WithToken(h, token));
      && WriteHeader(c, h', 0, sealed).Some?
      && var r := ParseHeader(c, WriteHeader(c, h', 0, sealed).value, shortConnIDLen);
      && r.Ok? && r.rest == sealed
      && TakePayload(r.value, r.rest).Some?
      && (TakePayload(r.value, r.rest) == Some(sealed) <==>
            (padded ==>
               && n + overhead + payload <= MIN_INITIAL_PACKET_SIZE
               && VarIntLen(MIN_INITIAL_PACKET_SIZE - n) == VarIntLen(maxPacketSize)))
  {
    PayloadLength(h, token, payload, overhead, padded, maxPacketSize);
    var h' := FinalHeader(h, token, payload, overhead, padded);
    VarIntLenGrows(h'.payloadLen, maxPacketSize);
    LongRoundTrip(c, h', sealed, shortConnIDLen);
    TakesAllIff(AsParsed(h'), sealed);
  }

  /** A full first packet announces 1181 bytes and has 1233. */
  lemma PaddedIsCut(h: Header)
    requires h == Long(Initial, 1, [0, 0, 0, 0, 0, 0, 0, 0], [], [], 1252, 0, 2)
    ensures Template(h, 1252) && HasValidLengths(h) && GetLength(h) + 16 + 1217 == 1252
    ensures Accepted(h, [], 1217, 16, true, 1252)
    ensures var h' := FinalHeader(h, [], 1217, 16, true);
      h'.payloadLen == 1181 && SealedSize(h', 1217, 16, true) - GetLength(h') == 1233
  {
    WrapsIff(19);
  }

  // ---------------------------------------------------------------- retransmissions

  function PayloadSize(packet: Packer.Packet): nat
    requires Packer.AllEncodable(packet.streams)
  {
    Packer.ControlSize(packet.controls) + Packer.StreamSize(packet.streams)
  }

  /** Each header leaves the room that its packet was packed for. */
  ghost predicate RoomsFor(headers: nat -> Header, overhead: nat, maxPacketSize: nat, rooms: nat -> nat) {
    forall i: nat ::
      && Template(headers(i), maxPacketSize) && HasValidIDs(headers(i))
      && GetLength(headers(i)) + overhead + rooms(i) <= maxPacketSize
  }

  /** Packet by packet, each with its own header. */
  ghost predicate AllAccepted(packets: seq<Packer.Packet>, headers: nat -> Header, overhead: nat, maxPacketSize: nat, k: nat)
    decreases |packets|
  {
    packets == []
    || (&& (headers(k).Long? || headers(k).Short?) && InRange(WithToken(headers(k), [])) && Packer.AllEncodable(packets[0].streams)
        && Accepted(headers(k), [], PayloadSize(packets[0]), overhead, false, maxPacketSize)
        && AllAccepted(packets[1..], headers, overhead, maxPacketSize, k + 1))
  }

  lemma {:induction false} PackedPacketsFit(packets: seq<Packer.Packet>, headers: nat -> Header, overhead: nat, maxPacketSize: nat,
                                            rooms: nat -> nat, k: nat)
    requires RoomsFor(headers, overhead, maxPacketSize, rooms) && Packer.AllWellFormed(packets, rooms, k)
    ensures AllAccepted(packets, headers, overhead, maxPacketSize, k)
    decreases |packets|
  {
    if packets != [] {
      PacketFits(headers(k), PayloadSize(packets[0]), overhead, false, maxPacketSize);
      PackedPacketsFit(packets[1..], headers, overhead, maxPacketSize, rooms, k + 1);
    }
  }

  /** None of the packets that a retransmission is packed into is too large. */
  lemma RetransmissionsFit(controls: seq<Packer.ControlFrame>, streams: seq<StreamFrames.StreamFrame>, rooms: nat -> nat, r: Packer.Packed,
                           headers: nat -> Header, overhead: nat, maxPacketSize: nat)
    requires Packer.Packs(controls, streams, rooms, 0, r) && r.Packets?
    requires RoomsFor(headers, overhead, maxPacketSize, rooms)
    ensures AllAccepted(r.packets, headers, overhead, maxPacketSize, 0)
  {
    Packer.PackAllCarries(controls, streams, rooms, 0, r);
    PackedPacketsFit(r.packets, headers, overhead, maxPacketSize, rooms, 0);
  }
}
