/** Packing lost frames into new packets. */
module Packer {
  import opened Protocol
  import opened StreamFrames

  /** Room that must be left for another STREAM frame. */
  const MIN_STREAM_FRAME_SIZE: nat := 128

  /** Frames other than STREAM frames are packed by their size alone. */
  datatype ControlFrame = ControlFrame(content: nat, size: nat)

  datatype Frame = Control(control: ControlFrame) | Data(stream: StreamFrame)

  /** Control frames come first. */
  datatype Packet = Packet(controls: seq<ControlFrame>, streams: seq<StreamFrame>)

  predicate AllEncodable(streams: seq<StreamFrame>) {
    forall i :: 0 <= i < |streams| ==> streams[i].Encodable()
  }

  function ControlSize(controls: seq<ControlFrame>): nat {
    if controls == [] then 0 else controls[0].size + ControlSize(controls[1..])
  }

  function StreamSize(streams: seq<StreamFrame>): nat
    requires AllEncodable(streams)
  {
    if streams == [] then 0 else Length(streams[0]) + StreamSize(streams[1..])
  }

  /** How many control frames from the front fit into `room` bytes. */
  function Fitting(controls: seq<ControlFrame>, room: nat): (n: nat)
    ensures n <= |controls| && ControlSize(controls[..n]) <= room
    ensures n == 0 <==> controls == [] || controls[0].size > room
  {
    if controls == [] || controls[0].size > room then 0
    else
      var n := Fitting(controls[1..], room - controls[0].size);
      assert controls[..n + 1][1..] == controls[1..][..n];
      n + 1
  }

  /** The frame after those that fit does not. */
  lemma {:induction false} FittingIsMaximal(controls: seq<ControlFrame>, room: nat)
    ensures var n := Fitting(controls, room);
      n < |controls| ==> ControlSize(controls[..n]) + controls[n].size > room
  {
    if controls != [] && controls[0].size <= room {
      FittingIsMaximal(controls[1..], room - controls[0].size);
      var n := Fitting(controls, room);
      assert controls[..n][1..] == controls[1..][..n - 1];
    }
  }

  datatype Filled = Filled(added: seq<StreamFrame>, rest: seq<StreamFrame>)

  /** STREAM frames are added, the last cut to fit exactly, as long as more than the minimum is left. */
  function Fill(streams: seq<StreamFrame>, room: int): (r: Filled)
    requires AllEncodable(streams) && room <= MAX_BYTE_COUNT
    ensures AllEncodable(r.added) && AllEncodable(r.rest)
    decreases room
  {
    if streams == [] || room <= MIN_STREAM_FRAME_SIZE then Filled([], streams)
    else
      var f := streams[0].(hasLen := false);
      var split := MaybeSplitOffFrame(f, room);
      if split.Pieces? then
        SplitReassembles(f, room);
        var r := Fill([split.rest.(hasLen := true)] + streams[1..], room - Length(split.piece));
        Filled([split.piece] + r.added, r.rest)
      else
        var r := Fill(streams[1..], room - Length(streams[0].(hasLen := true)));
        Filled([streams[0].(hasLen := true)] + r.added, r.rest)
  }

  /** A cut frame fills the packet. */
  lemma FillPieces(streams: seq<StreamFrame>, room: nat)
    requires AllEncodable(streams) && MIN_STREAM_FRAME_SIZE < room <= MAX_BYTE_COUNT && streams != []
    requires MaybeSplitOffFrame(streams[0].(hasLen := false), room).Pieces?
    ensures var split := MaybeSplitOffFrame(streams[0].(hasLen := false), room);
      && Length(split.piece) == room && split.piece.Encodable() && split.rest.Encodable()
      && Fill(streams, room) == Filled([split.piece], [split.rest.(hasLen := true)] + streams[1..])
  {
    var f := streams[0].(hasLen := false);
    SplitFits(f, room);
    SplitReassembles(f, room);
    var split := MaybeSplitOffFrame(f, room);
    var r := Fill([split.rest.(hasLen := true)] + streams[1..], room - Length(split.piece));
    assert [split.piece] + r.added == [split.piece];
  }

  /** Any other frame fits without its length field. */
  lemma FillWhole(streams: seq<StreamFrame>, room: nat)
    requires AllEncodable(streams) && MIN_STREAM_FRAME_SIZE < room <= MAX_BYTE_COUNT && streams != []
    requires !MaybeSplitOffFrame(streams[0].(hasLen := false), room).Pieces?
    ensures MaybeSplitOffFrame(streams[0].(hasLen := false), room).Whole?
    ensures Length(streams[0].(hasLen := false)) <= room
    ensures var g := streams[0].(hasLen := true);
      && 0 < Length(g)
      && Fill(streams, room) == (var r := Fill(streams[1..], room - Length(g)); Filled([g] + r.added, r.rest))
  {
  }

  /** `r` is what `Fill` makes of these frames. */
  ghost predicate Fills(streams: seq<StreamFrame>, room: int, r: Filled) {
    AllEncodable(streams) && room <= MAX_BYTE_COUNT && r == Fill(streams, room)
  }

  /** `f` without its first `n` bytes. */
  function After(f: StreamFrame, n: nat): StreamFrame
    requires n <= |f.data|
  {
    f.(data := f.data[n..], offset := f.offset + n)
  }

  /** `frame` is the first of `streams` or a front part of it, and `rest` is what remains. */
  ghost predicate Takes(streams: seq<StreamFrame>, frame: StreamFrame, rest: seq<StreamFrame>) {
    && streams != []
    && (|| (frame == streams[0].(hasLen := true) && rest == streams[1..])
        || (&& 0 < |frame.data| < |streams[0].data|
            && frame == streams[0].(hasLen := false, fin := false, data := streams[0].data[..|frame.data|])
            && rest == [After(streams[0], |frame.data|).(hasLen := true)] + streams[1..]))
  }

  /** Filling takes the first frame, or a piece of it that takes all the room; `more` is the rest of it. */
  lemma FillNext(streams: seq<StreamFrame>, room: nat, r: Filled) returns (frame: StreamFrame, rest: seq<StreamFrame>, more: Filled)
    requires Fills(streams, room, r) && room > MIN_STREAM_FRAME_SIZE && streams != []
    ensures frame.Encodable() && Length(frame) > 0 && Fills(rest, room - Length(frame), more)
    ensures r == Filled([frame] + more.added, more.rest)
    ensures Takes(streams, frame, rest)
    ensures more.added != [] ==> frame.hasLen
    ensures Length(frame.(hasLen := false)) <= room
  {
    var split := MaybeSplitOffFrame(streams[0].(hasLen := false), room);
    if split.Pieces? {
      FillPieces(streams, room);
      PieceIsTaken(streams, room, split.piece, split.rest);
      frame, rest := split.piece, [split.rest.(hasLen := true)] + streams[1..];
    } else {
      FillWhole(streams, room);
      frame, rest := streams[0].(hasLen := true), streams[1..];
    }
    more := Fill(rest, room - Length(frame));
  }

  lemma PieceIsTaken(streams: seq<StreamFrame>, room: nat, piece: StreamFrame, rest: StreamFrame)
    requires AllEncodable(streams) && MIN_STREAM_FRAME_SIZE < room <= MAX_BYTE_COUNT && streams != []
    requires MaybeSplitOffFrame(streams[0].(hasLen := false), room) == Pieces(piece, rest)
    ensures Takes(streams, piece, [rest.(hasLen := true)] + streams[1..])
    ensures piece.Encodable() && 0 < Length(piece) && Length(piece.(hasLen := false)) <= room
  {
    SplitFits(streams[0].(hasLen := false), room);
    SplitReassembles(streams[0].(hasLen := false), room);
  }

  /** The last frame of a packet needs no length. */
  function LastWithoutLen(streams: seq<StreamFrame>): (r: seq<StreamFrame>)
    requires AllEncodable(streams)
    ensures AllEncodable(r) && |r| == |streams|
  {
    if streams == [] then []
    else if |streams| == 1 then [streams[0].(hasLen := false)]
    else [streams[0]] + LastWithoutLen(streams[1..])
  }

  /** What goes into one packet: `n` control frames, and STREAM frames. */
  datatype Taken = Taken(n: nat, filled: Filled) {
    predicate Empty() { n == 0 && filled.added == [] }
  }

  function Take(controls: seq<ControlFrame>, streams: seq<StreamFrame>, room: nat): (t: Taken)
    requires AllEncodable(streams) && room <= MAX_BYTE_COUNT
    ensures t.n <= |controls| && AllEncodable(t.filled.added) && AllEncodable(t.filled.rest)
  {
    var n := Fitting(controls, room);
    Taken(n, Fill(streams, room - ControlSize(controls[..n])))
  }

  /** `t` is what goes into a packet with `room` bytes for frames. */
  ghost predicate IsTaken(controls: seq<ControlFrame>, streams: seq<StreamFrame>, room: nat, t: Taken) {
    t.n == Fitting(controls, room) && Fills(streams, room - ControlSize(controls[..t.n]), t.filled)
  }

  function PacketOf(controls: seq<ControlFrame>, t: Taken): Packet
    requires t.n <= |controls| && AllEncodable(t.filled.added)
  {
    Packet(controls[..t.n], LastWithoutLen(t.filled.added))
  }

  // ---------------------------------------------------------------- progress

  /** What is still to be packed. */
  function Work(streams: seq<StreamFrame>): nat {
    if streams == [] then 0 else |streams[0].data| + 1 + Work(streams[1..])
  }

  lemma TakesReducesWork(streams: seq<StreamFrame>, frame: StreamFrame, rest: seq<StreamFrame>)
    requires Takes(streams, frame, rest)
    ensures Work(rest) < Work(streams)
  {
    if rest != streams[1..] {
      assert rest[1..] == streams[1..];
    }
  }

  lemma {:induction false} FillMakesProgress(streams: seq<StreamFrame>, room: int, r: Filled)
    requires Fills(streams, room, r)
    ensures if streams == [] || room <= MIN_STREAM_FRAME_SIZE then r == Filled([], streams)
            else r.added != [] && Work(r.rest) < Work(streams)
    decreases room
  {
    if streams != [] && room > MIN_STREAM_FRAME_SIZE {
      var frame, rest, more := FillNext(streams, room, r);
      TakesReducesWork(streams, frame, rest);
      FillMakesProgress(rest, room - Length(frame), more);
    }
  }

  /** A packet takes something exactly when the first control frame fits, or there is room for a STREAM frame. */
  lemma TakeMakesProgress(controls: seq<ControlFrame>, streams: seq<StreamFrame>, room: nat, t: Taken)
    requires IsTaken(controls, streams, room, t)
    ensures t.Empty() <==> (controls == [] || controls[0].size > room) && (streams == [] || room <= MIN_STREAM_FRAME_SIZE)
    ensures Work(t.filled.rest) <= Work(streams)
    ensures !t.Empty() ==> |controls| - t.n + Work(t.filled.rest) < |controls| + Work(streams)
  {
    FillMakesProgress(streams, room - ControlSize(controls[..t.n]), t.filled);
  }

  datatype Packed = Packets(packets: seq<Packet>) | EmptyPacket

  function Joined(packets: seq<Packet>, r: Packed): Packed {
    if r.EmptyPacket? then EmptyPacket else Packets(packets + r.packets)
  }

  /** All packets; the room may differ from packet to packet. `EmptyPacket` stands for the index error on an empty frame list. */
  function PackAll(controls: seq<ControlFrame>, streams: seq<StreamFrame>, rooms: nat -> nat, k: nat): Packed
    requires AllEncodable(streams) && forall i: nat :: rooms(i) <= MAX_BYTE_COUNT
    decreases |controls| + Work(streams)
  {
    if controls == [] && streams == [] then Packets([])
    else
      var t := Take(controls, streams, rooms(k));
      if t.Empty() then EmptyPacket
      else
        TakeMakesProgress(controls, streams, rooms(k), t);
        Joined([PacketOf(controls, t)], PackAll(controls[t.n..], t.filled.rest, rooms, k + 1))
  }

  /** `r` is what `PackAll` makes of these frames. */
  ghost predicate Packs(controls: seq<ControlFrame>, streams: seq<StreamFrame>, rooms: nat -> nat, k: nat, r: Packed) {
    && AllEncodable(streams)
    && (forall i: nat :: rooms(i) <= MAX_BYTE_COUNT)
    && r == PackAll(controls, streams, rooms, k)
  }

  lemma PackAllNext(controls: seq<ControlFrame>, streams: seq<StreamFrame>, rooms: nat -> nat, k: nat, r: Packed, t: Taken)
    returns (more: Packed)
    requires Packs(controls, streams, rooms, k, r) && (controls != [] || streams != [])
    requires IsTaken(controls, streams, rooms(k), t)
    ensures AllEncodable(t.filled.added)
    ensures if t.Empty() then r == EmptyPacket
            else
              && Packs(controls[t.n..], t.filled.rest, rooms, k + 1, more)
              && r == Joined([PacketOf(controls, t)], more)
              && |controls| - t.n + Work(t.filled.rest) < |controls| + Work(streams)
  {
    assert t == Take(controls, streams, rooms(k));
    more := r;
    if !t.Empty() {
      TakeMakesProgress(controls, streams, rooms(k), t);
      more := PackAll(controls[t.n..], t.filled.rest, rooms, k + 1);
    }
  }

  /** If there are packets at all, the first is not empty and is followed by those for the frames left. */
  lemma FirstPacket(controls: seq<ControlFrame>, streams: seq<StreamFrame>, rooms: nat -> nat, k: nat, r: Packed) returns (t: Taken, more: Packed)
    requires Packs(controls, streams, rooms, k, r) && r.Packets? && (controls != [] || streams != [])
    ensures IsTaken(controls, streams, rooms(k), t) && !t.Empty() && AllEncodable(t.filled.added)
    ensures Packs(controls[t.n..], t.filled.rest, rooms, k + 1, more) && more.Packets?
    ensures r.packets == [PacketOf(controls, t)] + more.packets
    ensures |controls| - t.n + Work(t.filled.rest) < |controls| + Work(streams)
  {
    t := Take(controls, streams, rooms(k));
    more := PackAllNext(controls, streams, rooms, k, r, t);
  }

  // ---------------------------------------------------------------- when it fails

  /** Every control frame fits a packet, and there is room for a STREAM frame if there is one. */
  ghost predicate Packable(controls: seq<ControlFrame>, streams: seq<StreamFrame>, room: nat) {
    && (forall c :: c in controls ==> c.size <= room)
    && (streams == [] || room > MIN_STREAM_FRAME_SIZE)
  }

  lemma {:induction false} PackableSucceeds(controls: seq<ControlFrame>, streams: seq<StreamFrame>, rooms: nat -> nat, k: nat, r: Packed)
    requires Packs(controls, streams, rooms, k, r)
    requires forall i: nat :: Packable(controls, streams, rooms(i))
    ensures r.Packets?
    decreases |controls| + Work(streams)
  {
    if controls != [] || streams != [] {
      var controls', streams', more := PackableNext(controls, streams, rooms, k, r);
      PackableSucceeds(controls', streams', rooms, k + 1, more);
    }
  }

  lemma PackableNext(controls: seq<ControlFrame>, streams: seq<StreamFrame>, rooms: nat -> nat, k: nat, r: Packed)
    returns (controls': seq<ControlFrame>, streams': seq<StreamFrame>, more: Packed)
    requires Packs(controls, streams, rooms, k, r) && (controls != [] || streams != [])
    requires forall i: nat :: Packable(controls, streams, rooms(i))
    ensures Packs(controls', streams', rooms, k + 1, more) && (more.Packets? ==> r.Packets?)
    ensures forall i: nat :: Packable(controls', streams', rooms(i))
    ensures |controls'| + Work(streams') < |controls| + Work(streams)
  {
    var t := Take(controls, streams, rooms(k));
    PackableTakes(controls, streams, rooms(k), t);
    StillPackable(controls, streams, rooms, k, t);
    more := PackAllNext(controls, streams, rooms, k, r, t);
    controls', streams' := controls[t.n..], t.filled.rest;
  }

  lemma PackableTakes(controls: seq<ControlFrame>, streams: seq<StreamFrame>, room: nat, t: Taken)
    requires IsTaken(controls, streams, room, t) && Packable(controls, streams, room) && (controls != [] || streams != [])
    ensures !t.Empty()
  {
    TakeMakesProgress(controls, streams, room, t);
    assert controls != [] ==> controls[0] in controls;
  }

  lemma StillPackable(controls: seq<ControlFrame>, streams: seq<StreamFrame>, rooms: nat -> nat, k: nat, t: Taken)
    requires IsTaken(controls, streams, rooms(k), t) && forall i: nat :: Packable(controls, streams, rooms(i))
    ensures forall i: nat :: Packable(controls[t.n..], t.filled.rest, rooms(i))
  {
    RestStays(controls, streams, rooms(k), t);
    forall i: nat
      ensures Packable(controls[t.n..], t.filled.rest, rooms(i))
    {
      assert Packable(controls, streams, rooms(i));
    }
  }

  lemma {:induction false} NotPackableFails(controls: seq<ControlFrame>, streams: seq<StreamFrame>, rooms: nat -> nat, room: nat, k: nat)
    requires AllEncodable(streams) && room <= MAX_BYTE_COUNT && forall i: nat :: rooms(i) == room
    requires !Packable(controls, streams, room)
    ensures PackAll(controls, streams, rooms, k).EmptyPacket?
    decreases |controls| + Work(streams)
  {
    var t := Take(controls, streams, room);
    TakeMakesProgress(controls, streams, room, t);
    if !t.Empty() {
      StillNotPackable(controls, streams, room, t);
      NotPackableFails(controls[t.n..], t.filled.rest, rooms, room, k + 1);
    }
  }

  lemma StillNotPackable(controls: seq<ControlFrame>, streams: seq<StreamFrame>, room: nat, t: Taken)
    requires IsTaken(controls, streams, room, t) && !Packable(controls, streams, room)
    ensures !Packable(controls[t.n..], t.filled.rest, room)
  {
    FittingAreSmall(controls, room);
    RestStays(controls, streams, room, t);
    assert controls == controls[..t.n] + controls[t.n..];
  }

  lemma {:induction false} FittingAreSmall(controls: seq<ControlFrame>, room: nat)
    ensures forall c :: c in controls[..Fitting(controls, room)] ==> c.size <= room
  {
    if controls != [] && controls[0].size <= room {
      FittingAreSmall(controls[1..], room - controls[0].size);
      var n := Fitting(controls, room);
      assert controls[..n] == [controls[0]] + controls[1..][..n - 1];
    }
  }

  /** STREAM frames stay until there is room for them. */
  lemma RestStays(controls: seq<ControlFrame>, streams: seq<StreamFrame>, room: nat, t: Taken)
    requires IsTaken(controls, streams, room, t)
    ensures streams == [] || room <= MIN_STREAM_FRAME_SIZE ==> t.filled.rest == streams
  {
    FillMakesProgress(streams, room - ControlSize(controls[..t.n]), t.filled);
  }

  /** With packets of one size, packing ends without error exactly when everything is packable. */
  lemma PackAllIff(controls: seq<ControlFrame>, streams: seq<StreamFrame>, rooms: nat -> nat, room: nat)
    requires AllEncodable(streams) && room <= MAX_BYTE_COUNT && forall i: nat :: rooms(i) == room
    ensures PackAll(controls, streams, rooms, 0).Packets? <==> Packable(controls, streams, room)
  {
    if Packable(controls, streams, room) {
      PackableSucceeds(controls, streams, rooms, 0, PackAll(controls, streams, rooms, 0));
    } else {
      NotPackableFails(controls, streams, rooms, room, 0);
    }
  }

  // ---------------------------------------------------------------- what the packets carry

  /** `pieces` is `streams`, in order, with some frames cut; only the last piece of a frame has its FIN. */
  ghost predicate Carries(pieces: seq<StreamFrame>, streams: seq<StreamFrame>)
    decreases |pieces|
  {
    if pieces == [] then streams == []
    else
      && streams != []
      && pieces[0].id == streams[0].id && pieces[0].offset == streams[0].offset
      && if |pieces[0].data| >= |streams[0].data| then
           pieces[0].data == streams[0].data && pieces[0].fin == streams[0].fin && Carries(pieces[1..], streams[1..])
         else
           && pieces[0].data != [] && pieces[0].data <= streams[0].data && !pieces[0].fin
           && Carries(pieces[1..], [After(streams[0], |pieces[0].data|)] + streams[1..])
  }

  /** Some pieces reassemble the first frame, and the others carry the remaining frames. */
  lemma {:induction false} CarriesReassembles(pieces: seq<StreamFrame>, streams: seq<StreamFrame>) returns (k: nat)
    requires Carries(pieces, streams) && streams != []
    ensures 0 < k <= |pieces| && Reassembles(pieces[..k], streams[0]) && Carries(pieces[k..], streams[1..])
    decreases |pieces|
  {
    if |pieces[0].data| >= |streams[0].data| {
      k := 1;
    } else {
      var f := After(streams[0], |pieces[0].data|);
      k := CarriesReassembles(pieces[1..], [f] + streams[1..]);
      assert ([f] + streams[1..])[1..] == streams[1..];
      assert pieces[1..][k..] == pieces[k + 1..];
      assert pieces[..k + 1][1..] == pieces[1..][..k];
      k := k + 1;
    }
  }

  /** The length field does not matter. */
  lemma {:induction false} CarriesWithLen(pieces: seq<StreamFrame>, f: StreamFrame, streams: seq<StreamFrame>, hasLen: bool)
    requires Carries(pieces, [f] + streams)
    ensures Carries(pieces, [f.(hasLen := hasLen)] + streams)
    decreases |pieces|
  {
    var g := f.(hasLen := hasLen);
    assert ([f] + streams)[1..] == streams && ([g] + streams)[1..] == streams;
    if |pieces[0].data| < |f.data| {
      CarriesWithLen(pieces[1..], After(f, |pieces[0].data|), streams, hasLen);
    }
  }

  /** `piece` is `frame`, with or without the length. */
  lemma CarriesTaken(streams: seq<StreamFrame>, frame: StreamFrame, rest: seq<StreamFrame>, piece: StreamFrame, pieces: seq<StreamFrame>)
    requires Takes(streams, frame, rest) && piece == frame.(hasLen := piece.hasLen) && Carries(pieces, rest)
    ensures Carries([piece] + pieces, streams)
  {
    assert ([piece] + pieces)[1..] == pieces;
    if rest != streams[1..] {
      var f := After(streams[0], |frame.data|);
      CarriesWithLen(pieces, f.(hasLen := true), streams[1..], f.hasLen);
    }
  }

  lemma {:induction false} FillCarries(streams: seq<StreamFrame>, room: int, r: Filled, later: seq<StreamFrame>)
    requires Fills(streams, room, r) && AllEncodable(r.added) && Carries(later, r.rest)
    ensures Carries(LastWithoutLen(r.added) + later, streams)
    decreases room
  {
    if streams == [] || room <= MIN_STREAM_FRAME_SIZE {
      assert [] + later == later;
    } else {
      var frame, rest, more := FillNext(streams, room, r);
      FillCarries(rest, room - Length(frame), more, later);
      HeadOfLast(frame, more.added, later);
      var piece := if more.added == [] then frame.(hasLen := false) else frame;
      CarriesTaken(streams, frame, rest, piece, LastWithoutLen(more.added) + later);
    }
  }

  lemma HeadOfLast(f: StreamFrame, more: seq<StreamFrame>, later: seq<StreamFrame>)
    requires f.Encodable() && AllEncodable(more)
    ensures LastWithoutLen([f] + more) + later
      == [if more == [] then f.(hasLen := false) else f] + (LastWithoutLen(more) + later)
  {
    assert ([f] + more)[1..] == more;
  }

  /** All but the last frame have a length, the last has none, and all fit. */
  ghost predicate WellFormed(packet: Packet, room: nat) {
    && packet != Packet([], [])
    && AllEncodable(packet.streams)
    && ControlSize(packet.controls) + StreamSize(packet.streams) <= room
    && OnlyLastWithoutLen(packet.streams)
  }

  ghost predicate OnlyLastWithoutLen(streams: seq<StreamFrame>) {
    forall i :: 0 <= i < |streams| ==> (streams[i].hasLen <==> i < |streams| - 1)
  }

  lemma FitsInFront(f: StreamFrame, more: seq<StreamFrame>, room: int)
    requires f.Encodable() && AllEncodable(more) && Length(f.(hasLen := false)) <= room && (more != [] ==> f.hasLen)
    requires more != [] ==> StreamSize(LastWithoutLen(more)) <= room - Length(f)
    requires OnlyLastWithoutLen(LastWithoutLen(more))
    ensures StreamSize(LastWithoutLen([f] + more)) <= room && OnlyLastWithoutLen(LastWithoutLen([f] + more))
  {
    assert ([f] + more)[1..] == more;
    if more != [] {
      assert ([f] + LastWithoutLen(more))[1..] == LastWithoutLen(more);
    }
  }

  lemma {:induction false} FillFits(streams: seq<StreamFrame>, room: int, r: Filled)
    requires Fills(streams, room, r)
    ensures AllEncodable(r.added)
    ensures var last := LastWithoutLen(r.added); (last != [] ==> StreamSize(last) <= room) && OnlyLastWithoutLen(last)
    decreases room
  {
    if streams != [] && room > MIN_STREAM_FRAME_SIZE {
      var frame, rest, more := FillNext(streams, room, r);
      FillFits(rest, room - Length(frame), more);
      FitsInFront(frame, more.added, room);
    }
  }

  /** A packet is left with frames to send only if there is no room for another. */
  lemma {:induction false} FillIsMaximal(streams: seq<StreamFrame>, room: int, r: Filled)
    requires Fills(streams, room, r)
    ensures AllEncodable(r.added)
    ensures r.rest == [] || room - StreamSize(r.added) <= MIN_STREAM_FRAME_SIZE
    decreases room
  {
    if streams != [] && room > MIN_STREAM_FRAME_SIZE {
      var frame, rest, more := FillNext(streams, room, r);
      FillIsMaximal(rest, room - Length(frame), more);
      assert ([frame] + more.added)[1..] == more.added;
    }
  }

  lemma PacketFits(controls: seq<ControlFrame>, streams: seq<StreamFrame>, room: nat, t: Taken)
    requires IsTaken(controls, streams, room, t) && AllEncodable(t.filled.added) && !t.Empty()
    ensures WellFormed(PacketOf(controls, t), room)
  {
    FillFits(streams, room - ControlSize(controls[..t.n]), t.filled);
  }

  function AllControls(packets: seq<Packet>): seq<ControlFrame> {
    if packets == [] then [] else packets[0].controls + AllControls(packets[1..])
  }

  function AllStreams(packets: seq<Packet>): seq<StreamFrame> {
    if packets == [] then [] else packets[0].streams + AllStreams(packets[1..])
  }

  ghost predicate AllWellFormed(packets: seq<Packet>, rooms: nat -> nat, k: nat)
    decreases |packets|
  {
    packets == [] || (WellFormed(packets[0], rooms(k)) && AllWellFormed(packets[1..], rooms, k + 1))
  }

  lemma CarriedInFront(controls: seq<ControlFrame>, streams: seq<StreamFrame>, room: nat, t: Taken, more: seq<Packet>)
    requires IsTaken(controls, streams, room, t) && AllEncodable(t.filled.added)
    requires AllControls(more) == controls[t.n..] && Carries(AllStreams(more), t.filled.rest)
    ensures var packets := [PacketOf(controls, t)] + more;
      AllControls(packets) == controls && Carries(AllStreams(packets), streams)
  {
    FillCarries(streams, room - ControlSize(controls[..t.n]), t.filled, AllStreams(more));
    assert ([PacketOf(controls, t)] + more)[1..] == more;
    assert controls[..t.n] + controls[t.n..] == controls;
  }

  /** The packets carry all control frames in order and all STREAM frames, and each is well formed. */
  lemma {:induction false} PackAllCarries(controls: seq<ControlFrame>, streams: seq<StreamFrame>, rooms: nat -> nat, k: nat, r: Packed)
    requires Packs(controls, streams, rooms, k, r) && r.Packets?
    ensures AllControls(r.packets) == controls
    ensures Carries(AllStreams(r.packets), streams)
    ensures AllWellFormed(r.packets, rooms, k)
    decreases |controls| + Work(streams)
  {
    if controls != [] || streams != [] {
      var t, more := FirstPacket(controls, streams, rooms, k, r);
      PackAllCarries(controls[t.n..], t.filled.rest, rooms, k + 1, more);
      PacketInFront(controls, streams, rooms, k, t, more.packets);
    }
  }

  lemma PacketInFront(controls: seq<ControlFrame>, streams: seq<StreamFrame>, rooms: nat -> nat, k: nat, t: Taken, more: seq<Packet>)
    requires IsTaken(controls, streams, rooms(k), t) && !t.Empty()
    requires AllControls(more) == controls[t.n..] && Carries(AllStreams(more), t.filled.rest) && AllWellFormed(more, rooms, k + 1)
    ensures var packets := [PacketOf(controls, t)] + more;
      AllControls(packets) == controls && Carries(AllStreams(packets), streams) && AllWellFormed(packets, rooms, k)
  {
    TakeMakesProgress(controls, streams, rooms(k), t);
    PacketFits(controls, streams, rooms(k), t);
    CarriedInFront(controls, streams, rooms(k), t, more);
    assert ([PacketOf(controls, t)] + more)[1..] == more;
  }

  // ---------------------------------------------------------------- the packer

  function ControlsOf(frames: seq<Frame>): seq<ControlFrame> {
    if frames == [] then []
    else if frames[0].Control? then [frames[0].control] + ControlsOf(frames[1..])
    else ControlsOf(frames[1..])
  }

  function StreamsOf(frames: seq<Frame>): seq<StreamFrame> {
    if frames == [] then []
    else if frames[0].Data? then [frames[0].stream.(hasLen := true)] + StreamsOf(frames[1..])
    else StreamsOf(frames[1..])
  }

  /** How many of the frames are control frames. */
  function CountControls(frames: seq<Frame>): nat {
    if frames == [] then 0 else (if frames[0].Control? then 1 else 0) + CountControls(frames[1..])
  }

  /** Every frame is in its list, at the place that the number of frames of its kind before it gives. */
  lemma {:induction false} PartitionIs(frames: seq<Frame>)
    ensures |ControlsOf(frames)| == CountControls(frames) && |ControlsOf(frames)| + |StreamsOf(frames)| == |frames|
    ensures forall i :: 0 <= i < |frames| ==>
      var k := CountControls(frames[..i]);
      && (frames[i].Control? ==> k < |ControlsOf(frames)| && ControlsOf(frames)[k] == frames[i].control)
      && (frames[i].Data? ==> 0 <= i - k < |StreamsOf(frames)| && StreamsOf(frames)[i - k] == frames[i].stream.(hasLen := true))
  {
    if frames != [] {
      PartitionIs(frames[1..]);
      forall i | 0 < i < |frames|
        ensures CountControls(frames[..i]) == (if frames[0].Control? then 1 else 0) + CountControls(frames[1..][..i - 1])
      {
        assert frames[..i][1..] == frames[1..][..i - 1];
      }
      forall i | 0 <= i < |frames|
        ensures var k := CountControls(frames[..i]);
          && (frames[i].Control? ==> k < |ControlsOf(frames)| && ControlsOf(frames)[k] == frames[i].control)
          && (frames[i].Data? ==> 0 <= i - k < |StreamsOf(frames)| && StreamsOf(frames)[i - k] == frames[i].stream.(hasLen := true))
      {
        if i > 0 {
          assert frames[i] == frames[1..][i - 1];
        }
      }
    }
  }

  /** All control frames in order, and pieces that reassemble each STREAM frame in order. */
  ghost predicate FramesCarried(controls: seq<ControlFrame>, pieces: seq<StreamFrame>, frames: seq<Frame>)
    decreases |frames|
  {
    if frames == [] then controls == [] && pieces == []
    else
      match frames[0]
      case Control(c) => controls != [] && controls[0] == c && FramesCarried(controls[1..], pieces, frames[1..])
      case Data(f) =>
        exists k :: 0 < k <= |pieces| && Reassembles(pieces[..k], f) && FramesCarried(controls, pieces[k..], frames[1..])
  }

  lemma {:induction false} ListsCarryFrames(pieces: seq<StreamFrame>, frames: seq<Frame>)
    requires Carries(pieces, StreamsOf(frames))
    ensures FramesCarried(ControlsOf(frames), pieces, frames)
    decreases |frames|
  {
    if frames == [] {
      assert pieces == [];
    } else if frames[0].Control? {
      ListsCarryFrames(pieces, frames[1..]);
    } else {
      var k := CarriesReassembles(pieces, StreamsOf(frames));
      ReassemblesAnyLen(pieces[..k], frames[0].stream, true);
      ListsCarryFrames(pieces[k..], frames[1..]);
    }
  }

  lemma {:induction false} ReassemblesAnyLen(pieces: seq<StreamFrame>, f: StreamFrame, hasLen: bool)
    requires Reassembles(pieces, f.(hasLen := hasLen))
    ensures Reassembles(pieces, f)
    decreases |pieces|
  {
    if |pieces| > 1 {
      var n := |pieces[0].data|;
      ReassemblesAnyLen(pieces[1..], f.(data := f.data[n..], offset := f.offset + n), hasLen);
    }
  }

  /** A retransmission carries all frames of the packet, each packet within its room. */
  lemma RetransmissionCarries(frames: seq<Frame>, rooms: nat -> nat, r: Packed)
    requires Packs(ControlsOf(frames), StreamsOf(frames), rooms, 0, r) && r.Packets?
    ensures FramesCarried(AllControls(r.packets), AllStreams(r.packets), frames) && AllWellFormed(r.packets, rooms, 0)
  {
    PackAllCarries(ControlsOf(frames), StreamsOf(frames), rooms, 0, r);
    ListsCarryFrames(AllStreams(r.packets), frames);
  }

  /** With packets of one size, a retransmission fails exactly if a control frame is too large, or there is a STREAM frame and too little room for one. */
  lemma RetransmissionFailsIff(frames: seq<Frame>, rooms: nat -> nat, room: nat)
    requires AllEncodable(StreamsOf(frames)) && room <= MAX_BYTE_COUNT && forall i: nat :: rooms(i) == room
    ensures PackAll(ControlsOf(frames), StreamsOf(frames), rooms, 0).EmptyPacket? <==>
      exists f :: f in frames && match f case Control(c) => c.size > room case Data(_) => room <= MIN_STREAM_FRAME_SIZE
  {
    PackAllIff(ControlsOf(frames), StreamsOf(frames), rooms, room);
    PartitionMembers(frames);
  }

  lemma {:induction false} PartitionMembers(frames: seq<Frame>)
    ensures forall c :: c in ControlsOf(frames) <==> Control(c) in frames
    ensures StreamsOf(frames) != [] <==> exists f :: f in frames && f.Data?
  {
    if frames != [] {
      PartitionMembers(frames[1..]);
      assert frames == [frames[0]] + frames[1..];
    }
  }

  method Partition(frames: seq<Frame>) returns (controls: seq<ControlFrame>, streams: seq<StreamFrame>)
    ensures controls == ControlsOf(frames) && streams == StreamsOf(frames)
  {
    controls, streams := [], [];
    for i := 0 to |frames|
      invariant controls + ControlsOf(frames[i..]) == ControlsOf(frames)
      invariant streams + StreamsOf(frames[i..]) == StreamsOf(frames)
    {
      assert frames[i..][1..] == frames[i + 1..];
      match frames[i]
      case Control(c) => controls := controls + [c];
      case Data(f) => streams := streams + [f.(hasLen := true)];
    }
    assert frames[|frames|..] == [];
  }

  method TakeControls(controls: seq<ControlFrame>, maxSize: nat) returns (n: nat, length: nat)
    ensures n == Fitting(controls, maxSize) && length == ControlSize(controls[..n])
  {
    n, length := 0, 0;
    while n < |controls|
      invariant n <= |controls| && length <= maxSize
      invariant n + Fitting(controls[n..], maxSize - length) == Fitting(controls, maxSize)
      invariant length == ControlSize(controls[..n])
    {
      if length + controls[n].size > maxSize {
        return;
      }
      assert controls[n..][1..] == controls[n + 1..];
      ControlSizeSnoc(controls, n);
      length := length + controls[n].size;
      n := n + 1;
    }
  }

  lemma {:induction false} ControlSizeSnoc(controls: seq<ControlFrame>, n: nat)
    requires n < |controls|
    ensures ControlSize(controls[..n + 1]) == ControlSize(controls[..n]) + controls[n].size
    decreases n
  {
    if n > 0 {
      ControlSizeSnoc(controls[1..], n - 1);
      assert controls[..n + 1][1..] == controls[1..][..n] && controls[..n][1..] == controls[1..][..n - 1];
    }
  }

  /** Takes the first frame, or a piece of it; `more` is what is left to `Fill`. Splitting never fails. */
  method TakeFrame(streams: seq<StreamFrame>, room: nat, ghost r: Filled)
    returns (ok: bool, frame: StreamFrame, rest: seq<StreamFrame>, ghost more: Filled)
    requires Fills(streams, room, r) && MIN_STREAM_FRAME_SIZE < room && streams != []
    ensures ok && frame.Encodable() && Length(frame) > 0
    ensures Fills(rest, room - Length(frame), more) && r == Filled([frame] + more.added, more.rest)
  {
    frame := streams[0].(hasLen := false);
    var split := MaybeSplitOffFrame(frame, room);
    if split.Pieces? {
      FillPieces(streams, room);
      frame := split.piece;
      rest := [split.rest.(hasLen := true)] + streams[1..];
    } else {
      FillWhole(streams, room);
      frame := frame.(hasLen := true);
      rest := streams[1..];
    }
    return !split.TooSmall? && !split.OutOfBounds?, frame, rest, Fill(rest, room - Length(frame));
  }

  method TakeStreams(streams: seq<StreamFrame>, maxSize: nat, controlLength: nat, ghost r: Filled)
    returns (added: seq<StreamFrame>, rest: seq<StreamFrame>)
    requires Fills(streams, maxSize - controlLength, r)
    ensures Filled(added, rest) == r
  {
    added, rest := [], streams;
    var length := controlLength;
    ghost var todo := r;
    while rest != [] && length + MIN_STREAM_FRAME_SIZE < maxSize
      invariant Fills(rest, maxSize - length, todo)
      invariant added + todo.added == r.added && todo.rest == r.rest
      decreases maxSize - length
    {
      var frame, ok;
      ghost var more;
      ok, frame, rest, more := TakeFrame(rest, maxSize - length, todo);
      Regroup(added, frame, more.added);
      length, added, todo := length + Length(frame), added + [frame], more;
    }
  }

  lemma Regroup<T>(a: seq<T>, x: T, b: seq<T>)
    ensures a + ([x] + b) == a + [x] + b
  {
  }

  lemma JoinedTwice(packets: seq<Packet>, packet: Packet, r: Packed)
    ensures Joined(packets, Joined([packet], r)) == Joined(packets + [packet], r)
  {
    if r.Packets? {
      Regroup(packets, packet, r.packets);
    }
  }

  method FillPacket(controls: seq<ControlFrame>, streams: seq<StreamFrame>, maxSize: nat) returns (t: Taken)
    requires AllEncodable(streams) && maxSize <= MAX_BYTE_COUNT
    ensures IsTaken(controls, streams, maxSize, t)
  {
    var n, length := TakeControls(controls, maxSize);
    ghost var filled := Fill(streams, maxSize - length);
    var added, rest := TakeStreams(streams, maxSize, length, filled);
    t := Taken(n, Filled(added, rest));
  }

  /** Adds the next packet, unless it is empty; `more` is what `PackAll` makes of the frames left. */
  method AddPacket(packets: seq<Packet>, controls: seq<ControlFrame>, streams: seq<StreamFrame>, rooms: nat -> nat, ghost r: Packed)
    returns (ok: bool, packets': seq<Packet>, controls': seq<ControlFrame>, streams': seq<StreamFrame>, ghost more: Packed)
    requires Packs(controls, streams, rooms, |packets|, r) && (controls != [] || streams != [])
    ensures if !ok then r == EmptyPacket
            else
              && Packs(controls', streams', rooms, |packets'|, more)
              && Joined(packets', more) == Joined(packets, r)
              && |controls'| + Work(streams') < |controls| + Work(streams)
  {
    var t := FillPacket(controls, streams, rooms(|packets|));
    more := NextPacket(packets, controls, streams, rooms, r, t);
    ok, packets', controls', streams' := !t.Empty(), packets + [PacketOf(controls, t)], controls[t.n..], t.filled.rest;
  }

  lemma NextPacket(packets: seq<Packet>, controls: seq<ControlFrame>, streams: seq<StreamFrame>, rooms: nat -> nat, r: Packed, t: Taken)
    returns (more: Packed)
    requires Packs(controls, streams, rooms, |packets|, r) && (controls != [] || streams != [])
    requires IsTaken(controls, streams, rooms(|packets|), t)
    ensures AllEncodable(t.filled.added)
    ensures if t.Empty() then r == EmptyPacket
            else
              && Packs(controls[t.n..], t.filled.rest, rooms, |packets| + 1, more)
              && Joined(packets + [PacketOf(controls, t)], more) == Joined(packets, r)
              && |controls| - t.n + Work(t.filled.rest) < |controls| + Work(streams)
  {
    more := PackAllNext(controls, streams, rooms, |packets|, r, t);
    JoinedTwice(packets, PacketOf(controls, t), more);
  }

  method PackFrames(controls0: seq<ControlFrame>, streams0: seq<StreamFrame>, rooms: nat -> nat, ghost all: Packed) returns (r: Packed)
    requires Packs(controls0, streams0, rooms, 0, all)
    ensures r == all
  {
    var packets: seq<Packet>, controls, streams := [], controls0, streams0;
    ghost var todo := all;
    assert Joined(packets, todo) == all;
    while controls != [] || streams != []
      invariant Packs(controls, streams, rooms, |packets|, todo)
      invariant Joined(packets, todo) == all
      decreases |controls| + Work(streams)
    {
      var ok;
      ok, packets, controls, streams, todo := AddPacket(packets, controls, streams, rooms, todo);
      if !ok {
        return EmptyPacket;
      }
    }
    return Packets(packets);
  }

  /** `rooms(k)` is the room for frames in the `k`-th packet: its size without header and overhead. */
  method PackRetransmission(frames: seq<Frame>, rooms: nat -> nat) returns (r: Packed)
    requires AllEncodable(StreamsOf(frames)) && forall i: nat :: rooms(i) <= MAX_BYTE_COUNT
    ensures r == PackAll(ControlsOf(frames), StreamsOf(frames), rooms, 0)
    ensures r.Packets? ==> FramesCarried(AllControls(r.packets), AllStreams(r.packets), frames) && AllWellFormed(r.packets, rooms, 0)
  {
    var controls, streams := Partition(frames);
    ghost var all := PackAll(controls, streams, rooms, 0);
    r := PackFrames(controls, streams, rooms, all);
    if r.Packets? {
      RetransmissionCarries(frames, rooms, r);
    }
  }
}
