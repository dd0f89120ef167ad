/**
 One stream end to end. Bytes are written, cut into frames, cut again when a packet is
 retransmitted, and carried by a network that loses, repeats and reorders frames. The steps of
 the two ends are those that `SendStream` and `Sorter` are proved to take.
 */
module BytePipe {
  import opened Protocol
  import opened StreamFrames
  import opened SendStreams
  import opened FrameSorter

  datatype Pipe = Pipe(
    sender: SenderView,
    /** Everything that was ever sent, which may be sent again. */
    packed: set<Segment>,
    /** Frames that may still arrive. */
    network: set<Segment>,
    log: seq<Segment>,
    readPos: nat,
    /** Everything the reader got so far. */
    delivered: seq<byte>)

  datatype Event =
    | Write(p: seq<byte>)
    | Close
    | PopFrame(f: StreamFrame)
    | Retransmit(whole: StreamFrame, pieces: seq<StreamFrame>)
    | Drop(seg: Segment)
    | Deliver(seg: Segment)
    | Read(data: seq<byte>, fin: bool)

  function ToSegment(f: StreamFrame): Segment {
    Segment(f.offset, f.data, f.fin)
  }

  function ToSegments(fs: seq<StreamFrame>): set<Segment> {
    set f | f in fs :: ToSegment(f)
  }

  const START: Pipe := Pipe(SenderView([], 0, false, false), {}, {}, [], 0, [])

  function AfterPop(v: SenderView, f: StreamFrame): SenderView {
    v.(sent := v.sent + |f.data|, finSent := v.finSent || f.fin)
  }

  /** The two ends answer as `PopStreamFrame`, `Push` and `Pop` do; the network may do anything else. */
  ghost predicate Possible(p: Pipe, e: Event) {
    match e
    case Write(w) => !p.sender.finished
    case Close => true
    case PopFrame(f) => FramePopped(p.sender, f, AfterPop(p.sender, f))
    case Retransmit(whole, pieces) => ToSegment(whole) in p.packed && Reassembles(pieces, whole)
    case Drop(seg) => true
    case Deliver(seg) => seg in p.network && PushStep(p.log, seg, p.log + [seg])
    case Read(data, fin) => PopStep(p.log, p.readPos, data, fin, p.readPos + |data|)
  }

  /** An event that is not possible changes nothing. */
  ghost function Next(p: Pipe, e: Event): Pipe {
    if !Possible(p, e) then p
    else
      match e
      case Write(w) => p.(sender := p.sender.(written := p.sender.written + w))
      case Close => p.(sender := p.sender.(finished := true))
      case PopFrame(f) =>
        p.(sender := AfterPop(p.sender, f), packed := p.packed + {ToSegment(f)}, network := p.network + {ToSegment(f)})
      case Retransmit(whole, pieces) =>
        p.(packed := p.packed + ToSegments(pieces), network := p.network + ToSegments(pieces))
      case Drop(seg) => p.(network := p.network - {seg})
      case Deliver(seg) => p.(log := p.log + [seg])
      case Read(data, fin) => p.(readPos := p.readPos + |data|, delivered := p.delivered + data)
  }

  ghost function Run(p: Pipe, es: seq<Event>): Pipe
    decreases |es|
  {
    if es == [] then p else Run(Next(p, es[0]), es[1..])
  }

  // ---------------------------------------------------------------- invariant

  /** The segment carries a stretch of what was sent, and a FIN only at the final end. */
  ghost predicate Faithful(v: SenderView, seg: Segment) {
    && seg.End() <= v.sent
    && v.sent <= |v.written|
    && seg.data == v.written[seg.offset..seg.End()]
    && (seg.fin ==> v.finSent && seg.End() == |v.written|)
  }

  ghost predicate Inv(p: Pipe) {
    && SenderInv(p.sender)
    && p.network <= p.packed
    && (forall seg :: seg in p.packed ==> Faithful(p.sender, seg))
    && (forall i :: 0 <= i < |p.log| ==> Faithful(p.sender, p.log[i]))
    && (forall i :: 0 <= i < |p.log| && p.log[i].data != [] ==> p.log[i].End() < MAX_BYTE_COUNT)
    && p.readPos <= p.sender.sent && p.readPos < MAX_BYTE_COUNT
    && p.delivered == p.sender.written[..p.readPos]
  }

  ghost predicate FinArrived(log: seq<Segment>) {
    exists i :: 0 <= i < |log| && log[i].fin
  }

  /** What the sender does later keeps every earlier frame faithful. */
  lemma FaithfulMonotone(v: SenderView, v': SenderView, seg: Segment)
    requires Faithful(v, seg) && SenderInv(v')
    requires v.written <= v'.written && v.sent <= v'.sent
    requires v.finSent ==> v'.finSent && v'.written == v.written
    ensures Faithful(v', seg)
  {
    assert v'.written[seg.offset..seg.End()] == v.written[seg.offset..seg.End()];
  }

  lemma FaithfulPieces(v: SenderView, f: StreamFrame, pieces: seq<StreamFrame>, i: nat)
    requires Faithful(v, ToSegment(f)) && Reassembles(pieces, f) && i < |pieces|
    ensures Faithful(v, ToSegment(pieces[i]))
    decreases |pieces|
  {
    if |pieces| > 1 {
      var n := |pieces[0].data|;
      var rest := f.(data := f.data[n..], offset := f.offset + n);
      assert f.data[..n] == pieces[0].data;
      if i > 0 {
        FaithfulPieces(v, rest, pieces[1..], i - 1);
      }
    }
  }

  lemma CoveredWasSent(v: SenderView, log: seq<Segment>, x: nat, b: byte)
    requires v.sent <= |v.written|
    requires forall i :: 0 <= i < |log| ==> Faithful(v, log[i])
    requires forall i :: 0 <= i < |log| && log[i].data != [] ==> log[i].End() < MAX_BYTE_COUNT
    requires Carried(log, x, b)
    ensures x < v.sent && b == v.written[x] && x + 1 < MAX_BYTE_COUNT
  {
    var i :| 0 <= i < |log| && log[i].offset <= x < log[i].End() && log[i].data[x - log[i].offset] == b;
    assert Faithful(v, log[i]);
  }

  lemma {:induction false} FinalOffsetIs(v: SenderView, log: seq<Segment>)
    requires forall i :: 0 <= i < |log| ==> Faithful(v, log[i])
    ensures FinalOffset(log) == if FinArrived(log) then |v.written| else MAX_BYTE_COUNT
  {
    if log != [] {
      var init := log[..|log| - 1];
      FinalOffsetIs(v, init);
      if log[|log| - 1].fin {
        assert Faithful(v, log[|log| - 1]);
      } else if FinArrived(log) {
        var i :| 0 <= i < |log| && log[i].fin;
        assert init[i].fin;
      }
    }
  }

  lemma ReadKeepsInv(p: Pipe, data: seq<byte>, fin: bool)
    requires Inv(p) && Possible(p, Read(data, fin))
    ensures Inv(Next(p, Read(data, fin)))
  {
    forall i | 0 <= i < |data|
      ensures p.readPos + i < p.sender.sent && data[i] == p.sender.written[p.readPos + i] && p.readPos + i + 1 < MAX_BYTE_COUNT
    {
      CoveredWasSent(p.sender, p.log, p.readPos + i, data[i]);
    }
    if data != [] {
      var last := |data| - 1;
      CoveredWasSent(p.sender, p.log, p.readPos + last, data[last]);
    }
    assert p.delivered + data == p.sender.written[..p.readPos + |data|];
  }

  lemma RetransmitKeepsInv(p: Pipe, whole: StreamFrame, pieces: seq<StreamFrame>)
    requires Inv(p) && Possible(p, Retransmit(whole, pieces))
    ensures Inv(Next(p, Retransmit(whole, pieces)))
  {
    forall g | g in ToSegments(pieces)
      ensures Faithful(p.sender, g)
    {
      var i :| 0 <= i < |pieces| && g == ToSegment(pieces[i]);
      FaithfulPieces(p.sender, whole, pieces, i);
    }
  }

  lemma NextKeepsInv(p: Pipe, e: Event)
    requires Inv(p)
    ensures Inv(Next(p, e))
    ensures p.sender.written <= Next(p, e).sender.written && p.delivered <= Next(p, e).delivered
  {
    if Possible(p, e) {
      match e {
        case Write(w) =>
          SenderMoves(p, Next(p, e));
        case Close =>
          SenderMoves(p, Next(p, e));
        case PopFrame(f) =>
          FramePoppedKeepsInv(p.sender, f, AfterPop(p.sender, f));
          SenderMoves(p, Next(p, e));
        case Retransmit(whole, pieces) =>
          RetransmitKeepsInv(p, whole, pieces);
        case Drop(seg) =>
        case Deliver(seg) =>
        case Read(data, fin) =>
          ReadKeepsInv(p, data, fin);
      }
    }
  }

  lemma SenderMoves(p: Pipe, p': Pipe)
    requires Inv(p) && SenderInv(p'.sender)
    requires p.sender.written <= p'.sender.written && p.sender.sent <= p'.sender.sent
    requires p.sender.finSent ==> p'.sender.finSent && p'.sender.written == p.sender.written
    requires p'.log == p.log && p'.readPos == p.readPos && p'.delivered == p.delivered
    requires p'.network <= p'.packed
    requires forall seg :: seg in p'.packed && seg !in p.packed ==> Faithful(p'.sender, seg)
    ensures Inv(p')
  {
    forall seg | Faithful(p.sender, seg)
      ensures Faithful(p'.sender, seg)
    {
      FaithfulMonotone(p.sender, p'.sender, seg);
    }
    assert p.sender.written[..p.readPos] == p'.sender.written[..p.readPos];
  }

  lemma {:induction false} RunKeepsInv(p: Pipe, es: seq<Event>)
    requires Inv(p)
    ensures Inv(Run(p, es))
    ensures p.delivered <= Run(p, es).delivered
    ensures p.sender.finished ==> Run(p, es).sender.finished && Run(p, es).sender.written == p.sender.written
    decreases |es|
  {
    if es != [] {
      NextKeepsInv(p, es[0]);
      RunKeepsInv(Next(p, es[0]), es[1..]);
    }
  }

  // ---------------------------------------------------------------- main results

  /** Whatever the network does, the reader has a prefix of what was written. */
  lemma DeliversPrefix(es: seq<Event>)
    ensures Run(START, es).delivered <= Run(START, es).sender.written
  {
    RunKeepsInv(START, es);
  }

  /**
   After any run, a read reports the end exactly when the FIN has arrived and every written byte
   has been delivered, and it returns data exactly when the next byte has arrived.
   */
  lemma ReportsFinExactly(es: seq<Event>, data: seq<byte>, fin: bool)
    ensures var p := Run(START, es);
      Possible(p, Read(data, fin)) ==>
        && (fin <==> FinArrived(p.log) && p.delivered + data == p.sender.written)
        && (data != [] <==> Covered(p.log, |p.delivered|))
  {
    var p := Run(START, es);
    RunKeepsInv(START, es);
    if Possible(p, Read(data, fin)) {
      FinExactly(p, data, fin);
    }
  }

  lemma FinExactly(p: Pipe, data: seq<byte>, fin: bool)
    requires Inv(p) && Possible(p, Read(data, fin))
    ensures fin <==> FinArrived(p.log) && p.delivered + data == p.sender.written
  {
    ReadKeepsInv(p, data, fin);
    FinalOffsetIs(p.sender, p.log);
    var pos, written := p.readPos + |data|, p.sender.written;
    assert p.delivered + data == written[..pos];
    if p.delivered + data == written {
      assert |p.delivered + data| == |written|;
    }
    if pos == |written| {
      assert written[..pos] == written;
    }
  }

  /** Once every byte has arrived, a read makes progress until all of them are delivered. */
  lemma ReadsMakeProgress(es: seq<Event>, data: seq<byte>, fin: bool)
    ensures var p := Run(START, es);
      && Possible(p, Read(data, fin))
      && (forall x: nat :: x < |p.sender.written| ==> Covered(p.log, x))
      && |p.delivered| < |p.sender.written|
      ==> data != []
  {
    RunKeepsInv(START, es);
  }

  /** Reads that are possible one after the other. */
  ghost predicate Reads(p: Pipe, rs: seq<Event>)
    decreases |rs|
  {
    rs == [] || (rs[0].Read? && Possible(p, rs[0]) && Reads(Next(p, rs[0]), rs[1..]))
  }

  /** Once every byte has arrived, as many reads as there are bytes left deliver all of them. */
  lemma ReadsDeliverAll(es: seq<Event>, rs: seq<Event>)
    ensures var p := Run(START, es);
      && (forall x: nat :: x < |p.sender.written| ==> Covered(p.log, x))
      && Reads(p, rs)
      && |p.delivered| + |rs| >= |p.sender.written|
      ==> Run(p, rs).delivered == p.sender.written
  {
    var p := Run(START, es);
    RunKeepsInv(START, es);
    if (forall x: nat :: x < |p.sender.written| ==> Covered(p.log, x)) && Reads(p, rs) {
      DeliverRest(p, rs);
    }
  }

  lemma {:induction false} DeliverRest(p: Pipe, rs: seq<Event>)
    requires Inv(p) && Reads(p, rs) && forall x: nat :: x < |p.sender.written| ==> Covered(p.log, x)
    ensures |p.delivered| + |rs| >= |p.sender.written| ==> Run(p, rs).delivered == p.sender.written
    decreases |rs|
  {
    if rs == [] {
      assert |p.delivered| == |p.sender.written| ==> p.sender.written[..p.readPos] == p.sender.written;
    } else {
      NextKeepsInv(p, rs[0]);
      DeliverRest(Next(p, rs[0]), rs[1..]);
    }
  }

  /** After the end has been reported nothing is written and nothing more is delivered. */
  lemma EndIsFinal(es: seq<Event>, data: seq<byte>, later: seq<Event>)
    ensures var p := Run(START, es);
      var p' := Run(Next(p, Read(data, true)), later);
      Possible(p, Read(data, true)) ==> p'.delivered == p'.sender.written == p.delivered + data
  {
    var p := Run(START, es);
    RunKeepsInv(START, es);
    if Possible(p, Read(data, true)) {
      FinExactly(p, data, true);
      NextKeepsInv(p, Read(data, true));
      RunKeepsInv(Next(p, Read(data, true)), later);
      var k :| 0 <= k < |p.log| && p.log[k].fin;
      assert Faithful(p.sender, p.log[k]);
    }
  }
}
