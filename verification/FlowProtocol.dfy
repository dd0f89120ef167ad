/**
 Flow control between a sender and a receiver (section 4.1 of RFC 9000). The network keeps
 every frame it was ever given and may deliver each any number of times, in any order or never.
 */
module FlowProtocol {
  import opened Protocol
  import opened FlowControl

  /** The receiver's windows, which the sender learns from the transport parameters. */
  datatype Config = Config(streamInitial: nat, streamMax: nat, connInitial: nat, connMax: nat) {
    /** By `NeverLowersIff`, these are the windows whose limits are never taken back. */
    predicate KeepsCredit() {
      3 * streamInitial / 4 <= streamMax && 3 * connInitial / 4 <= connMax
    }

    predicate Bounded() {
      streamInitial <= streamMax && connInitial <= connMax
    }
  }

  datatype StreamSend = StreamSend(side: SendSide, finSent: bool)

  datatype Message =
    | Data(id: nat, end: nat, fin: bool)
    | MaxData(limit: nat)
    | MaxStreamData(id: nat, limit: nat)

  datatype System = System(
    sendConn: SendSide,
    sending: map<nat, StreamSend>,
    recvConn: ReceiveSide,
    receiving: map<nat, StreamReceive>,
    net: set<Message>,
    error: Option<FlowError>)

  datatype Action =
    | Open(id: nat, paramsKnown: bool)
    | Send(id: nat, n: nat, fin: bool)
    | Cut(m: Message, end: nat)
    | Deliver(m: Message)
    | Consume(id: nat, n: nat)
    | UpdateStream(id: nat, rttKnown: bool, fast: bool)
    | UpdateConn(rttKnown: bool, fast: bool)

  /** The transport parameters carry the initial limit of the connection. */
  function Init(cfg: Config): System {
    System(SendSide(0, 0, 0), map[], New(cfg.connInitial, cfg.connMax), map[], {MaxData(cfg.connInitial)}, None)
  }

  /** The receiver creates a stream when its first frame arrives. */
  function Stream(cfg: Config, receiving: map<nat, StreamReceive>, id: nat): StreamReceive {
    if id in receiving then receiving[id] else StreamReceive(New(cfg.streamInitial, cfg.streamMax), false)
  }

  function Opened(cfg: Config, s: System, id: nat, paramsKnown: bool): System {
    if id in s.sending then s
    else s.(sending := s.sending[id := StreamSend(SendSide(0, if paramsKnown then cfg.streamInitial else 0, 0), false)])
  }

  predicate MaySend(s: System, id: nat, n: nat) {
    id in s.sending && !s.sending[id].finSent
    && n <= Min(SendWindowSize(s.sending[id].side), SendWindowSize(s.sendConn))
  }

  function Sent(s: System, id: nat, n: nat, fin: bool): System {
    if !MaySend(s, id, n) then s
    else
      var end := s.sending[id].side.bytesSent + n;
      s.(sending := s.sending[id := StreamSend(s.sending[id].side.(bytesSent := end), fin)],
         sendConn := s.sendConn.(bytesSent := s.sendConn.bytesSent + n),
         net := s.net + {Data(id, end, fin)})
  }

  /** A retransmission may be cut; only the last piece keeps the FIN. */
  function Pieces(s: System, m: Message, end: nat): System {
    if m in s.net && m.Data? && end <= m.end then s.(net := s.net + {Data(m.id, end, false)}) else s
  }

  function DataArrived(cfg: Config, s: System, id: nat, end: nat, fin: bool): System {
    var r := HighestUpdated(Stream(cfg, s.receiving, id), s.recvConn, end, fin);
    s.(receiving := s.receiving[id := r.stream], recvConn := r.conn, error := r.error)
  }

  function Delivered(cfg: Config, s: System, m: Message): System {
    if m !in s.net then s
    else
      match m
      case Data(id, end, fin) => DataArrived(cfg, s, id, end, fin)
      case MaxData(limit) => s.(sendConn := UpdateSendWindow(s.sendConn, limit))
      case MaxStreamData(id, limit) =>
        if id !in s.sending then s
        else s.(sending := s.sending[id := s.sending[id].(side := UpdateSendWindow(s.sending[id].side, limit))])
  }

  function Consumed(s: System, id: nat, n: nat): System {
    if id in s.receiving && s.receiving[id].side.bytesRead + n <= s.receiving[id].side.highestReceived then
      s.(receiving := s.receiving[id := s.receiving[id].(side := BytesRead(s.receiving[id].side, n))],
         recvConn := BytesRead(s.recvConn, n))
    else s
  }

  function StreamUpdated(s: System, id: nat, rttKnown: bool, fast: bool): System {
    if id !in s.receiving then s
    else
      var (stream, conn) := StreamWindowUpdated(s.receiving[id], s.recvConn, rttKnown, fast);
      var offset := if !stream.final && HasWindowUpdate(s.receiving[id].side) then stream.side.receiveWindow else 0;
      s.(receiving := s.receiving[id := stream], recvConn := conn,
         net := if offset == 0 then s.net else s.net + {MaxStreamData(id, offset)})
  }

  /** Unlike for streams, an update is sent even if there is none. */
  function ConnUpdated(s: System, rttKnown: bool, fast: bool): System {
    var conn := WindowUpdated(s.recvConn, rttKnown, fast);
    s.(recvConn := conn, net := s.net + {MaxData(if HasWindowUpdate(s.recvConn) then conn.receiveWindow else 0)})
  }

  function Next(cfg: Config, s: System, a: Action): System {
    match a
    case Open(id, paramsKnown) => Opened(cfg, s, id, paramsKnown)
    case Send(id, n, fin) => Sent(s, id, n, fin)
    case Cut(m, end) => Pieces(s, m, end)
    case Deliver(m) => Delivered(cfg, s, m)
    case Consume(id, n) => Consumed(s, id, n)
    case UpdateStream(id, rttKnown, fast) => StreamUpdated(s, id, rttKnown, fast)
    case UpdateConn(rttKnown, fast) => ConnUpdated(s, rttKnown, fast)
  }

  function RunAll(cfg: Config, s: System, actions: seq<Action>): System
    decreases |actions|
  {
    if actions == [] then s else RunAll(cfg, Next(cfg, s, actions[0]), actions[1..])
  }

  // ---------------------------------------------------------------- sums over streams

  ghost function Sum<S>(m: map<nat, S>, f: S -> nat): nat
    decreases |m|
  {
    if m == map[] then 0
    else
      var id :| id in m;
      f(m[id]) + Sum(m - {id}, f)
  }

  lemma {:induction false} SumRemove<S>(m: map<nat, S>, f: S -> nat, id: nat)
    requires id in m
    ensures Sum(m, f) == f(m[id]) + Sum(m - {id}, f)
    decreases |m|
  {
    var first :| first in m && Sum(m, f) == f(m[first]) + Sum(m - {first}, f);
    if first != id {
      SumRemove(m - {first}, f, id);
      SumRemove(m - {id}, f, first);
      assert m - {first} - {id} == m - {id} - {first};
    }
  }

  lemma SumUpdate<S>(m: map<nat, S>, f: S -> nat, id: nat, s: S)
    ensures Sum(m[id := s], f) == Sum(m, f) + f(s) - (if id in m then f(m[id]) else 0)
  {
    SumRemove(m[id := s], f, id);
    if id in m {
      SumRemove(m, f, id);
      assert m[id := s] - {id} == m - {id};
    } else {
      assert m[id := s] - {id} == m;
    }
  }

  lemma {:induction false} SumAtMost<S, T>(m: map<nat, S>, f: S -> nat, m': map<nat, T>, f': T -> nat)
    requires forall id :: id in m ==> id in m' && f(m[id]) <= f'(m'[id])
    ensures Sum(m, f) <= Sum(m', f')
    decreases |m|
  {
    if m != map[] {
      var id :| id in m;
      SumRemove(m, f, id);
      SumRemove(m', f', id);
      SumAtMost(m - {id}, f, m' - {id}, f');
    }
  }

  // ---------------------------------------------------------------- invariant

  const SENT: StreamSend -> nat := (s: StreamSend) => s.side.bytesSent
  const RECEIVED: StreamReceive -> nat := (s: StreamReceive) => s.side.highestReceived
  const READ: StreamReceive -> nat := (s: StreamReceive) => s.side.bytesRead

  /** The sender stays within its credit, and the connection counts the bytes of all streams. */
  ghost predicate SenderInv(conn: SendSide, sending: map<nat, StreamSend>) {
    && conn.bytesSent <= conn.sendWindow
    && conn.bytesSent == Sum(sending, SENT)
    && forall id :: id in sending ==> sending[id].side.bytesSent <= sending[id].side.sendWindow
  }

  /** Frames hold only what was sent, and a FIN ends the stream. */
  ghost predicate DataInv(sending: map<nat, StreamSend>, net: set<Message>) {
    forall m :: m in net && m.Data? ==>
      && m.id in sending
      && m.end <= sending[m.id].side.bytesSent
      && (m.fin ==> sending[m.id].finSent && m.end == sending[m.id].side.bytesSent)
  }

  ghost predicate StreamInv(cfg: Config, r: StreamReceive, s: StreamSend) {
    && KeepsCredit(r.side)
    && r.side.maxWindowSize == cfg.streamMax
    && (cfg.Bounded() ==> Within(r.side))
    && r.side.highestReceived <= s.side.bytesSent
    && (r.final ==> s.finSent && r.side.highestReceived == s.side.bytesSent)
  }

  ghost predicate StreamsInv(cfg: Config, receiving: map<nat, StreamReceive>, sending: map<nat, StreamSend>) {
    forall id :: id in receiving ==> id in sending && StreamInv(cfg, receiving[id], sending[id])
  }

  /** The connection counts what all streams received and read. */
  ghost predicate ReceiverInv(cfg: Config, conn: ReceiveSide, receiving: map<nat, StreamReceive>) {
    && KeepsCredit(conn)
    && conn.maxWindowSize == cfg.connMax
    && (cfg.Bounded() ==> Within(conn))
    && conn.highestReceived == Sum(receiving, RECEIVED)
    && conn.bytesRead == Sum(receiving, READ)
  }

  /** No credit is held or in flight beyond what the receiver grants. */
  ghost predicate StreamCreditInv(cfg: Config, sending: map<nat, StreamSend>, receiving: map<nat, StreamReceive>, net: set<Message>) {
    && (forall id :: id in sending ==> sending[id].side.sendWindow <= Stream(cfg, receiving, id).side.receiveWindow)
    && (forall m :: m in net && m.MaxStreamData? ==> m.limit <= Stream(cfg, receiving, m.id).side.receiveWindow)
  }

  ghost predicate ConnCreditInv(sendConn: SendSide, recvConn: ReceiveSide, net: set<Message>) {
    && sendConn.sendWindow <= recvConn.receiveWindow
    && (forall m :: m in net && m.MaxData? ==> m.limit <= recvConn.receiveWindow)
  }

  ghost predicate Inv(cfg: Config, s: System) {
    && s.error.None?
    && SenderInv(s.sendConn, s.sending)
    && DataInv(s.sending, s.net)
    && StreamsInv(cfg, s.receiving, s.sending)
    && ReceiverInv(cfg, s.recvConn, s.receiving)
    && StreamCreditInv(cfg, s.sending, s.receiving, s.net)
    && ConnCreditInv(s.sendConn, s.recvConn, s.net)
  }

  /** Neither limit is lowered. */
  ghost predicate LimitsGrow(cfg: Config, s: System, s': System) {
    && s.recvConn.receiveWindow <= s'.recvConn.receiveWindow
    && forall id :: Stream(cfg, s.receiving, id).side.receiveWindow <= Stream(cfg, s'.receiving, id).side.receiveWindow
  }

  lemma InitInv(cfg: Config)
    requires cfg.KeepsCredit()
    ensures Inv(cfg, Init(cfg))
  {
  }

  lemma OpenedInv(cfg: Config, s: System, id: nat, paramsKnown: bool)
    requires Inv(cfg, s)
    ensures Inv(cfg, Opened(cfg, s, id, paramsKnown)) && LimitsGrow(cfg, s, Opened(cfg, s, id, paramsKnown))
  {
    if id !in s.sending {
      SumUpdate(s.sending, SENT, id, Opened(cfg, s, id, paramsKnown).sending[id]);
      assert id !in s.receiving;
    }
  }

  lemma SentInv(cfg: Config, s: System, id: nat, n: nat, fin: bool)
    requires Inv(cfg, s)
    ensures Inv(cfg, Sent(s, id, n, fin)) && LimitsGrow(cfg, s, Sent(s, id, n, fin))
  {
    if MaySend(s, id, n) {
      SumUpdate(s.sending, SENT, id, Sent(s, id, n, fin).sending[id]);
    }
  }

  /** All bytes received so far were sent, on each stream, so in total too. */
  lemma ReceivedWasSent(cfg: Config, receiving: map<nat, StreamReceive>, sending: map<nat, StreamSend>)
    requires StreamsInv(cfg, receiving, sending)
    ensures Sum(receiving, RECEIVED) <= Sum(sending, SENT)
  {
    SumAtMost(receiving, RECEIVED, sending, SENT);
  }

  /** One frame that was really sent: no error at the stream. */
  lemma FrameAccepted(cfg: Config, r: StreamReceive, conn: ReceiveSide, s: StreamSend, end: nat, fin: bool)
    requires StreamInv(cfg, r, s) && end <= s.side.bytesSent <= s.side.sendWindow <= r.side.receiveWindow
    requires fin ==> s.finSent && end == s.side.bytesSent
    ensures var h := HighestUpdated(r, conn, end, fin);
      && StreamInv(cfg, h.stream, s)
      && h.stream.side == r.side.(highestReceived := Max(r.side.highestReceived, end))
      && h.conn == conn.(highestReceived := conn.highestReceived + h.stream.side.highestReceived - r.side.highestReceived)
      && (h.error.None? <== h.conn.highestReceived <= conn.receiveWindow)
  {
  }

  /** The totals of the connection follow those of a changed stream. */
  lemma TotalsFollow(cfg: Config, receiving: map<nat, StreamReceive>, conn: ReceiveSide, id: nat, r: StreamReceive, conn': ReceiveSide)
    requires ReceiverInv(cfg, conn, receiving)
    requires KeepsCredit(conn') && conn'.maxWindowSize == cfg.connMax && (cfg.Bounded() ==> Within(conn'))
    requires var was := Stream(cfg, receiving, id).side;
      && conn'.highestReceived == conn.highestReceived + r.side.highestReceived - was.highestReceived
      && conn'.bytesRead == conn.bytesRead + r.side.bytesRead - was.bytesRead
    ensures ReceiverInv(cfg, conn', receiving[id := r])
  {
    SumUpdate(receiving, RECEIVED, id, r);
    SumUpdate(receiving, READ, id, r);
  }

  /** The receiver changes one stream and the connection, and may grant the limit of that stream. */
  lemma ReceiverChanged(cfg: Config, s: System, id: nat, r: StreamReceive, conn: ReceiveSide, net: set<Message>)
    requires Inv(cfg, s) && id in s.sending && StreamInv(cfg, r, s.sending[id])
    requires Stream(cfg, s.receiving, id).side.receiveWindow <= r.side.receiveWindow
    requires s.recvConn.receiveWindow <= conn.receiveWindow
    requires ReceiverInv(cfg, conn, s.receiving[id := r])
    requires net == s.net || net == s.net + {MaxStreamData(id, r.side.receiveWindow)}
    ensures var s' := s.(receiving := s.receiving[id := r], recvConn := conn, net := net);
      Inv(cfg, s') && LimitsGrow(cfg, s, s')
  {
    var receiving := s.receiving[id := r];
    assert forall i :: Stream(cfg, s.receiving, i).side.receiveWindow <= Stream(cfg, receiving, i).side.receiveWindow;
    assert DataInv(s.sending, net);
  }

  lemma DataArrivedInv(cfg: Config, s: System, id: nat, end: nat, fin: bool)
    requires cfg.KeepsCredit() && Inv(cfg, s) && Data(id, end, fin) in s.net
    ensures Inv(cfg, DataArrived(cfg, s, id, end, fin)) && LimitsGrow(cfg, s, DataArrived(cfg, s, id, end, fin))
  {
    var r := Stream(cfg, s.receiving, id);
    assert StreamInv(cfg, r, s.sending[id]);
    FrameAccepted(cfg, r, s.recvConn, s.sending[id], end, fin);
    var h := HighestUpdated(r, s.recvConn, end, fin);
    ConnectionAccepts(cfg, s, id, h.stream, h.conn);
    TotalsFollow(cfg, s.receiving, s.recvConn, id, h.stream, h.conn);
    ReceiverChanged(cfg, s, id, h.stream, h.conn, s.net);
    assert h.error.None?;
  }

  /** The connection stays within its limit, because all that arrived was sent within it. */
  lemma ConnectionAccepts(cfg: Config, s: System, id: nat, r: StreamReceive, conn: ReceiveSide)
    requires Inv(cfg, s) && id in s.sending && StreamInv(cfg, r, s.sending[id])
    requires r.side.highestReceived >= Stream(cfg, s.receiving, id).side.highestReceived
    requires conn == s.recvConn.(highestReceived :=
      s.recvConn.highestReceived + (r.side.highestReceived - Stream(cfg, s.receiving, id).side.highestReceived))
    ensures KeepsCredit(conn) && (cfg.Bounded() ==> Within(conn))
  {
    SumUpdate(s.receiving, RECEIVED, id, r);
    ReceivedWasSent(cfg, s.receiving[id := r], s.sending);
  }

  lemma DeliveredInv(cfg: Config, s: System, m: Message)
    requires cfg.KeepsCredit() && Inv(cfg, s)
    ensures Inv(cfg, Delivered(cfg, s, m)) && LimitsGrow(cfg, s, Delivered(cfg, s, m))
  {
    if m in s.net && m.Data? {
      DataArrivedInv(cfg, s, m.id, m.end, m.fin);
    } else if m in s.net && m.MaxStreamData? && m.id in s.sending {
      SumUpdate(s.sending, SENT, m.id, Delivered(cfg, s, m).sending[m.id]);
    }
  }

  lemma ConsumedInv(cfg: Config, s: System, id: nat, n: nat)
    requires Inv(cfg, s)
    ensures Inv(cfg, Consumed(s, id, n)) && LimitsGrow(cfg, s, Consumed(s, id, n))
  {
    if id in s.receiving && s.receiving[id].side.bytesRead + n <= s.receiving[id].side.highestReceived {
      var r := s.receiving[id].(side := BytesRead(s.receiving[id].side, n));
      ReadWasReceived(cfg, s, id, r);
      TotalsFollow(cfg, s.receiving, s.recvConn, id, r, BytesRead(s.recvConn, n));
      ReceiverChanged(cfg, s, id, r, BytesRead(s.recvConn, n), s.net);
    }
  }

  /** All bytes read were received, on each stream, so in total too. */
  lemma ReadWasReceived(cfg: Config, s: System, id: nat, r: StreamReceive)
    requires Inv(cfg, s) && id in s.receiving && r.side.bytesRead <= r.side.highestReceived == s.receiving[id].side.highestReceived
    ensures s.recvConn.bytesRead + r.side.bytesRead - s.receiving[id].side.bytesRead <= s.recvConn.highestReceived
  {
    SumUpdate(s.receiving, RECEIVED, id, r);
    SumUpdate(s.receiving, READ, id, r);
    SumAtMost(s.receiving[id := r], READ, s.receiving[id := r], RECEIVED);
  }

  lemma UpdateKeepsStream(cfg: Config, r: StreamReceive, s: StreamSend, rttKnown: bool, fast: bool)
    requires StreamInv(cfg, r, s)
    ensures StreamInv(cfg, r.(side := WindowUpdated(r.side, rttKnown, fast)), s)
    ensures r.side.receiveWindow <= WindowUpdated(r.side, rttKnown, fast).receiveWindow
  {
    StepKeepsCredit(r.side, Update(rttKnown, fast));
  }

  lemma EnsureKeepsConn(cfg: Config, conn: ReceiveSide, receiving: map<nat, StreamReceive>, inc: nat)
    requires ReceiverInv(cfg, conn, receiving)
    ensures ReceiverInv(cfg, MinimumEnsured(conn, inc), receiving)
  {
    StepKeepsCredit(conn, Ensure(inc));
  }

  lemma StreamUpdatedInv(cfg: Config, s: System, id: nat, rttKnown: bool, fast: bool)
    requires Inv(cfg, s)
    ensures Inv(cfg, StreamUpdated(s, id, rttKnown, fast)) && LimitsGrow(cfg, s, StreamUpdated(s, id, rttKnown, fast))
  {
    if id in s.receiving {
      var (r, conn) := StreamWindowUpdated(s.receiving[id], s.recvConn, rttKnown, fast);
      UpdateKeepsStream(cfg, s.receiving[id], s.sending[id], rttKnown, fast);
      TotalsFollow(cfg, s.receiving, s.recvConn, id, r, s.recvConn);
      EnsureKeepsConn(cfg, s.recvConn, s.receiving[id := r], 3 * r.side.windowSize / 2);
      ReceiverChanged(cfg, s, id, r, conn, StreamUpdated(s, id, rttKnown, fast).net);
    }
  }

  lemma ConnUpdatedInv(cfg: Config, s: System, rttKnown: bool, fast: bool)
    requires Inv(cfg, s)
    ensures Inv(cfg, ConnUpdated(s, rttKnown, fast)) && LimitsGrow(cfg, s, ConnUpdated(s, rttKnown, fast))
  {
    StepKeepsCredit(s.recvConn, Update(rttKnown, fast));
  }

  lemma NextInv(cfg: Config, s: System, a: Action)
    requires cfg.KeepsCredit() && Inv(cfg, s)
    ensures Inv(cfg, Next(cfg, s, a)) && LimitsGrow(cfg, s, Next(cfg, s, a))
  {
    match a
    case Open(id, paramsKnown) => OpenedInv(cfg, s, id, paramsKnown);
    case Send(id, n, fin) => SentInv(cfg, s, id, n, fin);
    case Cut(m, end) =>
    case Deliver(m) => DeliveredInv(cfg, s, m);
    case Consume(id, n) => ConsumedInv(cfg, s, id, n);
    case UpdateStream(id, rttKnown, fast) => StreamUpdatedInv(cfg, s, id, rttKnown, fast);
    case UpdateConn(rttKnown, fast) => ConnUpdatedInv(cfg, s, rttKnown, fast);
  }

  lemma {:induction false} RunInv(cfg: Config, s: System, actions: seq<Action>)
    requires cfg.KeepsCredit() && Inv(cfg, s)
    ensures Inv(cfg, RunAll(cfg, s, actions)) && LimitsGrow(cfg, s, RunAll(cfg, s, actions))
    decreases |actions|
  {
    if actions != [] {
      NextInv(cfg, s, actions[0]);
      RunInv(cfg, Next(cfg, s, actions[0]), actions[1..]);
    }
  }

  // ---------------------------------------------------------------- main results

  /** No run raises a flow-control or final-offset error. */
  lemma NoFlowControlError(cfg: Config, actions: seq<Action>)
    requires cfg.KeepsCredit()
    ensures RunAll(cfg, Init(cfg), actions).error.None?
  {
    InitInv(cfg);
    RunInv(cfg, Init(cfg), actions);
  }

  /** In every run, each stream and the connection send within credit that the receiver granted, and the totals are the sums over the streams. */
  lemma CreditIsRespected(cfg: Config, actions: seq<Action>)
    requires cfg.KeepsCredit()
    ensures var s := RunAll(cfg, Init(cfg), actions);
      && s.sendConn.bytesSent <= s.sendConn.sendWindow <= s.recvConn.receiveWindow
      && (forall id :: id in s.sending ==>
            s.sending[id].side.bytesSent <= s.sending[id].side.sendWindow <= Stream(cfg, s.receiving, id).side.receiveWindow)
      && s.sendConn.bytesSent == Sum(s.sending, SENT)
      && s.recvConn.highestReceived == Sum(s.receiving, RECEIVED)
      && s.recvConn.bytesRead == Sum(s.receiving, READ)
  {
    InitInv(cfg);
    RunInv(cfg, Init(cfg), actions);
  }

  /** The rest of a run never lowers a limit. */
  lemma {:induction false} LimitsNeverDecrease(cfg: Config, before: seq<Action>, after: seq<Action>)
    requires cfg.KeepsCredit()
    ensures LimitsGrow(cfg, RunAll(cfg, Init(cfg), before), RunAll(cfg, RunAll(cfg, Init(cfg), before), after))
  {
    InitInv(cfg);
    RunInv(cfg, Init(cfg), before);
    RunInv(cfg, RunAll(cfg, Init(cfg), before), after);
  }

  /** With initial windows within their maximum, every limit stays within it of what was read. */
  lemma LimitsBounded(cfg: Config, actions: seq<Action>)
    requires cfg.Bounded()
    ensures var s := RunAll(cfg, Init(cfg), actions);
      && s.recvConn.receiveWindow <= s.recvConn.bytesRead + cfg.connMax
      && forall id :: id in s.receiving ==> s.receiving[id].side.receiveWindow <= s.receiving[id].side.bytesRead + cfg.streamMax
  {
    InitInv(cfg);
    RunInv(cfg, Init(cfg), actions);
  }
}
