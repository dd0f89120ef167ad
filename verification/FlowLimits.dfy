/**
 For which windows no run of the flow control protocol ends in an error. Where they are not met,
 a run is given in which a sender that keeps to its credit is refused.
 */
module FlowLimits {
  import opened Protocol
  import opened FlowControl
  import opened FlowProtocol

  // ---------------------------------------------------------------- windows through which nothing flows

  /** One kind of credit is zero for good, so that only empty frames are sent. */
  ghost predicate Silent(cfg: Config, s: System) {
    && s.error.None?
    && s.sendConn.bytesSent == 0
    && s.recvConn == New(cfg.connInitial, cfg.connMax)
    && (forall id :: id in s.sending ==> s.sending[id].side.bytesSent == 0)
    && (forall id :: id in s.receiving ==> s.receiving[id].side == New(cfg.streamInitial, cfg.streamMax))
    && (forall m :: m in s.net && m.Data? ==> m.end == 0)
    && (cfg.connInitial == 0 ==> s.sendConn.sendWindow == 0 && forall m :: m in s.net && m.MaxData? ==> m.limit == 0)
    && (cfg.streamInitial == 0 ==>
          && (forall id :: id in s.sending ==> s.sending[id].side.sendWindow == 0)
          && (forall m :: m in s.net && m.MaxStreamData? ==> m.limit == 0))
  }

  lemma NextStaysSilent(cfg: Config, s: System, a: Action)
    requires Silent(cfg, s) && (cfg.connInitial == 0 || cfg.streamInitial == 0)
    ensures Silent(cfg, Next(cfg, s, a))
  {
  }

  lemma {:induction false} RunStaysSilent(cfg: Config, s: System, actions: seq<Action>)
    requires Silent(cfg, s) && (cfg.connInitial == 0 || cfg.streamInitial == 0)
    ensures Silent(cfg, RunAll(cfg, s, actions))
    decreases |actions|
  {
    if actions != [] {
      NextStaysSilent(cfg, s, actions[0]);
      RunStaysSilent(cfg, Next(cfg, s, actions[0]), actions[1..]);
    }
  }

  // ---------------------------------------------------------------- reaching a state

  ghost predicate Reachable(cfg: Config, s: System) {
    exists actions: seq<Action> :: RunAll(cfg, Init(cfg), actions) == s
  }

  lemma {:induction false} RunAppend(cfg: Config, s: System, a: seq<Action>, b: seq<Action>)
    ensures RunAll(cfg, s, a + b) == RunAll(cfg, RunAll(cfg, s, a), b)
    decreases |a|
  {
    if a == [] {
      assert a + b == b;
    } else {
      assert (a + b)[1..] == a[1..] + b;
      RunAppend(cfg, Next(cfg, s, a[0]), a[1..], b);
    }
  }

  lemma ReachNext(cfg: Config, s: System, a: Action)
    requires Reachable(cfg, s)
    ensures Reachable(cfg, Next(cfg, s, a))
  {
    var actions: seq<Action> :| RunAll(cfg, Init(cfg), actions) == s;
    RunAppend(cfg, Init(cfg), actions, [a]);
  }

  lemma ReachInit(cfg: Config)
    ensures Reachable(cfg, Init(cfg))
  {
    var none: seq<Action> := [];
    assert RunAll(cfg, Init(cfg), none) == Init(cfg);
  }

  /** Every byte sent on a stream, and on the connection, has been read. */
  predicate CaughtUp(sent: SendSide, r: ReceiveSide, b: nat) {
    sent.bytesSent == r.bytesRead == r.highestReceived == b
  }

  // ---------------------------------------------------------------- a stream window that shrinks

  /** Stream 0 is caught up at `b` bytes; the connection is too, and its window has not changed. */
  ghost predicate OneStream(cfg: Config, s: System, b: nat, limit: nat, r: ReceiveSide) {
    && s.error.None?
    && 0 in s.sending && s.sending[0] == StreamSend(SendSide(b, limit, 0), false)
    && Stream(cfg, s.receiving, 0) == StreamReceive(r, false)
    && (b > 0 ==> 0 in s.receiving)
    && CaughtUp(s.sending[0].side, r, b)
    && CaughtUp(s.sendConn, s.recvConn, b)
    && b <= s.recvConn.receiveWindow == s.sendConn.sendWindow
    && s.recvConn.windowSize == cfg.connInitial
  }

  lemma OpenStreamZero(cfg: Config) returns (s: System)
    ensures Reachable(cfg, s) && OneStream(cfg, s, 0, cfg.streamInitial, New(cfg.streamInitial, cfg.streamMax))
  {
    ReachInit(cfg);
    s := Next(cfg, Init(cfg), Deliver(MaxData(cfg.connInitial)));
    ReachNext(cfg, Init(cfg), Deliver(MaxData(cfg.connInitial)));
    ReachNext(cfg, s, Open(0, true));
    s := Next(cfg, s, Open(0, true));
  }

  /** The connection's credit is refreshed, without auto-tuning. */
  lemma RefreshConn(cfg: Config, s: System, b: nat, limit: nat, r: ReceiveSide) returns (s': System)
    requires cfg.connInitial > 0 && Reachable(cfg, s) && OneStream(cfg, s, b, limit, r)
    ensures Reachable(cfg, s') && OneStream(cfg, s', b, limit, r) && s'.recvConn.receiveWindow > b
  {
    var s1 := Next(cfg, s, UpdateConn(false, false));
    ReachNext(cfg, s, UpdateConn(false, false));
    var m := MaxData(if HasWindowUpdate(s.recvConn) then s1.recvConn.receiveWindow else 0);
    ReachNext(cfg, s1, Deliver(m));
    s' := Next(cfg, s1, Deliver(m));
  }

  /** One more byte is sent. */
  lemma SendByte(cfg: Config, s: System, b: nat, limit: nat, r: ReceiveSide) returns (s': System)
    requires cfg.connInitial > 0 && Reachable(cfg, s) && OneStream(cfg, s, b, limit, r) && b < limit
    ensures Reachable(cfg, s') && Data(0, b + 1, false) in s'.net && s'.error.None?
    ensures 0 in s'.sending && s'.sending[0] == StreamSend(SendSide(b + 1, limit, 0), false)
    ensures Stream(cfg, s'.receiving, 0) == StreamReceive(r, false)
    ensures s'.sendConn.bytesSent == b + 1 && CaughtUp(s'.sendConn.(bytesSent := b), s'.recvConn, b)
    ensures b < s'.recvConn.receiveWindow == s'.sendConn.sendWindow && s'.recvConn.windowSize == cfg.connInitial
  {
    s' := RefreshConn(cfg, s, b, limit, r);
    ReachNext(cfg, s', Send(0, 1, false));
    s' := Next(cfg, s', Send(0, 1, false));
  }

  /** One more byte is sent, received and read. */
  lemma PassByte(cfg: Config, s: System, b: nat, limit: nat, r: ReceiveSide) returns (s': System)
    requires cfg.connInitial > 0 && Reachable(cfg, s) && OneStream(cfg, s, b, limit, r)
    requires b < limit && b < r.receiveWindow && (b == 0 ==> r.epochStart == 0)
    ensures Reachable(cfg, s') && OneStream(cfg, s', b + 1, limit, r.(bytesRead := b + 1, highestReceived := b + 1))
  {
    var s1 := SendByte(cfg, s, b, limit, r);
    var s2 := Next(cfg, s1, Deliver(Data(0, b + 1, false)));
    ReachNext(cfg, s1, Deliver(Data(0, b + 1, false)));
    ReachNext(cfg, s2, Consume(0, 1));
    s' := Next(cfg, s2, Consume(0, 1));
  }

  lemma {:induction false} PassBytes(cfg: Config, s: System, b: nat, limit: nat, r: ReceiveSide, n: nat) returns (s': System)
    requires cfg.connInitial > 0 && Reachable(cfg, s) && OneStream(cfg, s, b, limit, r)
    requires b + n <= limit && b + n <= r.receiveWindow && (b == 0 ==> r.epochStart == 0)
    ensures Reachable(cfg, s') && OneStream(cfg, s', b + n, limit, r.(bytesRead := b + n, highestReceived := b + n))
    decreases n
  {
    if n == 0 {
      s' := s;
    } else {
      s' := PassByte(cfg, s, b, limit, r);
      s' := PassBytes(cfg, s', b + 1, limit, r.(bytesRead := b + 1, highestReceived := b + 1), n - 1);
    }
  }

  /** An update without auto-tuning raises the limit of the stream, and the sender learns it. */
  lemma RaiseStream(cfg: Config, s: System, b: nat, limit: nat, r: ReceiveSide) returns (s': System)
    requires Reachable(cfg, s) && OneStream(cfg, s, b, limit, r)
    requires b > 0 && HasWindowUpdate(r) && limit <= b + r.windowSize && r.windowSize > 0
    ensures Reachable(cfg, s') && OneStream(cfg, s', b, b + r.windowSize, r.(receiveWindow := b + r.windowSize))
  {
    var s1 := Next(cfg, s, UpdateStream(0, false, false));
    ReachNext(cfg, s, UpdateStream(0, false, false));
    var m := MaxStreamData(0, b + r.windowSize);
    ReachNext(cfg, s1, Deliver(m));
    s' := Next(cfg, s1, Deliver(m));
  }

  /** Auto-tuning cuts the window to its maximum, and with it the limit. */
  lemma LowerStream(cfg: Config, s: System, b: nat, limit: nat, r: ReceiveSide) returns (s': System)
    requires Reachable(cfg, s) && OneStream(cfg, s, b, limit, r)
    requires b > 0 && HasWindowUpdate(r) && b - r.epochStart > r.windowSize / 2 && r.maxWindowSize < r.windowSize
    ensures Reachable(cfg, s') && s' == Next(cfg, s, UpdateStream(0, true, true))
    ensures OneStream(cfg, s', b, limit, r.(receiveWindow := b + r.maxWindowSize, windowSize := r.maxWindowSize, epochStart := b))
  {
    ReachNext(cfg, s, UpdateStream(0, true, true));
    s' := Next(cfg, s, UpdateStream(0, true, true));
  }

  /** The sender uses credit that the receiver has taken back. */
  lemma OverrunStream(cfg: Config, s: System, b: nat, limit: nat, r: ReceiveSide) returns (s': System)
    requires cfg.connInitial > 0 && Reachable(cfg, s) && OneStream(cfg, s, b, limit, r)
    requires b == r.receiveWindow < limit
    ensures Reachable(cfg, s') && s'.error == Some(TooMuchData)
  {
    var s1 := SendByte(cfg, s, b, limit, r);
    ReachNext(cfg, s1, Deliver(Data(0, b + 1, false)));
    s' := Next(cfg, s1, Deliver(Data(0, b + 1, false)));
  }

  /** Half the window is used before the first update and a quarter after it. */
  lemma StreamBeforeLowering(cfg: Config, w: nat, b1: nat, b2: nat) returns (s: System)
    requires 3 * w / 4 > cfg.streamMax && cfg.connInitial > 0
    requires w == cfg.streamInitial && b1 == w / 2 && b2 == b1 + w - 3 * w / 4
    ensures Reachable(cfg, s) && OneStream(cfg, s, b2, b1 + w, ReceiveSide(b2, b2, b1 + w, w, cfg.streamMax, 0))
  {
    var max := cfg.streamMax;
    s := OpenStreamZero(cfg);
    s := PassBytes(cfg, s, 0, w, New(w, max), b1);
    s := RaiseStream(cfg, s, b1, w, ReceiveSide(b1, b1, w, w, max, 0));
    s := PassBytes(cfg, s, b1, b1 + w, ReceiveSide(b1, b1, b1 + w, w, max, 0), b2 - b1);
  }

  lemma StreamWindowBreaks(cfg: Config) returns (s: System)
    requires 3 * cfg.streamInitial / 4 > cfg.streamMax && cfg.connInitial > 0
    ensures Reachable(cfg, s) && s.error == Some(TooMuchData)
  {
    var w, max := cfg.streamInitial, cfg.streamMax;
    var b1, b2 := w / 2, w / 2 + w - 3 * w / 4;
    s := StreamBeforeLowering(cfg, w, b1, b2);
    s := LowerStream(cfg, s, b2, b1 + w, ReceiveSide(b2, b2, b1 + w, w, max, 0));
    s := PassBytes(cfg, s, b2, b1 + w, ReceiveSide(b2, b2, b2 + max, max, max, b2), max);
    s := OverrunStream(cfg, s, b2 + max, b1 + w, ReceiveSide(b2 + max, b2 + max, b2 + max, max, max, b2));
  }

  // ---------------------------------------------------------------- a connection window that shrinks

  /** Each of `b` streams has carried one byte; the connection is caught up. */
  ghost predicate ManyStreams(s: System, b: nat, limit: nat, r: ReceiveSide) {
    && s.error.None?
    && (forall id :: id >= b ==> id !in s.sending && id !in s.receiving)
    && s.sendConn == SendSide(b, limit, 0)
    && s.recvConn == r
    && CaughtUp(s.sendConn, r, b)
  }

  lemma LearnLimit(cfg: Config) returns (s: System)
    ensures Reachable(cfg, s) && ManyStreams(s, 0, cfg.connInitial, New(cfg.connInitial, cfg.connMax))
  {
    ReachInit(cfg);
    ReachNext(cfg, Init(cfg), Deliver(MaxData(cfg.connInitial)));
    s := Next(cfg, Init(cfg), Deliver(MaxData(cfg.connInitial)));
  }

  /** A new stream sends one byte. */
  lemma SendOnNewStream(cfg: Config, s: System, b: nat, limit: nat, r: ReceiveSide) returns (s': System)
    requires cfg.streamInitial > 0 && Reachable(cfg, s) && ManyStreams(s, b, limit, r) && b < limit
    ensures Reachable(cfg, s') && Data(b, 1, false) in s'.net && s'.error.None?
    ensures forall id :: id > b ==> id !in s'.sending && id !in s'.receiving
    ensures b !in s'.receiving && s'.sendConn == SendSide(b + 1, limit, 0) && s'.recvConn == r
  {
    var s1 := Next(cfg, s, Open(b, true));
    ReachNext(cfg, s, Open(b, true));
    ReachNext(cfg, s1, Send(b, 1, false));
    s' := Next(cfg, s1, Send(b, 1, false));
  }

  lemma PassOnNewStream(cfg: Config, s: System, b: nat, limit: nat, r: ReceiveSide) returns (s': System)
    requires cfg.streamInitial > 0 && Reachable(cfg, s) && ManyStreams(s, b, limit, r)
    requires b < limit && b < r.receiveWindow && (b == 0 ==> r.epochStart == 0)
    ensures Reachable(cfg, s') && ManyStreams(s', b + 1, limit, r.(bytesRead := b + 1, highestReceived := b + 1))
  {
    var s1 := SendOnNewStream(cfg, s, b, limit, r);
    var s2 := Next(cfg, s1, Deliver(Data(b, 1, false)));
    ReachNext(cfg, s1, Deliver(Data(b, 1, false)));
    ReachNext(cfg, s2, Consume(b, 1));
    s' := Next(cfg, s2, Consume(b, 1));
  }

  lemma {:induction false} PassOnNewStreams(cfg: Config, s: System, b: nat, limit: nat, r: ReceiveSide, n: nat) returns (s': System)
    requires cfg.streamInitial > 0 && Reachable(cfg, s) && ManyStreams(s, b, limit, r)
    requires b + n <= limit && b + n <= r.receiveWindow && (b == 0 ==> r.epochStart == 0)
    ensures Reachable(cfg, s') && ManyStreams(s', b + n, limit, r.(bytesRead := b + n, highestReceived := b + n))
    decreases n
  {
    if n == 0 {
      s' := s;
    } else {
      s' := PassOnNewStream(cfg, s, b, limit, r);
      s' := PassOnNewStreams(cfg, s', b + 1, limit, r.(bytesRead := b + 1, highestReceived := b + 1), n - 1);
    }
  }

  lemma RaiseConn(cfg: Config, s: System, b: nat, limit: nat, r: ReceiveSide) returns (s': System)
    requires Reachable(cfg, s) && ManyStreams(s, b, limit, r) && HasWindowUpdate(r) && limit <= b + r.windowSize
    ensures Reachable(cfg, s') && ManyStreams(s', b, b + r.windowSize, r.(receiveWindow := b + r.windowSize))
  {
    var s1 := Next(cfg, s, UpdateConn(false, false));
    ReachNext(cfg, s, UpdateConn(false, false));
    ReachNext(cfg, s1, Deliver(MaxData(b + r.windowSize)));
    s' := Next(cfg, s1, Deliver(MaxData(b + r.windowSize)));
  }

  lemma LowerConn(cfg: Config, s: System, b: nat, limit: nat, r: ReceiveSide) returns (s': System)
    requires Reachable(cfg, s) && ManyStreams(s, b, limit, r)
    requires HasWindowUpdate(r) && b - r.epochStart > r.windowSize / 2 && r.maxWindowSize < r.windowSize
    ensures Reachable(cfg, s') && s' == Next(cfg, s, UpdateConn(true, true))
    ensures ManyStreams(s', b, limit, r.(receiveWindow := b + r.maxWindowSize, windowSize := r.maxWindowSize, epochStart := b))
  {
    ReachNext(cfg, s, UpdateConn(true, true));
    s' := Next(cfg, s, UpdateConn(true, true));
  }

  lemma OverrunConn(cfg: Config, s: System, b: nat, limit: nat, r: ReceiveSide) returns (s': System)
    requires cfg.streamInitial > 0 && Reachable(cfg, s) && ManyStreams(s, b, limit, r) && b == r.receiveWindow < limit
    ensures Reachable(cfg, s') && s'.error == Some(TooMuchData)
  {
    var s1 := SendOnNewStream(cfg, s, b, limit, r);
    ReachNext(cfg, s1, Deliver(Data(b, 1, false)));
    s' := Next(cfg, s1, Deliver(Data(b, 1, false)));
  }

  /** The same for the connection, with one byte on each stream. */
  lemma ConnBeforeLowering(cfg: Config, w: nat, b1: nat, b2: nat) returns (s: System)
    requires 3 * w / 4 > cfg.connMax && cfg.streamInitial > 0
    requires w == cfg.connInitial && b1 == w / 2 && b2 == b1 + w - 3 * w / 4
    ensures Reachable(cfg, s) && ManyStreams(s, b2, b1 + w, ReceiveSide(b2, b2, b1 + w, w, cfg.connMax, 0))
  {
    var max := cfg.connMax;
    s := LearnLimit(cfg);
    s := PassOnNewStreams(cfg, s, 0, w, New(w, max), b1);
    s := RaiseConn(cfg, s, b1, w, ReceiveSide(b1, b1, w, w, max, 0));
    s := PassOnNewStreams(cfg, s, b1, b1 + w, ReceiveSide(b1, b1, b1 + w, w, max, 0), b2 - b1);
  }

  lemma ConnWindowBreaks(cfg: Config) returns (s: System)
    requires 3 * cfg.connInitial / 4 > cfg.connMax && cfg.streamInitial > 0
    ensures Reachable(cfg, s) && s.error == Some(TooMuchData)
  {
    var w, max := cfg.connInitial, cfg.connMax;
    var b1, b2 := w / 2, w / 2 + w - 3 * w / 4;
    s := ConnBeforeLowering(cfg, w, b1, b2);
    s := LowerConn(cfg, s, b2, b1 + w, ReceiveSide(b2, b2, b1 + w, w, max, 0));
    s := PassOnNewStreams(cfg, s, b2, b1 + w, ReceiveSide(b2, b2, b2 + max, max, max, b2), max);
    s := OverrunConn(cfg, s, b2 + max, b1 + w, ReceiveSide(b2 + max, b2 + max, b2 + max, max, max, b2));
  }

  // ---------------------------------------------------------------- main result

  /** Both limits are kept, unless the other kind of credit is zero and nothing flows at all. */
  predicate Safe(cfg: Config) {
    && (3 * cfg.streamInitial / 4 <= cfg.streamMax || cfg.connInitial == 0)
    && (3 * cfg.connInitial / 4 <= cfg.connMax || cfg.streamInitial == 0)
  }

  lemma SafeRuns(cfg: Config, actions: seq<Action>)
    requires Safe(cfg)
    ensures RunAll(cfg, Init(cfg), actions).error.None?
  {
    if cfg.KeepsCredit() {
      NoFlowControlError(cfg, actions);
    } else {
      RunStaysSilent(cfg, Init(cfg), actions);
    }
  }

  lemma UnsafeRun(cfg: Config) returns (actions: seq<Action>)
    requires !Safe(cfg)
    ensures RunAll(cfg, Init(cfg), actions).error == Some(TooMuchData)
  {
    var s;
    if 3 * cfg.streamInitial / 4 > cfg.streamMax && cfg.connInitial > 0 {
      s := StreamWindowBreaks(cfg);
    } else {
      s := ConnWindowBreaks(cfg);
    }
    actions :| RunAll(cfg, Init(cfg), actions) == s;
  }

  /** No run ends in a flow-control or final-offset error exactly for these windows. */
  lemma NoErrorIff(cfg: Config)
    ensures (forall actions: seq<Action> :: RunAll(cfg, Init(cfg), actions).error.None?) <==> Safe(cfg)
  {
    if Safe(cfg) {
      forall actions: seq<Action>
        ensures RunAll(cfg, Init(cfg), actions).error.None?
      {
        SafeRuns(cfg, actions);
      }
    } else {
      var actions := UnsafeRun(cfg);
      assert !RunAll(cfg, Init(cfg), actions).error.None?;
    }
  }

  /** Nor does any run take back a limit, exactly for these windows. */
  lemma LimitsNeverDecreaseIff(cfg: Config)
    ensures (forall s, a :: Reachable(cfg, s) ==> LimitsGrow(cfg, s, Next(cfg, s, a))) <==> Safe(cfg)
  {
    if Safe(cfg) {
      forall s, a | Reachable(cfg, s)
        ensures LimitsGrow(cfg, s, Next(cfg, s, a))
      {
        SafeStep(cfg, s, a);
      }
    } else {
      var s, a := LoweringStep(cfg);
    }
  }

  lemma SafeStep(cfg: Config, s: System, a: Action)
    requires Safe(cfg) && Reachable(cfg, s)
    ensures LimitsGrow(cfg, s, Next(cfg, s, a))
  {
    var actions: seq<Action> :| RunAll(cfg, Init(cfg), actions) == s;
    if cfg.KeepsCredit() {
      InitInv(cfg);
      RunInv(cfg, Init(cfg), actions);
      NextInv(cfg, s, a);
    } else {
      RunStaysSilent(cfg, Init(cfg), actions);
      NextStaysSilent(cfg, s, a);
    }
  }

  lemma LoweringStep(cfg: Config) returns (s: System, a: Action)
    requires !Safe(cfg)
    ensures Reachable(cfg, s) && !LimitsGrow(cfg, s, Next(cfg, s, a))
  {
    if 3 * cfg.streamInitial / 4 > cfg.streamMax && cfg.connInitial > 0 {
      var w, max := cfg.streamInitial, cfg.streamMax;
      var b1, b2 := w / 2, w / 2 + w - 3 * w / 4;
      s := StreamBeforeLowering(cfg, w, b1, b2);
      a := UpdateStream(0, true, true);
      var s' := LowerStream(cfg, s, b2, b1 + w, ReceiveSide(b2, b2, b1 + w, w, max, 0));
      assert Stream(cfg, s'.receiving, 0).side.receiveWindow < Stream(cfg, s.receiving, 0).side.receiveWindow;
    } else {
      var w, max := cfg.connInitial, cfg.connMax;
      var b1, b2 := w / 2, w / 2 + w - 3 * w / 4;
      s := ConnBeforeLowering(cfg, w, b1, b2);
      a := UpdateConn(true, true);
      var s' := LowerConn(cfg, s, b2, b1 + w, ReceiveSide(b2, b2, b1 + w, w, max, 0));
    }
  }

  /** In every run all limits stay within their maximum of what was read exactly if they start there. */
  lemma LimitsBoundedIff(cfg: Config)
    ensures (forall s :: Reachable(cfg, s) ==> WithinMaximum(cfg, s)) <==> cfg.Bounded()
  {
    if cfg.Bounded() {
      forall s | Reachable(cfg, s)
        ensures WithinMaximum(cfg, s)
      {
        var actions: seq<Action> :| RunAll(cfg, Init(cfg), actions) == s;
        LimitsBounded(cfg, actions);
      }
    } else if cfg.connInitial > cfg.connMax {
      ReachInit(cfg);
      assert !WithinMaximum(cfg, Init(cfg));
    } else {
      var s := EmptyStream(cfg);
    }
  }

  ghost predicate WithinMaximum(cfg: Config, s: System) {
    && s.recvConn.receiveWindow <= s.recvConn.bytesRead + cfg.connMax
    && forall id :: id in s.receiving ==> s.receiving[id].side.receiveWindow <= s.receiving[id].side.bytesRead + cfg.streamMax
  }

  /** A stream without data is received with its initial window. */
  lemma EmptyStream(cfg: Config) returns (s: System)
    ensures Reachable(cfg, s) && 0 in s.receiving && s.receiving[0].side == New(cfg.streamInitial, cfg.streamMax)
  {
    ReachInit(cfg);
    var s1 := Next(cfg, Init(cfg), Open(0, true));
    ReachNext(cfg, Init(cfg), Open(0, true));
    var s2 := Next(cfg, s1, Send(0, 0, true));
    ReachNext(cfg, s1, Send(0, 0, true));
    ReachNext(cfg, s2, Deliver(Data(0, 0, true)));
    s := Next(cfg, s2, Deliver(Data(0, 0, true)));
  }
}
