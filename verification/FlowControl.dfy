/** Flow control of one stream and of the connection. */
module FlowControl {
  import opened Protocol

  datatype FlowError = TooMuchData | AfterTermination

  // ---------------------------------------------------------------- values

  datatype SendSide = SendSide(bytesSent: nat, sendWindow: nat, lastBlockedAt: nat)

  function SendWindowSize(s: SendSide): nat {
    if s.bytesSent > s.sendWindow then 0 else s.sendWindow - s.bytesSent
  }

  function UpdateSendWindow(s: SendSide, offset: nat): SendSide {
    s.(sendWindow := Max(s.sendWindow, offset))
  }

  datatype ReceiveSide = ReceiveSide(
    bytesRead: nat,
    highestReceived: nat,
    receiveWindow: nat,
    windowSize: nat,
    maxWindowSize: nat,
    epochStart: nat)

  /** At most three quarters of the window are left, a quarter being the threshold for updates. */
  predicate HasWindowUpdate(r: ReceiveSide) {
    r.receiveWindow - r.bytesRead <= 3 * r.windowSize / 4
  }

  /** Data is read only after it was received, and no further than the limit. */
  predicate Sane(r: ReceiveSide) {
    r.epochStart <= r.bytesRead <= r.highestReceived <= r.receiveWindow
  }

  /** `rttKnown` and `fast` are what the clock and the RTT estimate say. */
  function Adjust(r: ReceiveSide, rttKnown: bool, fast: bool): ReceiveSide {
    if r.bytesRead - r.epochStart <= r.windowSize / 2 || !rttKnown then r
    else r.(windowSize := if fast then Min(2 * r.windowSize, r.maxWindowSize) else r.windowSize,
            epochStart := r.bytesRead)
  }

  function WindowUpdated(r: ReceiveSide, rttKnown: bool, fast: bool): ReceiveSide {
    if !HasWindowUpdate(r) then r
    else
      var a := Adjust(r, rttKnown, fast);
      a.(receiveWindow := a.bytesRead + a.windowSize)
  }

  function MinimumEnsured(r: ReceiveSide, inc: nat): ReceiveSide {
    if inc > r.windowSize then r.(windowSize := Min(inc, r.maxWindowSize), epochStart := r.bytesRead) else r
  }

  function BytesRead(r: ReceiveSide, n: nat): ReceiveSide {
    r.(bytesRead := r.bytesRead + n, epochStart := if r.bytesRead == 0 then 0 else r.epochStart)
  }

  datatype StreamReceive = StreamReceive(side: ReceiveSide, final: bool)

  datatype Receiving = Receiving(stream: StreamReceive, conn: ReceiveSide, error: Option<FlowError>)

  /** A frame of the stream ends at `offset`, `final` if it carries the FIN. */
  function HighestUpdated(s: StreamReceive, conn: ReceiveSide, offset: nat, final: bool): Receiving {
    var highest := s.side.highestReceived;
    if s.final && (if final then offset != highest else offset > highest) then
      Receiving(s, conn, Some(AfterTermination))
    else
      var s' := s.(final := s.final || final);
      if offset <= highest then
        Receiving(s', conn, if final && offset < highest then Some(AfterTermination) else None)
      else
        var s'' := s'.(side := s'.side.(highestReceived := offset));
        if offset > s.side.receiveWindow then Receiving(s'', conn, Some(TooMuchData))
        else
          var conn' := conn.(highestReceived := conn.highestReceived + offset - highest);
          Receiving(s'', conn', if conn'.highestReceived > conn'.receiveWindow then Some(TooMuchData) else None)
  }

  /** A frame is accepted exactly if it is within both limits and agrees with the end of the stream, known or new. */
  lemma AcceptsExactly(s: StreamReceive, conn: ReceiveSide, offset: nat, final: bool)
    requires s.side.highestReceived <= s.side.receiveWindow && conn.highestReceived <= conn.receiveWindow
    ensures var highest := s.side.highestReceived;
      HighestUpdated(s, conn, offset, final).error.None? <==>
        && offset <= s.side.receiveWindow
        && conn.highestReceived + Max(highest, offset) - highest <= conn.receiveWindow
        && (s.final ==> offset <= highest)
        && (final ==> offset >= highest)
    ensures HighestUpdated(s, conn, offset, final).error.None? ==>
      && HighestUpdated(s, conn, offset, final).stream == StreamReceive(
           s.side.(highestReceived := Max(s.side.highestReceived, offset)), s.final || final)
      && HighestUpdated(s, conn, offset, final).conn.highestReceived - conn.highestReceived
           == Max(s.side.highestReceived, offset) - s.side.highestReceived
    ensures HighestUpdated(s, conn, offset, final).error == Some(AfterTermination) <==>
      (s.final && offset > s.side.highestReceived) || (final && offset < s.side.highestReceived)
    ensures HighestUpdated(s, conn, offset, final).conn
      == conn.(highestReceived := HighestUpdated(s, conn, offset, final).conn.highestReceived)
  {
  }

  /** A larger window of the stream asks for one of the connection that is half as large again. */
  function StreamWindowUpdated(s: StreamReceive, conn: ReceiveSide, rttKnown: bool, fast: bool): (StreamReceive, ReceiveSide) {
    if s.final then (s, conn)
    else
      var side := WindowUpdated(s.side, rttKnown, fast);
      (s.(side := side), if side.windowSize > s.side.windowSize then MinimumEnsured(conn, 3 * side.windowSize / 2) else conn)
  }

  // ---------------------------------------------------------------- how windows grow

  /** More than half of the window was read since the last adjustment, and faster than it should be. */
  predicate ConsumedTooFast(r: ReceiveSide, rttKnown: bool, fast: bool) {
    2 * (r.bytesRead - r.epochStart) > r.windowSize && rttKnown && fast
  }

  /**
   The limit moves exactly when at least a quarter of the window is used up, and is then a window
   ahead of what was read. The window doubles exactly when it is consumed too fast, up to its
   maximum, and is the same otherwise.
   */
  lemma UpdateExactly(r: ReceiveSide, rttKnown: bool, fast: bool)
    ensures var r' := WindowUpdated(r, rttKnown, fast);
      && (4 * (r.receiveWindow - r.bytesRead) > 3 * r.windowSize ==> r' == r)
      && (4 * (r.receiveWindow - r.bytesRead) <= 3 * r.windowSize ==>
            && r'.receiveWindow == r.bytesRead + r'.windowSize
            && (!ConsumedTooFast(r, rttKnown, fast) ==> r'.windowSize == r.windowSize)
            && (ConsumedTooFast(r, rttKnown, fast) ==>
                  && r'.windowSize <= 2 * r.windowSize && r'.windowSize <= r.maxWindowSize
                  && (r'.windowSize == 2 * r.windowSize || r'.windowSize == r.maxWindowSize)))
      && r' == r.(receiveWindow := r'.receiveWindow, windowSize := r'.windowSize, epochStart := r'.epochStart)
      && r'.epochStart == (if 4 * (r.receiveWindow - r.bytesRead) <= 3 * r.windowSize && 2 * (r.bytesRead - r.epochStart) > r.windowSize && rttKnown
                           then r.bytesRead else r.epochStart)
  {
  }

  /**
   When an update enlarges the window of a stream, the window of the connection is afterwards at
   least one and a half times as large, up to its maximum, and no smaller than before unless it was
   above that. In every other case the connection is left alone.
   */
  lemma ConnectionFollows(s: StreamReceive, conn: ReceiveSide, rttKnown: bool, fast: bool)
    ensures var (s', conn') := StreamWindowUpdated(s, conn, rttKnown, fast);
      && s'.final == s.final
      && s'.side == (if s.final then s.side else WindowUpdated(s.side, rttKnown, fast))
      && (s'.side.windowSize <= s.side.windowSize ==> conn' == conn)
      && (s'.side.windowSize > s.side.windowSize ==>
            && (2 * conn'.windowSize + 1 >= 3 * s'.side.windowSize || conn'.windowSize == conn.maxWindowSize)
            && (conn.windowSize <= conn.maxWindowSize ==> conn.windowSize <= conn'.windowSize <= conn.maxWindowSize)
            && (conn'.windowSize > conn.windowSize ==> 2 * conn'.windowSize <= 3 * s'.side.windowSize)
            && (conn'.windowSize != conn.windowSize ==> conn'.epochStart == conn.bytesRead))
      && conn' == conn.(windowSize := conn'.windowSize, epochStart := conn'.epochStart)
  {
  }

  // ---------------------------------------------------------------- the limit in every run

  datatype Event = Received(n: nat) | Read(n: nat) | Update(rttKnown: bool, fast: bool) | Ensure(inc: nat)

  function New(initial: nat, max: nat): ReceiveSide {
    ReceiveSide(0, 0, initial, initial, max, 0)
  }

  /** Data comes within the limit, and is read once received; other events change nothing here. */
  function Step(r: ReceiveSide, e: Event): ReceiveSide {
    match e
    case Received(n) => if r.highestReceived + n <= r.receiveWindow then r.(highestReceived := r.highestReceived + n) else r
    case Read(n) => if r.bytesRead + n <= r.highestReceived then BytesRead(r, n) else r
    case Update(rttKnown, fast) => WindowUpdated(r, rttKnown, fast)
    case Ensure(inc) => MinimumEnsured(r, inc)
  }

  function Run(r: ReceiveSide, es: seq<Event>): ReceiveSide
    decreases |es|
  {
    if es == [] then r else Run(Step(r, es[0]), es[1..])
  }

  /** No step lowers the limit. */
  ghost predicate NeverLowers(r: ReceiveSide, es: seq<Event>)
    decreases |es|
  {
    es == [] || (r.receiveWindow <= Step(r, es[0]).receiveWindow && NeverLowers(Step(r, es[0]), es[1..]))
  }

  /** The limit stays within the maximum window size of what was read. */
  ghost predicate Bounded(r: ReceiveSide, es: seq<Event>)
    decreases |es|
  {
    && r.receiveWindow <= r.bytesRead + r.maxWindowSize
    && (es == [] || Bounded(Step(r, es[0]), es[1..]))
  }

  /** An update that would shrink the window must not take back what was advertised. */
  ghost predicate KeepsCredit(r: ReceiveSide) {
    && Sane(r)
    && 3 * r.windowSize / 4 <= r.maxWindowSize
    && (r.receiveWindow <= r.bytesRead + r.windowSize || r.windowSize <= r.maxWindowSize)
  }

  lemma StepKeepsCredit(r: ReceiveSide, e: Event)
    requires KeepsCredit(r)
    ensures KeepsCredit(Step(r, e)) && r.receiveWindow <= Step(r, e).receiveWindow
    ensures Step(r, e).maxWindowSize == r.maxWindowSize
  {
  }

  lemma {:induction false} RunKeepsCredit(r: ReceiveSide, es: seq<Event>)
    requires KeepsCredit(r)
    ensures KeepsCredit(Run(r, es)) && NeverLowers(r, es)
    decreases |es|
  {
    if es != [] {
      StepKeepsCredit(r, es[0]);
      RunKeepsCredit(Step(r, es[0]), es[1..]);
    }
  }

  /** Where the maximum is too small, half the window and a quarter of it are read, each before an update. */
  ghost function Shrinking(w: nat): seq<Event> {
    [Received(w), Read(w / 2), Update(false, false), Received(w / 2), Read(w - 3 * w / 4), Update(true, true)]
  }

  lemma ShrinkingLowers(w: nat, max: nat)
    requires 3 * w / 4 > max
    ensures !NeverLowers(New(w, max), Shrinking(w))
  {
    var r0 := New(w, max);
    var es := Shrinking(w);
    var r1 := ReceiveSide(0, w, w, w, max, 0);
    var r2 := ReceiveSide(w / 2, w, w, w, max, 0);
    var r3 := ReceiveSide(w / 2, w, w / 2 + w, w, max, 0);
    var r4 := ReceiveSide(w / 2, w + w / 2, w / 2 + w, w, max, 0);
    var r5 := ReceiveSide(w / 2 + w - 3 * w / 4, w + w / 2, w / 2 + w, w, max, 0);
    assert Step(r0, es[0]) == r1 && Step(r1, es[1]) == r2 && Step(r2, es[2]) == r3;
    assert Step(r3, es[3]) == r4 && Step(r4, es[4]) == r5;
    assert Step(r5, es[5]).receiveWindow < r5.receiveWindow;
    assert !NeverLowers(r5, es[5..]);
    assert es[4..][1..] == es[5..] && es[3..][1..] == es[4..] && es[2..][1..] == es[3..] && es[1..][1..] == es[2..];
    assert !NeverLowers(r4, es[4..]) && !NeverLowers(r3, es[3..]) && !NeverLowers(r2, es[2..]) && !NeverLowers(r1, es[1..]);
  }

  /** An advertised limit is never taken back in any run exactly when the maximum is at least three quarters of the initial window. */
  lemma NeverLowersIff(w: nat, max: nat)
    ensures (forall es: seq<Event> :: NeverLowers(New(w, max), es)) <==> 3 * w / 4 <= max
  {
    if 3 * w / 4 <= max {
      forall es: seq<Event>
        ensures NeverLowers(New(w, max), es)
      {
        RunKeepsCredit(New(w, max), es);
      }
    } else {
      ShrinkingLowers(w, max);
    }
  }

  ghost predicate Within(r: ReceiveSide) {
    Sane(r) && r.windowSize <= r.maxWindowSize && r.receiveWindow <= r.bytesRead + r.windowSize
  }

  lemma {:induction false} RunWithin(r: ReceiveSide, es: seq<Event>)
    requires Within(r)
    ensures Within(Run(r, es)) && Bounded(r, es)
    decreases |es|
  {
    if es != [] {
      assert Within(Step(r, es[0]));
      RunWithin(Step(r, es[0]), es[1..]);
    }
  }

  /** The limit stays within the maximum window in every run exactly when it starts there. */
  lemma BoundedIff(w: nat, max: nat)
    ensures (forall es: seq<Event> :: Bounded(New(w, max), es)) <==> w <= max
  {
    if w <= max {
      forall es: seq<Event>
        ensures Bounded(New(w, max), es)
      {
        RunWithin(New(w, max), es);
      }
    } else {
      var none: seq<Event> := [];
      assert !Bounded(New(w, max), none);
    }
  }

  // ---------------------------------------------------------------- the controllers

  class BaseFlowController {
    var bytesSent: nat
    var sendWindow: nat
    var lastBlockedAt: nat
    var bytesRead: nat
    var highestReceived: nat
    var receiveWindow: nat
    var receiveWindowSize: nat
    const maxReceiveWindowSize: nat
    var epochStartOffset: nat

    function Sending(): SendSide
      reads this
    {
      SendSide(bytesSent, sendWindow, lastBlockedAt)
    }

    function Receiving(): ReceiveSide
      reads this
    {
      ReceiveSide(bytesRead, highestReceived, receiveWindow, receiveWindowSize, maxReceiveWindowSize, epochStartOffset)
    }

    constructor (initial: nat, max: nat, initialSendWindow: nat)
      ensures Receiving() == New(initial, max) && Sending() == SendSide(0, initialSendWindow, 0)
    {
      bytesSent, sendWindow, lastBlockedAt := 0, initialSendWindow, 0;
      bytesRead, highestReceived, epochStartOffset := 0, 0, 0;
      receiveWindow, receiveWindowSize, maxReceiveWindowSize := initial, initial, max;
    }

    /** A blocked sender learns of it once for each limit. */
    method IsNewlyBlocked() returns (blocked: bool, offset: nat)
      modifies this
      ensures blocked <==> SendWindowSize(old(Sending())) == 0 && old(sendWindow) != old(lastBlockedAt)
      ensures blocked ==> offset == sendWindow
      ensures Sending() == if blocked then old(Sending()).(lastBlockedAt := sendWindow) else old(Sending())
      ensures Receiving() == old(Receiving())
    {
      if SendWindowSize(Sending()) != 0 || sendWindow == lastBlockedAt {
        return false, 0;
      }
      lastBlockedAt := sendWindow;
      return true, sendWindow;
    }

    method AddBytesSent(n: nat)
      modifies this
      ensures Sending() == old(Sending()).(bytesSent := old(bytesSent) + n) && Receiving() == old(Receiving())
    {
      bytesSent := bytesSent + n;
    }

    method SetSendWindow(offset: nat)
      modifies this
      ensures Sending() == UpdateSendWindow(old(Sending()), offset) && Receiving() == old(Receiving())
    {
      if offset > sendWindow {
        sendWindow := offset;
      }
    }

    method AddBytesRead(n: nat)
      modifies this
      ensures Receiving() == BytesRead(old(Receiving()), n) && Sending() == old(Sending())
    {
      if bytesRead == 0 {
        StartNewAutoTuningEpoch();
      }
      bytesRead := bytesRead + n;
    }

    method StartNewAutoTuningEpoch()
      modifies this
      ensures Receiving() == old(Receiving()).(epochStart := bytesRead) && Sending() == old(Sending())
    {
      epochStartOffset := bytesRead;
    }

    method MaybeAdjustWindowSize(rttKnown: bool, fast: bool)
      modifies this
      ensures Receiving() == Adjust(old(Receiving()), rttKnown, fast) && Sending() == old(Sending())
    {
      if bytesRead - epochStartOffset <= receiveWindowSize / 2 {
        return;
      }
      if !rttKnown {
        return;
      }
      if fast {
        receiveWindowSize := Min(2 * receiveWindowSize, maxReceiveWindowSize);
      }
      StartNewAutoTuningEpoch();
    }

    method GetWindowUpdate(rttKnown: bool, fast: bool) returns (offset: nat)
      modifies this
      ensures Receiving() == WindowUpdated(old(Receiving()), rttKnown, fast) && Sending() == old(Sending())
      ensures offset == if HasWindowUpdate(old(Receiving())) then receiveWindow else 0
    {
      if !HasWindowUpdate(Receiving()) {
        return 0;
      }
      MaybeAdjustWindowSize(rttKnown, fast);
      receiveWindow := bytesRead + receiveWindowSize;
      return receiveWindow;
    }
  }

  class ConnectionFlowController {
    const base: BaseFlowController

    /** The peer's limit is not known yet when the connection is created. */
    constructor (initial: nat, max: nat)
      ensures fresh(base) && base.Receiving() == New(initial, max) && base.Sending() == SendSide(0, 0, 0)
    {
      base := new BaseFlowController(initial, max, 0);
    }

    method IncrementHighestReceived(increment: nat) returns (error: Option<FlowError>)
      modifies base
      ensures base.Receiving() == old(base.Receiving()).(highestReceived := old(base.highestReceived) + increment)
      ensures base.Sending() == old(base.Sending())
      ensures error == if base.highestReceived > base.receiveWindow then Some(TooMuchData) else None
    {
      base.highestReceived := base.highestReceived + increment;
      return if base.highestReceived > base.receiveWindow then Some(TooMuchData) else None;
    }

    method EnsureMinimumWindowSize(inc: nat)
      modifies base
      ensures base.Receiving() == MinimumEnsured(old(base.Receiving()), inc) && base.Sending() == old(base.Sending())
    {
      if inc > base.receiveWindowSize {
        base.receiveWindowSize := Min(inc, base.maxReceiveWindowSize);
        base.StartNewAutoTuningEpoch();
      }
    }
  }

  class StreamFlowController {
    const base: BaseFlowController
    const connection: ConnectionFlowController
    var receivedFinalOffset: bool

    ghost predicate Valid()
      reads this
    {
      base != connection.base
    }

    function Stream(): StreamReceive
      reads this, base
    {
      StreamReceive(base.Receiving(), receivedFinalOffset)
    }

    constructor (connection: ConnectionFlowController, initial: nat, max: nat, initialSendWindow: nat)
      ensures Valid() && fresh(base) && this.connection == connection
      ensures Stream() == StreamReceive(New(initial, max), false) && base.Sending() == SendSide(0, initialSendWindow, 0)
    {
      base := new BaseFlowController(initial, max, initialSendWindow);
      this.connection := connection;
      receivedFinalOffset := false;
    }

    method UpdateHighestReceived(offset: nat, final: bool) returns (error: Option<FlowError>)
      requires Valid()
      modifies this, base, connection.base
      ensures Receiving(Stream(), connection.base.Receiving(), error)
        == HighestUpdated(old(Stream()), old(connection.base.Receiving()), offset, final)
      ensures base.Sending() == old(base.Sending()) && connection.base.Sending() == old(connection.base.Sending())
    {
      if final && receivedFinalOffset && offset != base.highestReceived {
        return Some(AfterTermination);
      }
      if receivedFinalOffset && offset > base.highestReceived {
        return Some(AfterTermination);
      }
      if final {
        receivedFinalOffset := true;
      }
      if offset == base.highestReceived {
        return None;
      }
      if offset <= base.highestReceived {
        return if final then Some(AfterTermination) else None;
      }
      var increment := offset - base.highestReceived;
      base.highestReceived := offset;
      if base.highestReceived > base.receiveWindow {
        return Some(TooMuchData);
      }
      error := connection.IncrementHighestReceived(increment);
    }

    method AddBytesRead(n: nat)
      requires Valid()
      modifies base, connection.base
      ensures base.Receiving() == BytesRead(old(base.Receiving()), n)
      ensures connection.base.Receiving() == BytesRead(old(connection.base.Receiving()), n)
      ensures base.Sending() == old(base.Sending()) && connection.base.Sending() == old(connection.base.Sending())
    {
      base.AddBytesRead(n);
      connection.base.AddBytesRead(n);
    }

    method AddBytesSent(n: nat)
      requires Valid()
      modifies base, connection.base
      ensures base.Sending() == old(base.Sending()).(bytesSent := old(base.bytesSent) + n)
      ensures connection.base.Sending() == old(connection.base.Sending()).(bytesSent := old(connection.base.bytesSent) + n)
      ensures base.Receiving() == old(base.Receiving()) && connection.base.Receiving() == old(connection.base.Receiving())
    {
      base.AddBytesSent(n);
      connection.base.AddBytesSent(n);
    }

    /** What may be sent: the credit of the stream and that of the connection. */
    function Credit(): (n: nat)
      reads base, connection.base
      ensures n > 0 ==> base.bytesSent + n <= base.sendWindow && connection.base.bytesSent + n <= connection.base.sendWindow
      ensures n == 0 ==> base.bytesSent >= base.sendWindow || connection.base.bytesSent >= connection.base.sendWindow
    {
      Min(SendWindowSize(base.Sending()), SendWindowSize(connection.base.Sending()))
    }

    method GetWindowUpdate(rttKnown: bool, fast: bool) returns (offset: nat)
      requires Valid()
      modifies base, connection.base
      ensures (Stream(), connection.base.Receiving())
        == StreamWindowUpdated(old(Stream()), old(connection.base.Receiving()), rttKnown, fast)
      ensures offset == if !receivedFinalOffset && HasWindowUpdate(old(base.Receiving())) then base.receiveWindow else 0
      ensures base.Sending() == old(base.Sending()) && connection.base.Sending() == old(connection.base.Sending())
    {
      if receivedFinalOffset {
        return 0;
      }
      var oldWindowSize := base.receiveWindowSize;
      offset := base.GetWindowUpdate(rttKnown, fast);
      if base.receiveWindowSize > oldWindowSize {
        connection.EnsureMinimumWindowSize(3 * base.receiveWindowSize / 2);
      }
    }
  }
}
