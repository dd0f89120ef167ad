/** Limits on the number of streams (section 4.6 of RFC 9000). */
module StreamCredit {
  import opened Protocol

  // ---------------------------------------------------------------- stream IDs

  datatype StreamType = Uni | Bidi

  function InitiatedBy(id: nat): Perspective {
    if id % 2 == 0 then Client else Server
  }

  function Type(id: nat): StreamType {
    if id % 4 >= 2 then Uni else Bidi
  }

  /** How many streams of its kind there are up to this one. */
  function StreamNum(id: nat): nat {
    id / 4 + 1
  }

  function First(t: StreamType, p: Perspective): (id: nat)
    ensures id < 4
  {
    match t
    case Bidi => (match p case Client => 0 case Server => 1)
    case Uni => (match p case Client => 2 case Server => 3)
  }

  /** The highest stream that may be opened with credit for `n` streams; 0 if `n` is 0. */
  function MaxStreamID(t: StreamType, n: nat, p: Perspective): nat {
    if n == 0 then 0 else First(t, p) + 4 * (n - 1)
  }

  /** A number of streams and the highest ID determine each other. */
  lemma StreamNumInverse(t: StreamType, n: nat, p: Perspective, id: nat)
    requires n > 0
    ensures MaxStreamID(t, n, p) == id <==> Type(id) == t && InitiatedBy(id) == p && StreamNum(id) == n
  {
    Kind(t, p, id);
    ByFour(First(t, p), n - 1, id);
  }

  lemma Kind(t: StreamType, p: Perspective, id: nat)
    ensures Type(id) == t && InitiatedBy(id) == p <==> id % 4 == First(t, p)
  {
    Parity(id);
  }

  lemma Parity(id: nat)
    ensures id % 2 == 0 <==> id % 4 == 0 || id % 4 == 2
  {
  }

  lemma ByFour(r: nat, q: int, id: nat)
    requires r < 4
    ensures r + 4 * q == id <==> id % 4 == r && id / 4 == q
  {
  }

  /** Which kind of outgoing stream a MAX_STREAMS frame raises: it is looked up by the ID. */
  function Raised(t: StreamType, n: nat, p: Perspective): StreamType {
    Type(MaxStreamID(t, n, p))
  }

  /** A limit of zero unidirectional streams is taken for one of bidirectional streams. */
  lemma RaisedIff(t: StreamType, n: nat, p: Perspective)
    ensures Raised(t, n, p) == t <==> n > 0 || t == Bidi
  {
    if n > 0 {
      StreamNumInverse(t, n, p, MaxStreamID(t, n, p));
    }
  }

  // ---------------------------------------------------------------- incoming streams

  datatype Incoming = Incoming(streams: set<nat>, nextToAccept: nat, nextToOpen: nat, maxStream: nat, maxNum: nat)

  function NewIncoming(t: StreamType, p: Perspective, maxNum: nat): Incoming {
    Incoming({}, First(t, p), First(t, p), MaxStreamID(t, maxNum, p), maxNum)
  }

  /** Adds every stream of a kind from `from` up to `id`. */
  function AddUpTo(streams: set<nat>, from: nat, id: nat): set<nat>
    decreases id - from
  {
    if from > id then streams else AddUpTo(streams + {from}, from + 4, id)
  }

  datatype Lookup = Rejected | Gone | Present

  /** Opens the stream, and all lower ones, unless it is beyond the limit. */
  function Opened(m: Incoming, id: nat): (Incoming, Lookup) {
    if id > m.maxStream then (m, Rejected)
    else
      var m' := if id < m.nextToOpen then m
                else m.(streams := AddUpTo(m.streams, m.nextToOpen, id), nextToOpen := id + 4);
      (m', if id in m'.streams then Present else Gone)
  }

  /** Forgets the stream, and announces how many streams may be opened now. */
  function Deleted(m: Incoming, id: nat): (Incoming, Option<nat>) {
    var streams := m.streams - {id};
    if id !in m.streams || m.maxNum <= |streams| then (m.(streams := streams), None)
    else
      var maxStream := m.nextToOpen + 4 * (m.maxNum - |streams| - 1);
      (m.(streams := streams, maxStream := maxStream), Some(StreamNum(maxStream)))
  }

  function Accepted(m: Incoming): (Incoming, Option<nat>) {
    if m.nextToAccept in m.streams then (m.(nextToAccept := m.nextToAccept + 4), Some(m.nextToAccept)) else (m, None)
  }

  /** Open streams and credit for new ones add up to the maximum. */
  ghost predicate IncomingInv(m: Incoming, first: nat) {
    && first < 4
    && m.nextToOpen % 4 == m.nextToAccept % 4 == first
    && m.nextToAccept <= m.nextToOpen
    && m.maxNum > 0
    && |m.streams| <= m.maxNum
    && m.maxStream + 4 == m.nextToOpen + 4 * (m.maxNum - |m.streams|)
    && forall id :: id in m.streams ==> id < m.nextToOpen && id % 4 == first
  }

  lemma {:induction false} AddUpToAdds(streams: set<nat>, from: nat, id: nat, k: nat)
    requires id + 4 == from + 4 * k && forall x :: x in streams ==> x < from
    ensures |AddUpTo(streams, from, id)| == |streams| + k
    ensures forall x :: x in AddUpTo(streams, from, id) ==> x in streams || (from <= x <= id && x % 4 == from % 4)
    ensures streams <= AddUpTo(streams, from, id) && (k > 0 ==> id in AddUpTo(streams, from, id))
    decreases k
  {
    if k > 0 {
      AddUpToAdds(streams + {from}, from + 4, id, k - 1);
    }
  }

  /** Streams of a kind are four apart. */
  lemma StreamsBetween(from: nat, id: nat) returns (k: nat)
    requires from <= id + 4 && id % 4 == from % 4
    ensures id + 4 == from + 4 * k
  {
    k := (id + 4 - from) / 4;
  }

  lemma OpenedInv(m: Incoming, first: nat, id: nat)
    requires IncomingInv(m, first) && id % 4 == first
    ensures IncomingInv(Opened(m, id).0, first) && Opened(m, id).0.maxStream == m.maxStream
    ensures Opened(m, id).1 == Rejected <==> id > m.maxStream
    ensures id >= m.nextToOpen && id <= m.maxStream ==> Opened(m, id).1 == Present
  {
    if m.nextToOpen <= id <= m.maxStream {
      var k := StreamsBetween(m.nextToOpen, id);
      ManyOpenedInv(m, first, id, k);
    }
  }

  lemma ManyOpenedInv(m: Incoming, first: nat, id: nat, k: nat)
    requires IncomingInv(m, first) && m.nextToOpen <= id <= m.maxStream && id + 4 == m.nextToOpen + 4 * k
    ensures IncomingInv(m.(streams := AddUpTo(m.streams, m.nextToOpen, id), nextToOpen := id + 4), first)
    ensures id in AddUpTo(m.streams, m.nextToOpen, id)
  {
    AddUpToAdds(m.streams, m.nextToOpen, id, k);
    Shifted(m.nextToOpen, k + 1, id + 4);
  }

  /** A stream within the limit is opened together with all lower ones that were not open yet, and nothing else changes. */
  lemma OpenedExactly(m: Incoming, first: nat, id: nat)
    requires IncomingInv(m, first) && id % 4 == first
    ensures var (m', r) := Opened(m, id);
      && (forall x :: x in m'.streams <==> x in m.streams || (m.nextToOpen <= x <= id <= m.maxStream && x % 4 == first))
      && m'.nextToOpen == (if m.nextToOpen <= id <= m.maxStream then id + 4 else m.nextToOpen)
      && m' == m.(streams := m'.streams, nextToOpen := m'.nextToOpen)
      && r == (if id > m.maxStream then Rejected else if id in m'.streams then Present else Gone)
  {
    if m.nextToOpen <= id <= m.maxStream {
      var k := StreamsBetween(m.nextToOpen, id);
      AddUpToAdds(m.streams, m.nextToOpen, id, k);
      forall x: nat | m.nextToOpen <= x <= id && x % 4 == first
        ensures x in AddUpTo(m.streams, m.nextToOpen, id)
      {
        AddUpToCovers(m.streams, m.nextToOpen, id, x);
      }
    }
  }

  /** Each stream that ends makes room for exactly one more. */
  lemma DeletedInv(m: Incoming, first: nat, id: nat)
    requires IncomingInv(m, first) && id in m.streams
    ensures IncomingInv(Deleted(m, id).0, first)
    ensures Deleted(m, id).0.maxStream == m.maxStream + 4
    ensures Deleted(m, id).1 == Some(StreamNum(m.maxStream + 4))
    ensures Deleted(m, id).0 == m.(streams := m.streams - {id}, maxStream := m.maxStream + 4)
  {
    assert |m.streams - {id}| == |m.streams| - 1;
  }

  /** A stream that is returned is open, and the next one is expected after it. */
  lemma AcceptedInv(m: Incoming, first: nat)
    requires IncomingInv(m, first)
    ensures IncomingInv(Accepted(m).0, first)
    ensures match Accepted(m).1
      case None => m.nextToAccept !in m.streams && Accepted(m).0 == m
      case Some(id) => id == m.nextToAccept && id in m.streams && Accepted(m).0 == m.(nextToAccept := id + 4)
  {
  }

  /** Stream `h` was opened and deleted before it was accepted. */
  ghost predicate Hole(m: Incoming, first: nat, h: nat) {
    h % 4 == first && m.nextToAccept <= h < m.nextToOpen && h !in m.streams
  }

  ghost predicate NoHoles(m: Incoming, first: nat) {
    forall h: nat :: !Hole(m, first, h)
  }

  /** Without holes, every stream that the peer opened can be accepted in turn. */
  lemma NextIsAccepted(m: Incoming, first: nat)
    requires IncomingInv(m, first) && NoHoles(m, first)
    ensures Accepted(m).1 == if m.nextToAccept < m.nextToOpen then Some(m.nextToAccept) else None
    ensures Accepted(m).0 == if m.nextToAccept < m.nextToOpen then m.(nextToAccept := m.nextToAccept + 4) else m
  {
    assert !Hole(m, first, m.nextToAccept);
  }

  /** Deleting a stream leaves no hole exactly if it was accepted. */
  lemma DeletedLeavesNoHoleIff(m: Incoming, first: nat, id: nat)
    requires IncomingInv(m, first) && NoHoles(m, first) && id in m.streams
    ensures NoHoles(Deleted(m, id).0, first) <==> id < m.nextToAccept
  {
    var m' := Deleted(m, id).0;
    if id < m.nextToAccept {
      forall h: nat
        ensures !Hole(m', first, h)
      {
        assert !Hole(m, first, h);
      }
    } else {
      assert Hole(m', first, id);
    }
  }

  /** A deleted stream is never opened again, and accepting does not get past it. */
  lemma HoleStays(m: Incoming, first: nat, h: nat, id: nat)
    requires IncomingInv(m, first) && Hole(m, first, h)
    ensures Hole(Accepted(m).0, first, h) && Hole(Deleted(m, id).0, first, h)
    ensures id % 4 == first ==> Hole(Opened(m, id).0, first, h)
    ensures Accepted(m).1.Some? ==> Accepted(m).1.value < h
  {
    assert m.nextToAccept in m.streams ==> m.nextToAccept + 4 <= h by {
      NotNext(m.nextToAccept, h);
    }
    if id % 4 == first && m.nextToOpen <= id <= m.maxStream {
      var k := StreamsBetween(m.nextToOpen, id);
      AddUpToAdds(m.streams, m.nextToOpen, id, k);
    }
  }

  lemma NotNext(a: nat, h: nat)
    requires a % 4 == h % 4
    ensures a < h ==> a + 4 <= h
  {
  }

  /** Opening streams makes no hole. */
  lemma OpenedMakesNoHole(m: Incoming, first: nat, id: nat)
    requires IncomingInv(m, first) && NoHoles(m, first) && id % 4 == first
    ensures NoHoles(Opened(m, id).0, first)
  {
    var m' := Opened(m, id).0;
    if m.nextToOpen <= id <= m.maxStream {
      forall h: nat
        ensures !Hole(m', first, h)
      {
        assert !Hole(m, first, h);
        if m.nextToOpen <= h < m'.nextToOpen && h % 4 == first {
          NotNext(h, m'.nextToOpen);
          AddUpToCovers(m.streams, m.nextToOpen, id, h);
        } else if h in m.streams {
          AddUpToKeeps(m.streams, m.nextToOpen, id, h);
        }
      }
    }
  }

  lemma {:induction false} AddUpToKeeps(streams: set<nat>, from: nat, id: nat, h: nat)
    requires h in streams
    ensures h in AddUpTo(streams, from, id)
    decreases id - from
  {
    if from <= id {
      AddUpToKeeps(streams + {from}, from + 4, id, h);
    }
  }

  lemma {:induction false} AddUpToCovers(streams: set<nat>, from: nat, id: nat, h: nat)
    requires from <= h <= id && h % 4 == from % 4
    ensures h in AddUpTo(streams, from, id)
    decreases id - from
  {
    if h == from {
      AddUpToKeeps(streams + {from}, from + 4, id, h);
    } else {
      NotNext(from, h);
      AddUpToCovers(streams + {from}, from + 4, id, h);
    }
  }

  class IncomingStreams {
    var streams: set<nat>
    var nextStreamToAccept: nat
    var nextStreamToOpen: nat
    var maxStream: nat
    const maxNumStreams: nat

    function View(): Incoming
      reads this
    {
      Incoming(streams, nextStreamToAccept, nextStreamToOpen, maxStream, maxNumStreams)
    }

    constructor (t: StreamType, p: Perspective, maxNum: nat)
      ensures View() == NewIncoming(t, p, maxNum)
      ensures maxNum > 0 ==> IncomingInv(View(), First(t, p))
    {
      streams := {};
      nextStreamToAccept, nextStreamToOpen := First(t, p), First(t, p);
      maxStream, maxNumStreams := MaxStreamID(t, maxNum, p), maxNum;
    }

    /** The stream that an accept returns now; it waits if there is none. */
    method AcceptStream() returns (id: Option<nat>)
      modifies this
      ensures (View(), id) == Accepted(old(View()))
    {
      if nextStreamToAccept in streams {
        id := Some(nextStreamToAccept);
        nextStreamToAccept := nextStreamToAccept + 4;
      } else {
        id := None;
      }
    }

    method GetOrOpenStream(id: nat) returns (r: Lookup)
      modifies this
      ensures (View(), r) == Opened(old(View()), id)
    {
      if id > maxStream {
        return Rejected;
      }
      if id < nextStreamToOpen {
        return if id in streams then Present else Gone;
      }
      var newID := nextStreamToOpen;
      while newID <= id
        invariant AddUpTo(streams, newID, id) == AddUpTo(old(streams), nextStreamToOpen, id)
        invariant nextStreamToOpen == old(nextStreamToOpen) && maxStream == old(maxStream)
        invariant nextStreamToAccept == old(nextStreamToAccept)
        decreases id + 4 - newID
      {
        streams := streams + {newID};
        newID := newID + 4;
      }
      nextStreamToOpen := id + 4;
      return if id in streams then Present else Gone;
    }

    /** `frame` is the number of streams to announce in a MAX_STREAMS frame. */
    method DeleteStream(id: nat) returns (ok: bool, frame: Option<nat>)
      modifies this
      ensures ok <==> id in old(streams)
      ensures (View(), frame) == Deleted(old(View()), id)
    {
      if id !in streams {
        assert streams - {id} == streams;
        return false, None;
      }
      streams := streams - {id};
      frame := None;
      if maxNumStreams > |streams| {
        maxStream := nextStreamToOpen + 4 * (maxNumStreams - |streams| - 1);
        frame := Some(StreamNum(maxStream));
      }
      return true, frame;
    }
  }

  // ---------------------------------------------------------------- outgoing streams

  datatype Outgoing = Outgoing(streams: set<nat>, nextStream: nat, maxStream: Option<nat>, blockedSent: bool)

  function MaxSet(m: Outgoing, id: nat): Outgoing {
    if m.maxStream.None? || id > m.maxStream.value then m.(maxStream := Some(id), blockedSent := false) else m
  }

  predicate MayOpen(m: Outgoing) {
    m.maxStream.Some? && m.nextStream <= m.maxStream.value
  }

  function StreamOpened(m: Outgoing): Outgoing {
    if MayOpen(m) then m.(streams := m.streams + {m.nextStream}, nextStream := m.nextStream + 4)
    else m.(blockedSent := true)
  }

  /** The stream that an open returns, or the limit to report if there is none. */
  function OpenResult(m: Outgoing): (Option<nat>, Option<nat>) {
    if MayOpen(m) then (Some(m.nextStream), None)
    else (None, if m.blockedSent then None else Some(if m.maxStream.Some? then StreamNum(m.maxStream.value) else 0))
  }

  // ---------------------------------------------------------------- what an opener does, by its calls alone

  datatype Call = Opens(id: Option<nat>, blocked: Option<nat>) | Raises(to: nat) | Deletes(which: nat)

  ghost predicate CallStep(m: Outgoing, c: Call, m': Outgoing) {
    match c
    case Opens(id, blocked) => (id, blocked) == OpenResult(m) && m' == StreamOpened(m)
    case Raises(to) => m' == MaxSet(m, to)
    case Deletes(id) => m' == m.(streams := m.streams - {id})
  }

  ghost predicate CallRun(first: nat, ms: seq<Outgoing>, cs: seq<Call>) {
    && |ms| == |cs| + 1
    && ms[0] == Outgoing({}, first, None, false)
    && forall i :: 0 <= i < |cs| ==> CallStep(ms[i], cs[i], ms[i + 1])
  }

  /** How many streams were opened. */
  function CountOpened(cs: seq<Call>): nat {
    if cs == [] then 0
    else CountOpened(cs[..|cs| - 1]) + if cs[|cs| - 1].Opens? && cs[|cs| - 1].id.Some? then 1 else 0
  }

  /** The highest limit that was set, if one was. */
  function Limit(cs: seq<Call>): Option<nat> {
    if cs == [] then None
    else
      var before, c := Limit(cs[..|cs| - 1]), cs[|cs| - 1];
      if c.Raises? && (before.None? || c.to > before.value) then Some(c.to) else before
  }

  /** An open failed since the limit was last raised. */
  predicate FailedSinceRaise(cs: seq<Call>) {
    cs != [] && var before, c := cs[..|cs| - 1], cs[|cs| - 1];
    match c
    case Opens(id, _) => id.None? || FailedSinceRaise(before)
    case Raises(to) => !(Limit(before).None? || to > Limit(before).value) && FailedSinceRaise(before)
    case Deletes(_) => FailedSinceRaise(before)
  }

  /** The stream was opened and not deleted after that. */
  predicate OpenNow(cs: seq<Call>, id: nat) {
    cs != [] && var before, c := cs[..|cs| - 1], cs[|cs| - 1];
    match c
    case Opens(got, _) => got == Some(id) || OpenNow(before, id)
    case Raises(_) => OpenNow(before, id)
    case Deletes(gone) => gone != id && OpenNow(before, id)
  }

  lemma {:induction false} OpenerRemembers(first: nat, ms: seq<Outgoing>, cs: seq<Call>, i: nat)
    requires CallRun(first, ms, cs) && i <= |cs|
    ensures ms[i].nextStream == first + 4 * CountOpened(cs[..i])
    ensures ms[i].maxStream == Limit(cs[..i])
    ensures ms[i].blockedSent <==> FailedSinceRaise(cs[..i])
    ensures forall id :: id in ms[i].streams <==> OpenNow(cs[..i], id)
  {
    if i > 0 {
      OpenerRemembers(first, ms, cs, i - 1);
      assert CallStep(ms[i - 1], cs[i - 1], ms[i]);
      assert cs[..i][..i - 1] == cs[..i - 1];
    }
  }

  /**
   In every run, the streams come in order, four apart, each exactly if it is within the highest
   limit so far. A limit that stops an open is reported, once until it is raised.
   */
  lemma OpensInOrder(first: nat, ms: seq<Outgoing>, cs: seq<Call>, i: nat)
    requires CallRun(first, ms, cs) && i < |cs| && cs[i].Opens?
    ensures var next, limit := first + 4 * CountOpened(cs[..i]), Limit(cs[..i]);
      && cs[i].id == (if limit.Some? && next <= limit.value then Some(next) else None)
      && (cs[i].blocked.Some? <==> cs[i].id.None? && !FailedSinceRaise(cs[..i]))
      && (cs[i].blocked.Some? ==> cs[i].blocked.value == if limit.Some? then StreamNum(limit.value) else 0)
  {
    OpenerRemembers(first, ms, cs, i);
    assert CallStep(ms[i], cs[i], ms[i + 1]);
  }

  class OutgoingStreams {
    var streams: set<nat>
    var nextStream: nat
    var maxStream: nat
    var maxStreamSet: bool
    var blockedSent: bool

    function View(): Outgoing
      reads this
    {
      Outgoing(streams, nextStream, if maxStreamSet then Some(maxStream) else None, blockedSent)
    }

    constructor (t: StreamType, p: Perspective)
      ensures View() == Outgoing({}, First(t, p), None, false)
    {
      streams, nextStream := {}, First(t, p);
      maxStream, maxStreamSet, blockedSent := 0, false, false;
    }

    /** The new stream, or none; then `blocked` is the limit to report, once for each limit. */
    method OpenStream() returns (id: Option<nat>, blocked: Option<nat>)
      modifies this
      ensures View() == StreamOpened(old(View())) && (id, blocked) == OpenResult(old(View()))
      ensures id == if MayOpen(old(View())) then Some(old(nextStream)) else None
      ensures blocked == if id.Some? || old(blockedSent) then None
                         else Some(if maxStreamSet then StreamNum(maxStream) else 0)
    {
      blocked := None;
      if !maxStreamSet || nextStream > maxStream {
        if !blockedSent {
          blocked := Some(if maxStreamSet then StreamNum(maxStream) else 0);
          blockedSent := true;
        }
        return None, blocked;
      }
      id := Some(nextStream);
      streams := streams + {nextStream};
      nextStream := nextStream + 4;
    }

    method SetMaxStream(id: nat)
      modifies this
      ensures View() == MaxSet(old(View()), id)
    {
      if !maxStreamSet || id > maxStream {
        maxStream := id;
        maxStreamSet := true;
        blockedSent := false;
      }
    }

    method DeleteStream(id: nat) returns (ok: bool)
      modifies this
      ensures ok <==> id in old(streams)
      ensures View() == old(View()).(streams := old(streams) - {id})
    {
      ok := id in streams;
      streams := streams - {id};
    }
  }

  // ---------------------------------------------------------------- between two endpoints

  /** One kind of stream. `net` holds the count of every MAX_STREAMS frame and of the transport parameters. */
  datatype System = System(opener: Outgoing, acceptor: Incoming, net: set<nat>, rejected: bool)

  datatype Action =
    | Open
    | Arrive(id: nat)
    | Accept
    | Delete(id: nat)
    | Announce(n: nat)
    | Finish(id: nat)

  function Init(t: StreamType, p: Perspective, maxNum: nat): System {
    System(Outgoing({}, First(t, p), None, false), NewIncoming(t, p, maxNum), {maxNum}, false)
  }

  /** A frame arrives for any stream that the opener ever opened; a MAX_STREAMS frame at any time, or never. */
  function Next(t: StreamType, p: Perspective, s: System, a: Action): System {
    match a
    case Open => s.(opener := StreamOpened(s.opener))
    case Arrive(id) =>
      if id < s.opener.nextStream && id % 4 == First(t, p) then
        var (acceptor, r) := Opened(s.acceptor, id);
        s.(acceptor := acceptor, rejected := s.rejected || r == Rejected)
      else s
    case Accept => s.(acceptor := Accepted(s.acceptor).0)
    case Delete(id) =>
      var (acceptor, frame) := Deleted(s.acceptor, id);
      s.(acceptor := acceptor, net := if frame.Some? then s.net + {frame.value} else s.net)
    case Announce(n) =>
      if n in s.net then s.(opener := MaxSet(s.opener, MaxStreamID(t, n, p))) else s
    case Finish(id) => s.(opener := s.opener.(streams := s.opener.streams - {id}))
  }

  function Run(t: StreamType, p: Perspective, s: System, actions: seq<Action>): System
    decreases |actions|
  {
    if actions == [] then s else Run(t, p, Next(t, p, s, actions[0]), actions[1..])
  }

  /** The opener's credit, and what is in flight, is within the acceptor's limit `max`. */
  ghost predicate CreditInv(t: StreamType, p: Perspective, opener: Outgoing, net: set<nat>, max: nat) {
    && opener.nextStream % 4 == First(t, p)
    && (match opener.maxStream
        case None => opener.nextStream == First(t, p)
        case Some(m) => m % 4 == First(t, p) && opener.nextStream <= m + 4 && m <= max)
    && forall n :: n in net ==> n > 0 && MaxStreamID(t, n, p) <= max
  }

  ghost predicate SystemInv(t: StreamType, p: Perspective, s: System) {
    && !s.rejected
    && IncomingInv(s.acceptor, First(t, p))
    && CreditInv(t, p, s.opener, s.net, s.acceptor.maxStream)
  }

  lemma NextInv(t: StreamType, p: Perspective, s: System, a: Action)
    requires SystemInv(t, p, s)
    ensures SystemInv(t, p, Next(t, p, s, a))
  {
    match a
    case Open =>
    case Arrive(id) => ArriveInv(t, p, s, id);
    case Accept => AcceptedInv(s.acceptor, First(t, p));
    case Delete(id) => DeleteInv(t, p, s, id);
    case Announce(n) => AnnounceInv(t, p, s, n);
    case Finish(id) =>
  }

  /** What the opener uses is within what it was granted, and that within the limit. */
  lemma ArriveInv(t: StreamType, p: Perspective, s: System, id: nat)
    requires SystemInv(t, p, s)
    ensures SystemInv(t, p, Next(t, p, s, Arrive(id)))
  {
    if id < s.opener.nextStream && id % 4 == First(t, p) {
      OpenedInv(s.acceptor, First(t, p), id);
    }
  }

  /** A raised limit may be announced. */
  lemma LimitRaised(t: StreamType, p: Perspective, opener: Outgoing, net: set<nat>, max: nat)
    requires CreditInv(t, p, opener, net, max) && max % 4 == First(t, p)
    ensures CreditInv(t, p, opener, net + {StreamNum(max + 4)}, max + 4)
  {
    AnnouncedIs(t, p, max + 4);
    MoreCredit(t, p, opener, net, max, StreamNum(max + 4));
  }

  /** The number that is announced for a limit stands for it. */
  lemma AnnouncedIs(t: StreamType, p: Perspective, max: nat)
    requires max % 4 == First(t, p)
    ensures StreamNum(max) > 0 && MaxStreamID(t, StreamNum(max), p) == max
  {
    Kind(t, p, max);
    StreamNumInverse(t, StreamNum(max), p, max);
  }

  lemma MoreCredit(t: StreamType, p: Perspective, opener: Outgoing, net: set<nat>, max: nat, n: nat)
    requires CreditInv(t, p, opener, net, max) && n > 0 && MaxStreamID(t, n, p) <= max + 4
    ensures CreditInv(t, p, opener, net + {n}, max + 4)
  {
  }

  lemma LimitHasKind(m: Incoming, first: nat)
    requires IncomingInv(m, first)
    ensures m.maxStream % 4 == first
  {
    Shifted(m.nextToOpen, m.maxNum - |m.streams|, m.maxStream);
  }

  lemma Shifted(from: nat, k: nat, to: nat)
    requires to + 4 == from + 4 * k
    ensures to % 4 == from % 4
  {
    ByFour(from % 4, from / 4 + k - 1, to);
  }

  lemma DeleteInv(t: StreamType, p: Perspective, s: System, id: nat)
    requires SystemInv(t, p, s)
    ensures SystemInv(t, p, Next(t, p, s, Delete(id)))
  {
    if id in s.acceptor.streams {
      DeletedInv(s.acceptor, First(t, p), id);
      LimitHasKind(s.acceptor, First(t, p));
      LimitRaised(t, p, s.opener, s.net, s.acceptor.maxStream);
    } else {
      assert s.acceptor.streams - {id} == s.acceptor.streams;
    }
  }

  lemma AnnounceInv(t: StreamType, p: Perspective, s: System, n: nat)
    requires SystemInv(t, p, s)
    ensures SystemInv(t, p, Next(t, p, s, Announce(n)))
  {
  }

  lemma {:induction false} RunInv(t: StreamType, p: Perspective, s: System, actions: seq<Action>)
    requires SystemInv(t, p, s)
    ensures SystemInv(t, p, Run(t, p, s, actions))
    decreases |actions|
  {
    if actions != [] {
      NextInv(t, p, s, actions[0]);
      RunInv(t, p, Next(t, p, s, actions[0]), actions[1..]);
    }
  }

  /** No run makes the opener use a stream that the acceptor rejects, whatever the limit. */
  lemma NeverRejected(t: StreamType, p: Perspective, maxNum: nat, actions: seq<Action>)
    ensures !Run(t, p, Init(t, p, maxNum), actions).rejected
  {
    if maxNum > 0 {
      RunInv(t, p, Init(t, p, maxNum), actions);
    } else {
      ZeroRun(t, p, Init(t, p, 0), actions);
    }
  }

  /** In every run open streams and unused credit add up to a positive limit, and the opener stays within it. */
  lemma CreditIsExact(t: StreamType, p: Perspective, maxNum: nat, actions: seq<Action>)
    requires maxNum > 0
    ensures var s := Run(t, p, Init(t, p, maxNum), actions);
      && |s.acceptor.streams| + (s.acceptor.maxStream + 4 - s.acceptor.nextToOpen) / 4 == maxNum
      && (s.opener.maxStream.Some? ==> s.opener.nextStream <= s.acceptor.maxStream + 4)
  {
    RunInv(t, p, Init(t, p, maxNum), actions);
    MaxNumIsFixed(t, p, Init(t, p, maxNum), actions);
  }

  /** With a limit of zero no stream but 0 is ever used, and that one is not rejected. */
  ghost predicate ZeroInv(t: StreamType, p: Perspective, s: System) {
    && !s.rejected
    && s.acceptor.maxNum == 0 == s.acceptor.maxStream
    && (s.opener.maxStream.Some? ==> s.opener.maxStream.value == 0)
    && s.net <= {0}
    && s.opener.nextStream <= if First(t, p) == 0 then 4 else First(t, p)
  }

  lemma {:induction false} ZeroRun(t: StreamType, p: Perspective, s: System, actions: seq<Action>)
    requires ZeroInv(t, p, s) && s.opener.nextStream % 4 == First(t, p)
    ensures !Run(t, p, s, actions).rejected
    decreases |actions|
  {
    if actions != [] {
      ZeroRun(t, p, Next(t, p, s, actions[0]), actions[1..]);
    }
  }

  lemma {:induction false} MaxNumIsFixed(t: StreamType, p: Perspective, s: System, actions: seq<Action>)
    ensures Run(t, p, s, actions).acceptor.maxNum == s.acceptor.maxNum
    decreases |actions|
  {
    if actions != [] {
      MaxNumIsFixed(t, p, Next(t, p, s, actions[0]), actions[1..]);
    }
  }

  // ---------------------------------------------------------------- accepting streams

  /** If a stream ends before it is accepted, neither it nor any later stream is accepted in the rest of any run. */
  lemma {:induction false} AcceptWaitsForever(t: StreamType, p: Perspective, s: System, actions: seq<Action>, h: nat)
    requires SystemInv(t, p, s) && Hole(s.acceptor, First(t, p), h)
    ensures var m := Run(t, p, s, actions).acceptor;
      && Hole(m, First(t, p), h)
      && (Accepted(m).1.Some? ==> Accepted(m).1.value < h)
    decreases |actions|
  {
    HoleStays(s.acceptor, First(t, p), h, 0);
    if actions != [] {
      NextInv(t, p, s, actions[0]);
      if actions[0].Arrive? || actions[0].Delete? {
        HoleStays(s.acceptor, First(t, p), h, actions[0].id);
      }
      AcceptWaitsForever(t, p, Next(t, p, s, actions[0]), actions[1..], h);
    }
  }

  /** The run in which the first stream is deleted before it is accepted. */
  lemma HoleIsReached(t: StreamType, p: Perspective, maxNum: nat)
    requires maxNum > 0
    ensures var first := First(t, p);
      Hole(Run(t, p, Init(t, p, maxNum), [Announce(maxNum), Open, Arrive(first), Delete(first)]).acceptor, first, first)
  {
    var first := First(t, p);
    var s := FirstIsOpen(t, p, maxNum);
    RunFour(t, p, Init(t, p, maxNum), Announce(maxNum), Open, Arrive(first), Delete(first));
  }

  lemma FirstIsOpen(t: StreamType, p: Perspective, maxNum: nat) returns (s: System)
    requires maxNum > 0
    ensures s == Next(t, p, Next(t, p, Next(t, p, Init(t, p, maxNum), Announce(maxNum)), Open), Arrive(First(t, p)))
    ensures s.acceptor.streams == {First(t, p)} && s.acceptor.nextToAccept == First(t, p) && s.acceptor.nextToOpen == First(t, p) + 4
  {
    var first := First(t, p);
    s := Next(t, p, Next(t, p, Init(t, p, maxNum), Announce(maxNum)), Open);
    assert s.opener.nextStream == first + 4 && s.acceptor == NewIncoming(t, p, maxNum);
    AddUpToAdds({}, first, first, 1);
    assert AddUpTo({}, first, first) == AddUpTo({first}, first + 4, first) == {first};
    s := Next(t, p, s, Arrive(first));
  }

  lemma RunFour(t: StreamType, p: Perspective, s: System, a: Action, b: Action, c: Action, d: Action)
    ensures Run(t, p, s, [a, b, c, d]) == Next(t, p, Next(t, p, Next(t, p, Next(t, p, s, a), b), c), d)
  {
    var s1 := Next(t, p, s, a);
    var s2 := Next(t, p, s1, b);
    var s3 := Next(t, p, s2, c);
    assert [a, b, c, d][1..] == [b, c, d] && [b, c, d][1..] == [c, d] && [c, d][1..] == [d] && [d][1..] == [];
    assert Run(t, p, s3, [d]) == Next(t, p, s3, d);
    assert Run(t, p, s2, [c, d]) == Run(t, p, s3, [d]);
    assert Run(t, p, s1, [b, c, d]) == Run(t, p, s2, [c, d]);
  }

  /** Every stream that is deleted in the run was accepted before. */
  ghost predicate Careful(t: StreamType, p: Perspective, s: System, actions: seq<Action>)
    decreases |actions|
  {
    actions == []
    || (&& (actions[0].Delete? && actions[0].id in s.acceptor.streams ==> actions[0].id < s.acceptor.nextToAccept)
        && Careful(t, p, Next(t, p, s, actions[0]), actions[1..]))
  }

  lemma {:induction false} NoHolesFromIff(t: StreamType, p: Perspective, s: System, actions: seq<Action>)
    requires SystemInv(t, p, s) && NoHoles(s.acceptor, First(t, p))
    ensures NoHoles(Run(t, p, s, actions).acceptor, First(t, p)) <==> Careful(t, p, s, actions)
    decreases |actions|
  {
    if actions != [] {
      var s' := Next(t, p, s, actions[0]);
      NextInv(t, p, s, actions[0]);
      HoleFreeStep(t, p, s, actions[0]);
      if NoHoles(s'.acceptor, First(t, p)) {
        NoHolesFromIff(t, p, s', actions[1..]);
      } else {
        var h :| Hole(s'.acceptor, First(t, p), h);
        AcceptWaitsForever(t, p, s', actions[1..], h);
      }
    }
  }

  /** A run leaves no hole, so that accepting goes on, exactly if it deletes only accepted streams. */
  lemma NoHolesIff(t: StreamType, p: Perspective, maxNum: nat, actions: seq<Action>)
    requires maxNum > 0
    ensures NoHoles(Run(t, p, Init(t, p, maxNum), actions).acceptor, First(t, p)) <==> Careful(t, p, Init(t, p, maxNum), actions)
  {
    NoHolesFromIff(t, p, Init(t, p, maxNum), actions);
  }

  lemma HoleFreeStep(t: StreamType, p: Perspective, s: System, a: Action)
    requires SystemInv(t, p, s) && NoHoles(s.acceptor, First(t, p))
    ensures NoHoles(Next(t, p, s, a).acceptor, First(t, p)) <==>
      (a.Delete? && a.id in s.acceptor.streams ==> a.id < s.acceptor.nextToAccept)
  {
    var m, first := s.acceptor, First(t, p);
    match a
    case Arrive(id) =>
      if id % 4 == first {
        OpenedMakesNoHole(m, first, id);
      }
    case Delete(id) =>
      if id in m.streams {
        DeletedLeavesNoHoleIff(m, first, id);
      } else {
        assert m.streams - {id} == m.streams;
      }
    case Accept =>
      forall h: nat
        ensures !Hole(Accepted(m).0, first, h)
      {
        assert !Hole(m, first, h);
      }
    case Open =>
    case Announce(_) =>
    case Finish(_) =>
  }

  // ---------------------------------------------------------------- a limit of zero

  ghost predicate NothingOpen(t: StreamType, p: Perspective, s: System) {
    && s.acceptor.streams == {}
    && s.opener.streams == {}
    && s.opener.nextStream == First(t, p)
    && s.acceptor.maxNum == 0 == s.acceptor.maxStream
    && (s.opener.maxStream.Some? ==> s.opener.maxStream.value == 0)
    && s.net <= {0}
  }

  lemma {:induction false} NothingOpens(t: StreamType, p: Perspective, s: System, actions: seq<Action>)
    requires First(t, p) > 0 && NothingOpen(t, p, s)
    ensures NothingOpen(t, p, Run(t, p, s, actions))
    decreases |actions|
  {
    if actions != [] {
      NothingOpens(t, p, Next(t, p, s, actions[0]), actions[1..]);
    }
  }

  /** A limit of zero streams is kept in every run exactly unless the first stream has ID 0. */
  lemma ZeroLimitIff(t: StreamType, p: Perspective)
    ensures (forall actions: seq<Action> :: Run(t, p, Init(t, p, 0), actions).acceptor.streams == {})
      <==> !(t == Bidi && p == Client)
  {
    if First(t, p) > 0 {
      forall actions: seq<Action>
        ensures Run(t, p, Init(t, p, 0), actions).acceptor.streams == {}
      {
        NothingOpens(t, p, Init(t, p, 0), actions);
      }
    } else {
      StreamZero(t, p);
    }
  }

  lemma StreamZero(t: StreamType, p: Perspective)
    requires t == Bidi && p == Client
    ensures 0 in Run(t, p, Init(t, p, 0), [Announce(0), Open, Arrive(0)]).acceptor.streams
  {
    var s0 := Init(t, p, 0);
    var actions := [Announce(0), Open, Arrive(0)];
    var s1 := Next(t, p, s0, Announce(0));
    var s2 := Next(t, p, s1, Open);
    assert actions[1..] == [Open, Arrive(0)] && actions[1..][1..] == [Arrive(0)] && [Arrive(0)][1..] == [];
    assert Run(t, p, s0, actions) == Run(t, p, s1, actions[1..]) == Run(t, p, s2, [Arrive(0)]);
    assert AddUpTo({0}, 4, 0) == {0};
  }
}
