/** Which streams and control frames go into the next packet. */
module Framer {
  import opened Protocol
  import opened StreamFrames
  import opened Packer

  /** What a stream answers when asked for a frame; `Gone` if it was completed meanwhile. */
  datatype Answer = Gone | Popped(frame: Option<StreamFrame>, hasMore: bool)

  /** The answers of all streams, for each amount of room. No stream is asked twice for one packet. */
  type Streams = (nat, nat) -> Answer

  /** What streams promise: their frames have a length field and fit. */
  ghost predicate WellBehaved(poll: Streams) {
    forall id: nat, room: nat :: room <= 16384 ==> Kept(poll(id, room), room)
  }

  datatype State = State(active: set<nat>, queue: seq<nat>)

  /** The active streams are those in the queue, each once. */
  ghost predicate Inv(s: State) {
    Distinct(s.queue) && s.active == set id | id in s.queue
  }

  function Added(s: State, id: nat): State {
    if id in s.active then s else State(s.active + {id}, s.queue + [id])
  }

  datatype Round = Round(state: State, frames: seq<StreamFrame>, polled: seq<nat>)

  function FrameOf(a: Answer): Option<StreamFrame> {
    if a.Popped? then a.frame else None
  }

  function HandedOut(a: Answer): seq<StreamFrame> {
    if FrameOf(a).Some? then [FrameOf(a).value] else []
  }

  function SizeOf(a: Answer): nat {
    if FrameOf(a).Some? && FrameOf(a).value.Encodable() then StreamFrames.Length(FrameOf(a).value) else 0
  }

  function Back(a: Answer, id: nat): seq<nat> {
    if a.Popped? && a.hasMore then [id] else []
  }

  /** The stream goes to the end of the queue, or is not active any more. */
  function Answered(s: State, a: Answer): State
    requires s.queue != []
  {
    if a.Popped? && a.hasMore then State(s.active, s.queue[1..] + [s.queue[0]])
    else State(s.active - {s.queue[0]}, s.queue[1..])
  }

  /** Asks up to `n` streams from the front of the queue while enough room is left. */
  function Poll(s: State, n: nat, room: int, poll: Streams): Round
    requires n <= |s.queue|
    decreases n
  {
    if n == 0 || room < MIN_STREAM_FRAME_SIZE then Round(s, [], [])
    else
      var a := poll(s.queue[0], room);
      var r := Poll(Answered(s, a), n - 1, room - SizeOf(a), poll);
      Round(r.state, HandedOut(a) + r.frames, [s.queue[0]] + r.polled)
  }

  /** `r` is the round that polls `n` streams. */
  ghost predicate Polls(s: State, n: int, room: int, poll: Streams, r: Round) {
    0 <= n <= |s.queue| && r == Poll(s, n, room, poll)
  }

  // ---------------------------------------------------------------- the queue

  lemma AddedInv(s: State, id: nat)
    requires Inv(s)
    ensures Inv(Added(s, id)) && id in Added(s, id).active
  {
  }

  lemma AnsweredInv(s: State, a: Answer)
    requires Inv(s) && s.queue != []
    ensures Inv(Answered(s, a))
  {
    assert s.queue == [s.queue[0]] + s.queue[1..];
  }

  /** Polling keeps the invariant, and asks a prefix of the queue, so each stream at most once. */
  lemma {:induction false} PollInv(s: State, n: nat, room: int, poll: Streams)
    requires Inv(s) && n <= |s.queue|
    ensures var r := Poll(s, n, room, poll);
      && Inv(r.state)
      && |r.polled| <= n && r.polled == s.queue[..|r.polled|]
      && s.queue[|r.polled|..] <= r.state.queue
    decreases n
  {
    if n > 0 && room >= MIN_STREAM_FRAME_SIZE {
      var a := poll(s.queue[0], room);
      var s' := Answered(s, a);
      AnsweredInv(s, a);
      PollInv(s', n - 1, room - SizeOf(a), poll);
      var r := Poll(s', n - 1, room - SizeOf(a), poll);
      PrefixShifts(s.queue, s'.queue, r.polled, r.state.queue);
    }
  }

  lemma PrefixShifts(q: seq<nat>, q': seq<nat>, polled: seq<nat>, end: seq<nat>)
    requires q != [] && q[1..] <= q' && |polled| < |q|
    requires polled == q'[..|polled|] && q'[|polled|..] <= end
    ensures [q[0]] + polled == q[..|polled| + 1] && q[|polled| + 1..] <= end
  {
    assert q[1..][..|polled|] == q'[..|polled|];
    assert q == [q[0]] + q[1..];
    assert q[|polled| + 1..] == q[1..][|polled|..];
    assert q[1..][|polled|..] <= q'[|polled|..];
  }

  /** The frames that these streams hand out in turn, and which of them have more. */
  function Asked(ids: seq<nat>, room: int, poll: Streams): (seq<StreamFrame>, seq<nat>) {
    if ids == [] || room < 0 then ([], [])
    else
      var a := poll(ids[0], room);
      var (frames, more) := Asked(ids[1..], room - SizeOf(a), poll);
      (HandedOut(a) + frames, Back(a, ids[0]) + more)
  }

  lemma AskedNext(ids: seq<nat>, k: nat, room: nat, poll: Streams)
    requires k < |ids|
    ensures var a := poll(ids[0], room);
      var (frames, more) := Asked(ids[1..][..k], room - SizeOf(a), poll);
      Asked(ids[..k + 1], room, poll) == (HandedOut(a) + frames, Back(a, ids[0]) + more)
  {
    assert ids[..k + 1][1..] == ids[1..][..k];
  }

  /** What is left of a queue after its head was asked and `k` more were. */
  lemma QueueAfter(q: seq<nat>, back: seq<nat>, k: nat, more: seq<nat>)
    requires k < |q|
    ensures (q[1..] + back)[..k] == q[1..][..k]
    ensures (q[1..] + back)[k..] + more == q[k + 1..] + (back + more)
  {
    assert (q[1..] + back)[k..] == q[1..][k..] + back;
  }

  lemma KeepsAllNext(q: seq<nat>, room: nat, poll: Streams, a: Answer, k: nat, frames: seq<StreamFrame>, end: seq<nat>)
    requires k < |q| && a == poll(q[0], room)
    requires var q' := q[1..] + Back(a, q[0]);
      var asked := Asked(q'[..k], room - SizeOf(a), poll);
      frames == asked.0 && end == q'[k..] + asked.1
    ensures Asked(q[..k + 1], room, poll).0 == HandedOut(a) + frames
    ensures end == q[k + 1..] + Asked(q[..k + 1], room, poll).1
  {
    var q' := q[1..] + Back(a, q[0]);
    QueueAfter(q, Back(a, q[0]), k, Asked(q'[..k], room - SizeOf(a), poll).1);
    AskedNext(q, k, room, poll);
  }

  /** No frame is lost, and the streams that have more wait behind those that were not asked. */
  lemma {:induction false} PollKeepsAll(s: State, n: nat, room: int, poll: Streams, r: Round)
    requires Polls(s, n, room, poll, r)
    ensures |r.polled| <= n
    ensures r.frames == Asked(s.queue[..|r.polled|], room, poll).0
    ensures r.state.queue == s.queue[|r.polled|..] + Asked(s.queue[..|r.polled|], room, poll).1
    decreases n
  {
    if n > 0 && room >= MIN_STREAM_FRAME_SIZE {
      var a := poll(s.queue[0], room);
      var s' := Answered(s, a);
      var more := Poll(s', n - 1, room - SizeOf(a), poll);
      assert s'.queue == s.queue[1..] + Back(a, s.queue[0]);
      PollKeepsAll(s', n - 1, room - SizeOf(a), poll, more);
      KeepsAllNext(s.queue, room, poll, a, |more.polled|, more.frames, more.state.queue);
    }
  }

  // ---------------------------------------------------------------- what a round does

  /**
   The streams of `queue` are asked in turn, each for the room the frames before it left, until too
   little is left: `frames` are theirs, `back` are those that have more, and `rest` were not asked.
   */
  ghost predicate IsRound(queue: seq<nat>, room: int, poll: Streams, frames: seq<StreamFrame>, back: seq<nat>, rest: seq<nat>)
    decreases |queue|
  {
    if queue == [] || room < MIN_STREAM_FRAME_SIZE then frames == [] && back == [] && rest == queue
    else
      match poll(queue[0], room)
      case Gone => IsRound(queue[1..], room, poll, frames, back, rest)
      case Popped(frame, hasMore) =>
        && (hasMore ==> back != [] && back[0] == queue[0])
        && var back' := if hasMore then back[1..] else back;
        match frame
        case None => IsRound(queue[1..], room, poll, frames, back', rest)
        case Some(f) =>
          f.Encodable() && frames != [] && frames[0] == f
          && IsRound(queue[1..], room - StreamFrames.Length(f), poll, frames[1..], back', rest)
  }

  /** A packet asks the streams of `queue`, gets `frames`, and leaves `queue'`: those not asked, then those that have more. */
  ghost predicate TakesFrames(queue: seq<nat>, room: int, poll: Streams, frames: seq<StreamFrame>, queue': seq<nat>) {
    exists back: seq<nat>, rest: seq<nat> :: IsRound(queue, room, poll, frames, back, rest) && queue' == rest + back
  }

  lemma RoundInFront(queue: seq<nat>, room: nat, poll: Streams, frames: seq<StreamFrame>, back: seq<nat>, rest: seq<nat>)
    requires WellBehaved(poll) && queue != [] && MIN_STREAM_FRAME_SIZE <= room <= 16384
    requires var a := poll(queue[0], room); IsRound(queue[1..], room - SizeOf(a), poll, frames, back, rest)
    ensures var a := poll(queue[0], room); IsRound(queue, room, poll, HandedOut(a) + frames, Back(a, queue[0]) + back, rest)
  {
    var a := poll(queue[0], room);
    PollPromise(poll, queue[0], room);
    assert Back(a, queue[0]) == [] ==> Back(a, queue[0]) + back == back;
    assert Back(a, queue[0]) != [] ==> (Back(a, queue[0]) + back)[1..] == back;
    assert HandedOut(a) == [] ==> HandedOut(a) + frames == frames;
    assert HandedOut(a) != [] ==> (HandedOut(a) + frames)[1..] == frames;
  }

  lemma QueueShifts(q: seq<nat>, n: nat, first: seq<nat>, q': seq<nat>, rest: seq<nat>, back: seq<nat>)
    requires 0 < n <= |q| && q' == q[1..] + first
    ensures q'[..n - 1] == q[..n][1..]
    ensures rest + q'[n - 1..] + back == rest + q[n..] + (first + back)
  {
    assert q'[n - 1..] == q[n..] + first;
  }

  lemma {:induction false} PollIsRound(s: State, n: nat, room: int, poll: Streams, r: Round) returns (back: seq<nat>, rest: seq<nat>)
    requires Polls(s, n, room, poll, r) && WellBehaved(poll) && room <= 16384
    ensures IsRound(s.queue[..n], room, poll, r.frames, back, rest)
    ensures r.state.queue == rest + s.queue[n..] + back
    decreases n
  {
    if n == 0 || room < MIN_STREAM_FRAME_SIZE {
      back, rest := [], s.queue[..n];
      assert s.queue == s.queue[..n] + s.queue[n..];
    } else {
      var a := poll(s.queue[0], room);
      PollPromise(poll, s.queue[0], room);
      var s' := Answered(s, a);
      var more := Poll(s', n - 1, room - SizeOf(a), poll);
      back, rest := PollIsRound(s', n - 1, room - SizeOf(a), poll, more);
      QueueShifts(s.queue, n, Back(a, s.queue[0]), s'.queue, rest, back);
      RoundInFront(s.queue[..n], room, poll, more.frames, back, rest);
      back := Back(a, s.queue[0]) + back;
    }
  }

  lemma PollTakesFrames(s: State, room: nat, poll: Streams, r: Round)
    requires Polls(s, |s.queue|, room, poll, r) && WellBehaved(poll) && room <= 16384
    ensures TakesFrames(s.queue, room, poll, r.frames, r.state.queue)
  {
    var back, rest := PollIsRound(s, |s.queue|, room, poll, r);
    assert s.queue[..|s.queue|] == s.queue;
    assert rest + s.queue[|s.queue|..] + back == rest + back;
  }

  // ---------------------------------------------------------------- fairness

  datatype Event = Activate(id: nat) | FillPacket(maxLen: nat, poll: Streams)

  function Step(s: State, e: Event): Round {
    match e
    case Activate(id) => Round(Added(s, id), [], [])
    case FillPacket(maxLen, poll) => Poll(s, |s.queue|, maxLen, poll)
  }

  /** The streams asked in a run, in order. */
  function AllPolled(s: State, es: seq<Event>): seq<nat>
    decreases |es|
  {
    if es == [] then []
    else
      var r := Step(s, es[0]);
      r.polled + AllPolled(r.state, es[1..])
  }

  lemma StepKeepsOrder(s: State, e: Event)
    requires Inv(s)
    ensures var r := Step(s, e);
      && Inv(r.state)
      && |r.polled| <= |s.queue| && r.polled == s.queue[..|r.polled|]
      && s.queue[|r.polled|..] <= r.state.queue
  {
    match e
    case Activate(id) => AddedInv(s, id);
    case FillPacket(maxLen, poll) => PollInv(s, |s.queue|, maxLen, poll);
  }

  /** In every run the stream at position `k` of the queue is asked right after the `k` streams before it, whatever becomes active meanwhile. */
  lemma {:induction false} AskedInTurn(s: State, es: seq<Event>, k: nat)
    requires Inv(s) && k < |s.queue| && k < |AllPolled(s, es)|
    ensures AllPolled(s, es)[k] == s.queue[k]
    decreases |es|
  {
    StepKeepsOrder(s, es[0]);
    var r := Step(s, es[0]);
    if k >= |r.polled| {
      assert r.state.queue[k - |r.polled|] == s.queue[|r.polled|..][k - |r.polled|];
      AskedInTurn(r.state, es[1..], k - |r.polled|);
    }
  }

  /** Each packet with enough room asks at least one stream, if there is one. */
  lemma SomeStreamIsAsked(s: State, maxLen: nat, poll: Streams)
    requires s.queue != [] && maxLen >= MIN_STREAM_FRAME_SIZE
    ensures Step(s, FillPacket(maxLen, poll)).polled != []
  {
  }

  /** How many packets of a run have enough room to ask a stream. */
  function Roomy(es: seq<Event>): nat {
    if es == [] then 0
    else (if es[0].FillPacket? && es[0].maxLen >= MIN_STREAM_FRAME_SIZE then 1 else 0) + Roomy(es[1..])
  }

  /** The stream at position `k` is asked before `k + 1` packets with enough room are filled, after exactly `k` others. */
  lemma {:induction false} WaitIsBounded(s: State, es: seq<Event>, k: nat)
    requires Inv(s) && k < |s.queue| && k < Roomy(es)
    ensures k < |AllPolled(s, es)| && AllPolled(s, es)[k] == s.queue[k]
    decreases |es|
  {
    StepKeepsOrder(s, es[0]);
    var r := Step(s, es[0]);
    if es[0].FillPacket? && es[0].maxLen >= MIN_STREAM_FRAME_SIZE {
      SomeStreamIsAsked(s, es[0].maxLen, es[0].poll);
    }
    if k >= |r.polled| {
      var k' := k - |r.polled|;
      assert r.state.queue[k'] == s.queue[|r.polled|..][k'];
      WaitIsBounded(r.state, es[1..], k');
    }
  }

  // ---------------------------------------------------------------- sizes

  /** The frames fit, and have a length field. */
  ghost predicate Fit(fs: seq<StreamFrame>, room: int) {
    AllEncodable(fs) && StreamSize(fs) <= room && forall f :: f in fs ==> f.hasLen
  }

  /** What one stream promises. */
  ghost predicate Kept(a: Answer, room: nat) {
    match FrameOf(a)
    case None => true
    case Some(f) => f.hasLen && f.Encodable() && StreamFrames.Length(f) <= room
  }

  /** A round asks the first stream, and goes on with the room that is left. */
  lemma PollStep(s: State, n: nat, room: nat, poll: Streams, r: Round)
    returns (s': State, popped: seq<StreamFrame>, size: nat, more: Round)
    requires Polls(s, n, room, poll, r) && n > 0 && WellBehaved(poll) && MIN_STREAM_FRAME_SIZE <= room <= 16384
    ensures |popped| <= 1 && Fit(popped, size) && size <= room
    ensures Polls(s', n - 1, room - size, poll, more) && r.frames == popped + more.frames
  {
    var a := poll(s.queue[0], room);
    PollPromise(poll, s.queue[0], room);
    s', popped, size := Answered(s, a), HandedOut(a), SizeOf(a);
    more := Poll(s', n - 1, room - size, poll);
  }

  lemma {:induction false} PollFits(s: State, n: nat, room: nat, poll: Streams, r: Round)
    requires Polls(s, n, room, poll, r) && WellBehaved(poll) && room <= 16384
    ensures Fit(r.frames, room)
    decreases n
  {
    if n > 0 && room >= MIN_STREAM_FRAME_SIZE {
      var s', popped, size, more := PollStep(s, n, room, poll, r);
      PollFits(s', n - 1, room - size, poll, more);
      MoreFits(popped, size, more.frames, room);
    }
  }

  lemma MoreFits(popped: seq<StreamFrame>, size: nat, fs: seq<StreamFrame>, room: nat)
    requires |popped| <= 1 && Fit(popped, size) && Fit(fs, room - size)
    ensures Fit(popped + fs, room)
  {
    if popped == [] {
      assert [] + fs == fs;
    } else {
      OneMoreFits(popped[0], fs);
      assert popped == [popped[0]] && StreamSize(popped) == StreamFrames.Length(popped[0]) + StreamSize(popped[1..]);
    }
  }

  lemma OneMoreFits(f: StreamFrame, fs: seq<StreamFrame>)
    requires f.Encodable() && AllEncodable(fs)
    ensures AllEncodable([f] + fs) && StreamSize([f] + fs) == StreamFrames.Length(f) + StreamSize(fs)
  {
    assert ([f] + fs)[1..] == fs;
  }

  /** Dropping the length field of the last frame saves at least one byte. */
  lemma {:induction false} LastSavesAByte(streams: seq<StreamFrame>)
    requires AllEncodable(streams) && streams != [] && forall f :: f in streams ==> f.hasLen
    ensures StreamSize(LastWithoutLen(streams)) < StreamSize(streams)
    ensures OnlyLastWithoutLen(LastWithoutLen(streams))
  {
    if |streams| > 1 {
      LastSavesAByte(streams[1..]);
      var last := LastWithoutLen(streams[1..]);
      assert ([streams[0]] + last)[1..] == last;
    }
  }

  // ---------------------------------------------------------------- control frames

  /** Control frames are taken from the end of the list, the last queued first. */
  function Reversed(controls: seq<ControlFrame>): (r: seq<ControlFrame>)
    ensures |r| == |controls|
  {
    seq(|controls|, i requires 0 <= i < |controls| => controls[|controls| - 1 - i])
  }

  /** No control frame is lost, those taken fit, and the next one would not. */
  lemma ControlsAreKept(controls: seq<ControlFrame>, room: nat)
    ensures var n := Fitting(Reversed(controls), room);
      && controls == controls[..|controls| - n] + Reversed(Reversed(controls)[..n])
      && ControlSize(Reversed(controls)[..n]) <= room
      && (n < |controls| ==> ControlSize(Reversed(controls)[..n]) + controls[|controls| - 1 - n].size > room)
  {
    FittingIsMaximal(Reversed(controls), room);
  }

  /** `taken` are the last of `controls`, the very last first, and `kept` are the others. */
  ghost predicate TakenFromEnd(controls: seq<ControlFrame>, kept: seq<ControlFrame>, taken: seq<ControlFrame>) {
    && |controls| == |kept| + |taken|
    && (forall i :: 0 <= i < |kept| ==> kept[i] == controls[i])
    && (forall i :: 0 <= i < |taken| ==> taken[i] == controls[|controls| - 1 - i])
  }

  lemma TakenFits(controls: seq<ControlFrame>, room: nat, n: nat)
    requires n == Fitting(Reversed(controls), room)
    ensures TakenFromEnd(controls, controls[..|controls| - n], Reversed(controls)[..n])
    ensures n < |controls| ==> ControlSize(Reversed(controls)[..n]) + controls[|controls| - n - 1].size > room
  {
    FittingIsMaximal(Reversed(controls), room);
  }

  // ---------------------------------------------------------------- the framer

  /** A round that continues one with these frames. */
  function Continued(frames: seq<StreamFrame>, polled: seq<nat>, r: Round): Round {
    Round(r.state, frames + r.frames, polled + r.polled)
  }

  lemma ContinuedTwice(frames: seq<StreamFrame>, polled: seq<nat>, frames': seq<StreamFrame>, polled': seq<nat>, r: Round)
    ensures Continued(frames, polled, Continued(frames', polled', r)) == Continued(frames + frames', polled + polled', r)
  {
    assert frames + (frames' + r.frames) == (frames + frames') + r.frames;
    assert polled + (polled' + r.polled) == (polled + polled') + r.polled;
  }

  /** The next frame of those that fit. */
  lemma FittingNext(all: seq<ControlFrame>, k: nat, room: nat)
    requires k < |all|
    ensures Fitting(all[k..], room) == if all[k].size > room then 0 else 1 + Fitting(all[k + 1..], room - all[k].size)
  {
    assert all[k..][1..] == all[k + 1..];
  }

  /** Takes frames from the end while they fit. */
  method TakeLast(controls: seq<ControlFrame>, maxLen: nat)
    returns (frames: seq<ControlFrame>, kept: seq<ControlFrame>, length: nat)
    ensures var n := Fitting(Reversed(controls), maxLen);
      frames == Reversed(controls)[..n] && kept == controls[..|controls| - n]
    ensures length == ControlSize(frames) <= maxLen
  {
    frames, kept, length := [], controls, 0;
    ghost var all := Reversed(controls);
    while kept != []
      invariant length <= maxLen && |frames| + |kept| == |all|
      invariant kept == controls[..|kept|] && frames == all[..|frames|]
      invariant |frames| + Fitting(all[|frames|..], maxLen - length) == Fitting(all, maxLen)
      invariant length == ControlSize(frames)
    {
      var frame := kept[|kept| - 1];
      FittingNext(all, |frames|, maxLen - length);
      if length + frame.size > maxLen {
        break;
      }
      OneMoreTaken(controls, kept, frames, frame);
      frames, kept, length := frames + [frame], kept[..|kept| - 1], length + frame.size;
    }
  }

  lemma OneMoreTaken(controls: seq<ControlFrame>, kept: seq<ControlFrame>, frames: seq<ControlFrame>, frame: ControlFrame)
    requires kept != [] && |frames| + |kept| == |controls| && kept == controls[..|kept|] && frame == kept[|kept| - 1]
    requires frames == Reversed(controls)[..|frames|]
    ensures kept[..|kept| - 1] == controls[..|kept| - 1]
    ensures frames + [frame] == Reversed(controls)[..|frames| + 1]
    ensures ControlSize(frames + [frame]) == ControlSize(frames) + frame.size
  {
    ControlSizeSnoc(Reversed(controls), |frames|);
  }

  class FrameSource {
    var activeStreams: set<nat>
    var streamQueue: seq<nat>
    var controlFrames: seq<ControlFrame>

    function View(): State
      reads this
    {
      State(activeStreams, streamQueue)
    }

    constructor ()
      ensures Inv(View()) && View() == State({}, []) && controlFrames == []
    {
      activeStreams, streamQueue, controlFrames := {}, [], [];
    }

    method QueueControlFrame(frame: ControlFrame)
      modifies this
      ensures controlFrames == old(controlFrames) + [frame] && View() == old(View())
    {
      controlFrames := controlFrames + [frame];
    }

    method AppendControlFrames(maxLen: nat) returns (frames: seq<ControlFrame>, length: nat)
      modifies this
      ensures View() == old(View())
      ensures var n := Fitting(Reversed(old(controlFrames)), maxLen);
        && frames == Reversed(old(controlFrames))[..n]
        && controlFrames == old(controlFrames)[..|old(controlFrames)| - n]
      ensures length == ControlSize(frames) <= maxLen
      ensures TakenFromEnd(old(controlFrames), controlFrames, frames)
      ensures controlFrames != [] ==> length + controlFrames[|controlFrames| - 1].size > maxLen
    {
      TakenFits(controlFrames, maxLen, Fitting(Reversed(controlFrames), maxLen));
      frames, controlFrames, length := TakeLast(controlFrames, maxLen);
    }

    method AddActiveStream(id: nat)
      modifies this
      ensures View() == Added(old(View()), id) && controlFrames == old(controlFrames)
    {
      if id !in activeStreams {
        streamQueue := streamQueue + [id];
        activeStreams := activeStreams + {id};
      }
    }

    method AppendStreamFrames(maxLen: nat, poll: Streams) returns (frames: seq<StreamFrame>, ghost polled: seq<nat>)
      requires WellBehaved(poll) && maxLen <= 16384
      modifies this
      ensures controlFrames == old(controlFrames)
      ensures Round(View(), frames, polled) == Poll(old(View()), |old(streamQueue)|, maxLen, poll)
      ensures TakesFrames(old(streamQueue), maxLen, poll, frames, streamQueue)
    {
      var s;
      ghost var all := Poll(View(), |streamQueue|, maxLen, poll);
      PollTakesFrames(View(), maxLen, poll, all);
      s, frames, polled := AskStreams(View(), maxLen, poll, all);
      activeStreams, streamQueue := s.active, s.queue;
    }
  }

  /** Asks the stream at the front and adds its frame; `more` is the rest of the round. */
  method AskFront(s: State, room: nat, poll: Streams, frames: seq<StreamFrame>, ghost polled: seq<nat>, ghost n: nat, ghost todo: Round)
    returns (s': State, frames': seq<StreamFrame>, ghost polled': seq<nat>, size: nat, ghost more: Round)
    requires Polls(s, n, room, poll, todo) && n > 0 && WellBehaved(poll) && MIN_STREAM_FRAME_SIZE <= room <= 16384
    ensures size <= room && Polls(s', n - 1, room - size, poll, more)
    ensures Continued(frames', polled', more) == Continued(frames, polled, todo)
  {
    var id := s.queue[0];
    var a := poll(id, room);
    PollPromise(poll, id, room);
    size := if FrameOf(a).Some? then StreamFrames.Length(FrameOf(a).value) else 0;
    more := Poll(Answered(s, a), n - 1, room - size, poll);
    ContinuedTwice(frames, polled, HandedOut(a), [id], more);
    frames', polled' := frames + HandedOut(a), polled + [id];
    var queue, active := s.queue[1..], s.active;
    if a.Popped? && a.hasMore {
      queue := queue + [id];
    } else {
      active := active - {id};
    }
    s' := State(active, queue);
  }

  method AskStreams(s0: State, maxLen: nat, poll: Streams, ghost all: Round)
    returns (s: State, frames: seq<StreamFrame>, ghost polled: seq<nat>)
    requires WellBehaved(poll) && maxLen <= 16384 && Polls(s0, |s0.queue|, maxLen, poll, all)
    ensures Round(s, frames, polled) == all
  {
    s, frames, polled := s0, [], [];
    var length: nat := 0;
    var numActiveStreams := |s0.queue|;
    ghost var todo := all;
    ContinuedFromNothing(all);
    var i := 0;
    while i < numActiveStreams
      invariant 0 <= i <= numActiveStreams && length <= maxLen
      invariant Polls(s, numActiveStreams - i, maxLen - length, poll, todo)
      invariant Continued(frames, polled, todo) == all
    {
      if maxLen - length < MIN_STREAM_FRAME_SIZE {
        break;
      }
      var size;
      s, frames, polled, size, todo := AskFront(s, maxLen - length, poll, frames, polled, numActiveStreams - i, todo);
      length := length + size;
      i := i + 1;
    }
    RoundEnds(s, numActiveStreams - i, maxLen - length, poll, todo);
    ContinuedByNothing(frames, polled, s);
  }

  lemma ContinuedFromNothing(r: Round)
    ensures Continued([], [], r) == r
  {
  }

  lemma ContinuedByNothing(frames: seq<StreamFrame>, polled: seq<nat>, s: State)
    ensures Continued(frames, polled, Round(s, [], [])) == Round(s, frames, polled)
  {
  }

  lemma RoundEnds(s: State, n: nat, room: int, poll: Streams, r: Round)
    requires Polls(s, n, room, poll, r) && (n == 0 || room < MIN_STREAM_FRAME_SIZE)
    ensures r == Round(s, [], [])
  {
  }

  lemma PollPromise(poll: Streams, id: nat, room: nat)
    requires WellBehaved(poll) && room <= 16384
    ensures Kept(poll(id, room), room) && SizeOf(poll(id, room)) <= room
  {
  }

  /** `sent` are `frames`, but the last without its length field. */
  ghost predicate SentWithoutLastLen(frames: seq<StreamFrame>, sent: seq<StreamFrame>) {
    |sent| == |frames| && forall i :: 0 <= i < |frames| ==> frames[i].hasLen && sent[i] == frames[i].(hasLen := i < |frames| - 1)
  }

  lemma {:induction false} LastWithoutLenIs(frames: seq<StreamFrame>)
    requires AllEncodable(frames) && forall f :: f in frames ==> f.hasLen
    ensures SentWithoutLastLen(frames, LastWithoutLen(frames))
  {
    if |frames| > 1 {
      LastWithoutLenIs(frames[1..]);
    }
  }

  /** The packet has the frames that the asked streams handed out for this room, the last without its length field. */
  ghost predicate CarriesAnswers(queue: seq<nat>, room: int, poll: Streams, sent: seq<StreamFrame>, queue': seq<nat>) {
    exists frames: seq<StreamFrame> :: SentWithoutLastLen(frames, sent) && TakesFrames(queue, room, poll, frames, queue')
  }

  /** The frames of a new packet: an ACK of `ackSize` bytes, if any, control frames and STREAM frames. */
  method ComposeNextPacket(source: FrameSource, ackSize: nat, maxFrameSize: nat, canSendStreamFrames: bool, poll: Streams)
    returns (packet: Packet)
    requires WellBehaved(poll) && ackSize <= maxFrameSize < 16384
    modifies source
    ensures AllEncodable(packet.streams)
    ensures ackSize + ControlSize(packet.controls) + StreamSize(packet.streams) <= maxFrameSize
    ensures OnlyLastWithoutLen(packet.streams)
    ensures TakenFromEnd(old(source.controlFrames), source.controlFrames, packet.controls)
    ensures source.controlFrames != [] ==>
      ackSize + ControlSize(packet.controls) + source.controlFrames[|source.controlFrames| - 1].size > maxFrameSize
    ensures canSendStreamFrames ==>
      CarriesAnswers(old(source.streamQueue), maxFrameSize + 1 - ackSize - ControlSize(packet.controls), poll, packet.streams, source.streamQueue)
    ensures !canSendStreamFrames ==> packet.streams == [] && source.View() == old(source.View())
    ensures Inv(old(source.View())) ==> Inv(source.View())
  {
    var controls, length := source.AppendControlFrames(maxFrameSize - ackSize);
    if !canSendStreamFrames {
      return Packet(controls, []);
    }
    var maxLen := maxFrameSize + 1 - ackSize - length;
    var streams := AppendFrames(source, maxLen, poll);
    if streams != [] {
      LastSavesAByte(streams);
    }
    LastWithoutLenIs(streams);
    packet := Packet(controls, LastWithoutLen(streams));
  }

  /** The STREAM frames of a packet, all with their length field. */
  method AppendFrames(source: FrameSource, maxLen: nat, poll: Streams) returns (streams: seq<StreamFrame>)
    requires WellBehaved(poll) && maxLen <= 16384
    modifies source
    ensures source.controlFrames == old(source.controlFrames)
    ensures Fit(streams, maxLen) && TakesFrames(old(source.streamQueue), maxLen, poll, streams, source.streamQueue)
    ensures Inv(old(source.View())) ==> Inv(source.View())
  {
    ghost var polled;
    ghost var before := source.View();
    PollFits(before, |before.queue|, maxLen, poll, Poll(before, |before.queue|, maxLen, poll));
    if Inv(before) {
      PollInv(before, |before.queue|, maxLen, poll);
    }
    streams, polled := source.AppendStreamFrames(maxLen, poll);
  }
}
