/**
 Which ACK frames are processed. An endpoint remembers the number of the packet that carried the
 last ACK frame, and ignores frames from that packet and earlier ones.
 */
module AckOrder {
  import opened Protocol
  import opened LossRecovery
  import opened AckRanges
  import LossLaws

  /** An ACK frame and the packet that carried it. */
  datatype Arrived = Arrived(ranges: seq<AckRange>, inPacket: nat, now: int, delay: int)

  datatype AckResult = Processed | Ignored | UnsentAcked | SkippedAcked

  datatype Endpoint = Endpoint(state: State, largestWithAck: nat)

  /** The frame acknowledges a packet number that was skipped on purpose. */
  ghost predicate AcksSkipped(rs: seq<AckRange>, skipped: seq<nat>) {
    exists i :: 0 <= i < |skipped| && Contains(rs, skipped[i])
  }

  ghost function Receive(e: Endpoint, skipped: seq<nat>, a: Arrived): (Endpoint, AckResult)
    requires ValidRanges(a.ranges)
  {
    var largest := LargestAcked(a.ranges);
    if largest > e.state.lastSent then (e, UnsentAcked)
    else if 0 < a.inPacket <= e.largestWithAck then (e, Ignored)
    else if AcksSkipped(a.ranges, skipped) then
      (Endpoint(e.state.(largestAcked := Max(e.state.largestAcked, largest)), a.inPacket), SkippedAcked)
    else
      (Endpoint(DetectLost(ReceivedAck(e.state, Members(a.ranges), largest), a.now, a.delay), a.inPacket), Processed)
  }

  // ---------------------------------------------------------------- runs

  /** Everything the handler is called for: ACK frames, or any other event. */
  datatype Call = Receives(ack: Arrived, result: AckResult) | Does(event: Event)

  ghost predicate CallStep(skipped: seq<nat>, e: Endpoint, c: Call, e': Endpoint) {
    match c
    case Receives(a, r) => ValidRanges(a.ranges) && (e', r) == Receive(e, skipped, a)
    case Does(ev) => !ev.ReceiveAck? && Step(e.state, ev, e'.state) && e'.largestWithAck == e.largestWithAck
  }

  ghost predicate CallRun(skipped: seq<nat>, es: seq<Endpoint>, cs: seq<Call>) {
    && |es| == |cs| + 1
    && Init(es[0].state) && es[0].largestWithAck == 0
    && forall i :: 0 <= i < |cs| ==> CallStep(skipped, es[i], cs[i], es[i + 1])
  }

  /** The frame was neither refused for a packet that was never sent nor ignored. */
  predicate TakenUp(c: Call) {
    c.Receives? && (c.result.Processed? || c.result.SkippedAcked?)
  }

  /** The packet of the last ACK frame that was taken up, or 0. */
  function LastTakenUp(cs: seq<Call>): nat {
    if cs == [] then 0
    else if TakenUp(cs[|cs| - 1]) then cs[|cs| - 1].ack.inPacket
    else LastTakenUp(cs[..|cs| - 1])
  }

  lemma {:induction false} RemembersLast(skipped: seq<nat>, es: seq<Endpoint>, cs: seq<Call>, i: nat)
    requires CallRun(skipped, es, cs) && i <= |cs|
    ensures es[i].largestWithAck == LastTakenUp(cs[..i])
  {
    if i > 0 {
      RemembersLast(skipped, es, cs, i - 1);
      assert CallStep(skipped, es[i - 1], cs[i - 1], es[i]);
      assert cs[..i][..i - 1] == cs[..i - 1];
    }
  }

  /**
   In every run, a frame that acknowledges sent packets only is ignored exactly if its packet is not
   packet 0 and not later than that of the last frame taken up. What is ignored changes nothing.
   */
  lemma IgnoredIff(skipped: seq<nat>, es: seq<Endpoint>, cs: seq<Call>, i: nat)
    requires CallRun(skipped, es, cs) && i < |cs| && cs[i].Receives?
    ensures ValidRanges(cs[i].ack.ranges)
    ensures cs[i].result.UnsentAcked? <==> LargestAcked(cs[i].ack.ranges) > es[i].state.lastSent
    ensures cs[i].result.Ignored? <==> !cs[i].result.UnsentAcked? && 0 < cs[i].ack.inPacket <= LastTakenUp(cs[..i])
    ensures cs[i].result.SkippedAcked? <==> TakenUp(cs[i]) && AcksSkipped(cs[i].ack.ranges, skipped)
    ensures !TakenUp(cs[i]) ==> es[i + 1] == es[i]
  {
    RemembersLast(skipped, es, cs, i);
    assert CallStep(skipped, es[i], cs[i], es[i + 1]);
  }

  /** No frame is taken up in between. */
  predicate NoneTakenUp(cs: seq<Call>) {
    forall k :: 0 <= k < |cs| ==> !TakenUp(cs[k])
  }

  lemma {:induction false} LastTakenUpIs(cs: seq<Call>, i: nat, j: nat)
    requires i < j <= |cs| && TakenUp(cs[i]) && NoneTakenUp(cs[i + 1..j])
    ensures LastTakenUp(cs[..j]) == cs[i].ack.inPacket
    decreases j
  {
    assert cs[..j][..j - 1] == cs[..j - 1];
    if i + 1 < j {
      assert cs[i + 1..j][j - i - 2] == cs[j - 1];
      assert cs[i + 1..j - 1] == cs[i + 1..j][..j - i - 2];
      LastTakenUpIs(cs, i, j - 1);
    }
  }

  /** After a frame was taken up, the next one from the same packet or an earlier one is ignored, whatever else happens between. */
  lemma LateFrameIsIgnored(skipped: seq<nat>, es: seq<Endpoint>, cs: seq<Call>, i: nat, j: nat)
    requires CallRun(skipped, es, cs) && i < j < |cs| && TakenUp(cs[i]) && NoneTakenUp(cs[i + 1..j])
    requires cs[j].Receives? && 0 < cs[j].ack.inPacket <= cs[i].ack.inPacket
    requires ValidRanges(cs[j].ack.ranges) && LargestAcked(cs[j].ack.ranges) <= es[j].state.lastSent
    ensures cs[j].result.Ignored? && es[j + 1] == es[j]
  {
    LastTakenUpIs(cs, i, j);
    IgnoredIff(skipped, es, cs, j);
  }

  /** The packet of the last frame taken up bounds all of them, as long as none came in packet 0. */
  lemma {:induction false} TakenUpInOrder(skipped: seq<nat>, es: seq<Endpoint>, cs: seq<Call>, i: nat, j: nat)
    requires CallRun(skipped, es, cs) && i < j <= |cs| && TakenUp(cs[i])
    requires forall k :: i < k < j && TakenUp(cs[k]) ==> cs[k].ack.inPacket > 0
    ensures cs[i].ack.inPacket <= LastTakenUp(cs[..j])
    decreases j
  {
    assert cs[..j][..j - 1] == cs[..j - 1];
    if i + 1 < j {
      TakenUpInOrder(skipped, es, cs, i, j - 1);
      if TakenUp(cs[j - 1]) {
        IgnoredIff(skipped, es, cs, j - 1);
      }
    }
  }

  /** So without packet 0, no frame is taken up after one from a later packet, and none from the same packet twice. */
  lemma TakenUpOnce(skipped: seq<nat>, es: seq<Endpoint>, cs: seq<Call>, i: nat, j: nat)
    requires CallRun(skipped, es, cs) && i < j < |cs| && TakenUp(cs[i]) && TakenUp(cs[j])
    requires forall k :: i < k <= j && TakenUp(cs[k]) ==> cs[k].ack.inPacket > 0
    ensures cs[i].ack.inPacket < cs[j].ack.inPacket
  {
    TakenUpInOrder(skipped, es, cs, i, j);
    IgnoredIff(skipped, es, cs, j);
  }

  /** A frame in packet 0 makes the endpoint forget: the next one is taken up whatever its packet. */
  lemma PacketZeroForgets(skipped: seq<nat>, es: seq<Endpoint>, cs: seq<Call>, i: nat, j: nat)
    requires CallRun(skipped, es, cs) && i < j < |cs| && TakenUp(cs[i]) && cs[i].ack.inPacket == 0 && NoneTakenUp(cs[i + 1..j])
    requires cs[j].Receives? && !cs[j].result.UnsentAcked?
    ensures TakenUp(cs[j])
  {
    LastTakenUpIs(cs, i, j);
    IgnoredIff(skipped, es, cs, j);
  }

  /** What is acknowledged or lost left the history, nothing else did, and sizes and levels are as before. */
  ghost predicate Leaves(s: State, s': State, a: Arrived) {
    && (forall n :: n in s'.packets <==>
          && n in s.packets && !Contains(a.ranges, n)
          && !(n <= s'.largestAcked && a.now - s.packets[n].sendTime > a.delay))
    && (forall n :: n in s'.packets ==> LossLaws.SameButMarks(s.packets[n], s'.packets[n]))
  }

  /**
   A processed frame takes out of the history exactly what it acknowledges and, of the rest, exactly
   what is lost by then. The queue only grows.
   */
  lemma ProcessedExactly(e: Endpoint, skipped: seq<nat>, a: Arrived, e': Endpoint)
    requires Inv(e.state) && ValidRanges(a.ranges) && Receive(e, skipped, a) == (e', Processed)
    ensures Leaves(e.state, e'.state, a) && e.state.queue <= e'.state.queue
    ensures e'.state.largestAcked == Max(e.state.largestAcked, LargestAcked(a.ranges))
  {
    AckLeaves(e.state, a, e'.state);
  }

  lemma AckLeaves(s: State, a: Arrived, s': State)
    requires Inv(s) && ValidRanges(a.ranges)
    requires s' == DetectLost(ReceivedAck(s, Members(a.ranges), LargestAcked(a.ranges)), a.now, a.delay)
    ensures Leaves(s, s', a) && s.queue <= s'.queue
    ensures s'.largestAcked == Max(s.largestAcked, LargestAcked(a.ranges))
  {
    var mid, end, acked, lost := AckThenLoss(s, Members(a.ranges), LargestAcked(a.ranges), a.now, a.delay);
    LeavesExactly(s, mid, s', acked, lost, a);
  }

  lemma AckThenLoss(s: State, acks: set<nat>, largest: nat, now: int, delay: int)
    returns (mid: State, s': State, acked: seq<nat>, lost: seq<nat>)
    requires Inv(s)
    ensures s' == DetectLost(ReceivedAck(s, acks, largest), now, delay)
    ensures forall n :: n in acked <==> n in s.packets && n in acks
    ensures LossLaws.AcksAndMarks(s.packets, mid.packets, acked)
    ensures forall n :: n in lost <==> LossLaws.IsLost(mid, n, now, delay)
    ensures LossLaws.Drops(mid.packets, s'.packets, lost)
    ensures s'.largestAcked == mid.largestAcked == Max(s.largestAcked, largest)
    ensures s.queue <= s'.queue
  {
    acked := LossLaws.ReceivedAckExactly(s, acks, largest);
    ReceivedAckKeepsInv(s, acks, largest);
    mid := ReceivedAck(s, acks, largest);
    lost := LossLaws.DetectLostExactly(mid, now, delay);
    s' := DetectLost(mid, now, delay);
  }

  lemma LeavesExactly(s: State, mid: State, s': State, acked: seq<nat>, lost: seq<nat>, a: Arrived)
    requires forall n :: n in acked <==> n in s.packets && Contains(a.ranges, n)
    requires LossLaws.AcksAndMarks(s.packets, mid.packets, acked)
    requires forall n :: n in lost <==> LossLaws.IsLost(mid, n, a.now, a.delay)
    requires LossLaws.Drops(mid.packets, s'.packets, lost) && s'.largestAcked == mid.largestAcked
    ensures Leaves(s, s', a)
  {
    forall n
      ensures n in s'.packets <==>
        && n in s.packets && !Contains(a.ranges, n)
        && !(n <= s'.largestAcked && a.now - s.packets[n].sendTime > a.delay)
    {
      if n in mid.packets {
        assert LossLaws.SameButMarks(s.packets[n], mid.packets[n]);
        assert n in lost <==> LossLaws.IsLost(mid, n, a.now, a.delay);
      }
    }
  }
}
