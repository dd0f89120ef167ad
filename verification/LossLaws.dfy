/**
 What each step of loss recovery does to the history, the queue and the counter, said without the
 functions that compute it, and what every run keeps of the packets that were handed over.
 */
module LossLaws {
  import opened Protocol
  import opened LossRecovery

  // ---------------------------------------------------------------- loss

  /** Loss detection at `now` gives the packet up. */
  ghost predicate IsLost(s: State, n: nat, now: int, delay: int) {
    n in s.packets && n <= s.largestAcked && now - s.packets[n].sendTime > delay
  }

  lemma {:induction false} LostNumbersAre(order: seq<nat>, packets: Packets, largestAcked: nat, now: int, delay: int)
    requires Ascending(order) && forall n :: n in order ==> n in packets
    ensures Ascending(LostNumbers(order, packets, largestAcked, now, delay))
    ensures forall n :: n in LostNumbers(order, packets, largestAcked, now, delay) <==>
      n in order && n <= largestAcked && now - packets[n].sendTime > delay
  {
    if order != [] {
      assert order == [order[0]] + order[1..];
      LostNumbersAre(order[1..], packets, largestAcked, now, delay);
      var rest := LostNumbers(order[1..], packets, largestAcked, now, delay);
      forall j | 0 <= j < |rest|
        ensures order[0] < rest[j]
      {
        assert rest[j] in order[1..];
      }
    }
  }

  ghost predicate NumbersAscend(queue: seq<Queued>) {
    forall i, j :: 0 <= i < j < |queue| ==> queue[i].number < queue[j].number
  }

  /** `queue'` is `queue` and, in ascending order, those of `ns` that can be retransmitted, with their level. */
  ghost predicate Requeues(queue: seq<Queued>, queue': seq<Queued>, packets: Packets, ns: seq<nat>)
    requires forall n :: n in ns ==> n in packets
  {
    && queue <= queue'
    && var added := queue'[|queue|..];
    && NumbersAscend(added)
    && forall e :: e in added <==> e.number in ns && packets[e.number].canBeRetransmitted && e.oneRtt == packets[e.number].oneRtt
  }

  /** `packets'` is `packets` without `ns`. */
  ghost predicate Drops(packets: Packets, packets': Packets, ns: seq<nat>) {
    && (forall n :: n in packets' <==> n in packets && n !in ns)
    && (forall n :: n in packets' ==> packets'[n] == packets[n])
  }

  lemma AscendingTail(ns: seq<nat>)
    requires Ascending(ns) && ns != []
    ensures Ascending(ns[1..]) && ns[0] !in ns[1..] && forall n :: n in ns <==> n == ns[0] || n in ns[1..]
    ensures forall n :: n in ns[1..] ==> ns[0] < n
  {
    assert ns == [ns[0]] + ns[1..];
  }

  lemma RequeuesFirst(queue: seq<Queued>, queue1: seq<Queued>, queue': seq<Queued>, packets: Packets, packets1: Packets, ns: seq<nat>)
    requires Ascending(ns) && ns != [] && forall n :: n in ns ==> n in packets
    requires forall n :: n in ns[1..] ==> n in packets1 && packets1[n] == packets[n]
    requires queue1 == queue + if packets[ns[0]].canBeRetransmitted then [Queued(ns[0], packets[ns[0]].oneRtt)] else []
    requires Requeues(queue1, queue', packets1, ns[1..])
    ensures Requeues(queue, queue', packets, ns)
  {
    AscendingTail(ns);
    var first := queue1[|queue|..];
    var added := queue'[|queue1|..];
    assert queue'[|queue|..] == first + added;
    forall e: Queued
      ensures e in first + added <==> e.number in ns && packets[e.number].canBeRetransmitted && e.oneRtt == packets[e.number].oneRtt
    {
      assert e in added <==> e.number in ns[1..] && packets[e.number].canBeRetransmitted && e.oneRtt == packets[e.number].oneRtt;
    }
    forall i, j | 0 <= i < j < |first + added|
      ensures (first + added)[i].number < (first + added)[j].number
    {
      if i < |first| {
        assert (first + added)[j] in added;
      }
    }
  }

  lemma {:induction false} LoseAllExactly(s: State, ns: seq<nat>)
    requires Ascending(ns) && forall n :: n in ns ==> n in s.packets
    ensures var s' := LoseAll(s, ns);
      && Drops(s.packets, s'.packets, ns) && Requeues(s.queue, s'.queue, s.packets, ns)
      && s'.bytesInFlight == s.bytesInFlight - Total(ns, s.packets)
      && s' == s.(order := s'.order, packets := s'.packets, queue := s'.queue, bytesInFlight := s'.bytesInFlight,
                  trace := s.trace.(queued := s'.trace.queued))
    decreases |ns|
  {
    if ns != [] {
      AscendingTail(ns);
      var s1 := Lose(s, ns[0]);
      assert Drops(s.packets, s1.packets, [ns[0]]);
      LoseAllExactly(s1, ns[1..]);
      TotalFrame(ns[1..], s.packets, s1.packets);
      RequeuesFirst(s.queue, s1.queue, LoseAll(s, ns).queue, s.packets, s1.packets, ns);
    }
  }

  /**
   Loss detection takes exactly the lost packets out of the history and out of flight, queues those
   of them that can be retransmitted, and leaves every other packet as it is.
   */
  lemma DetectLostExactly(s: State, now: int, delay: int) returns (lost: seq<nat>)
    requires Inv(s)
    ensures forall n :: n in lost <==> IsLost(s, n, now, delay)
    ensures Ascending(lost) && forall n :: n in lost ==> n in s.packets
    ensures var s' := DetectLost(s, now, delay);
      && Drops(s.packets, s'.packets, lost) && Requeues(s.queue, s'.queue, s.packets, lost)
      && s'.bytesInFlight == s.bytesInFlight - Total(lost, s.packets)
      && s' == s.(order := s'.order, packets := s'.packets, queue := s'.queue, bytesInFlight := s'.bytesInFlight,
                  trace := s.trace.(queued := s'.trace.queued))
  {
    lost := LostNumbers(s.order, s.packets, s.largestAcked, now, delay);
    LostNumbersAre(s.order, s.packets, s.largestAcked, now, delay);
    LoseAllExactly(s, lost);
  }

  // ---------------------------------------------------------------- acknowledgement

  /** `n` retransmits, directly or not, one of `ns`, or is one of them. */
  ghost predicate DescendsFromAny(packets: Packets, n: nat, ns: seq<nat>) {
    exists a :: a in ns && Descends(packets, n, a)
  }

  /** The links from a packet to its original are the same in both, as far as both have the packet. */
  ghost predicate SameOriginals(packets: Packets, packets': Packets) {
    forall n :: n in packets && n in packets' ==> packets'[n].retransmissionOf == packets[n].retransmissionOf
  }

  lemma {:induction false} DescendsInMore(packets: Packets, packets': Packets, d: nat, a: nat)
    requires packets'.Keys <= packets.Keys && SameOriginals(packets, packets') && Descends(packets', d, a)
    ensures Descends(packets, d, a)
    decreases d
  {
    if d != a {
      assert d in packets;
      DescendsInMore(packets, packets', packets'[d].retransmissionOf.value, a);
    }
  }

  /** Removing `gone` cuts only what descends from it. */
  lemma {:induction false} DescendsAround(packets: Packets, packets': Packets, d: nat, a: nat, gone: nat)
    requires packets'.Keys == packets.Keys - {gone} && SameOriginals(packets, packets')
    requires Descends(packets, d, a) && !Descends(packets, d, gone)
    ensures Descends(packets', d, a)
    decreases d
  {
    if d != a {
      DescendsAround(packets, packets', packets[d].retransmissionOf.value, a, gone);
      assert d in packets' && packets[d].retransmissionOf.value != gone;
    }
  }

  /** Only the mark and the list of retransmissions may differ. */
  ghost predicate SameButMarks(p: Packet, p': Packet) {
    p' == p.(canBeRetransmitted := p'.canBeRetransmitted, retransmittedAs := p'.retransmittedAs)
  }

  /** `packets'` is `packets` without `ns`, and what descends from `ns` is marked. */
  ghost predicate AcksAndMarks(packets: Packets, packets': Packets, ns: seq<nat>) {
    && (forall n :: n in packets' <==> n in packets && n !in ns)
    && (forall n :: n in packets' ==> SameButMarks(packets[n], packets'[n]))
    && (forall n :: n in packets' ==>
          (packets'[n].canBeRetransmitted <==> packets[n].canBeRetransmitted && !DescendsFromAny(packets, n, ns)))
  }

  lemma AckExactly(s: State, a: nat)
    requires a in s.packets
    ensures AcksAndMarks(s.packets, Ack(s, a).packets, [a])
  {
    UnlinkShape(s.packets, a);
    var u := Unlink(s.packets, a);
    var packets' := Ack(s, a).packets;
    forall n | n in packets'
      ensures packets'[n].canBeRetransmitted <==> s.packets[n].canBeRetransmitted && !DescendsFromAny(s.packets, n, [a])
    {
      assert a in [a];
      if Descends(s.packets, n, a) {
        DescendsInMore(u, s.packets, n, a);
      }
      if Descends(u, n, a) {
        DescendsInMore(s.packets, u, n, a);
      }
      assert u[n].canBeRetransmitted == s.packets[n].canBeRetransmitted;
    }
  }

  lemma AcksAndMarksFirst(packets: Packets, packets1: Packets, packets': Packets, ns: seq<nat>)
    requires Ascending(ns) && ns != [] && ns[0] in packets
    requires AcksAndMarks(packets, packets1, [ns[0]]) && AcksAndMarks(packets1, packets', ns[1..])
    ensures AcksAndMarks(packets, packets', ns)
  {
    AscendingTail(ns);
    forall n | n in packets'
      ensures SameButMarks(packets[n], packets'[n])
      ensures packets'[n].canBeRetransmitted <==> packets[n].canBeRetransmitted && !DescendsFromAny(packets, n, ns)
    {
      assert SameButMarks(packets[n], packets1[n]) && SameButMarks(packets1[n], packets'[n]);
      MarkedTwice(packets, packets1, n, ns);
    }
  }

  lemma MarkedTwice(packets: Packets, packets1: Packets, n: nat, ns: seq<nat>)
    requires ns != [] && AcksAndMarks(packets, packets1, [ns[0]])
    ensures DescendsFromAny(packets, n, ns) <==> DescendsFromAny(packets, n, [ns[0]]) || DescendsFromAny(packets1, n, ns[1..])
  {
    assert forall a :: a in ns <==> a in [ns[0]] || a in ns[1..];
    forall k | k in packets && k in packets1
      ensures packets1[k].retransmissionOf == packets[k].retransmissionOf
    {
      assert SameButMarks(packets[k], packets1[k]);
    }
    if DescendsFromAny(packets1, n, ns[1..]) {
      var a :| a in ns[1..] && Descends(packets1, n, a);
      DescendsInMore(packets, packets1, n, a);
    }
    if DescendsFromAny(packets, n, ns) && !DescendsFromAny(packets, n, [ns[0]]) {
      var a :| a in ns && Descends(packets, n, a);
      assert ns[0] in [ns[0]];
      assert packets1.Keys == packets.Keys - {ns[0]};
      DescendsAround(packets, packets1, n, a, ns[0]);
    }
  }

  lemma {:induction false} AckAllExactly(s: State, ns: seq<nat>)
    requires Ascending(ns) && forall n :: n in ns ==> n in s.packets
    ensures var s' := AckAll(s, ns);
      && AcksAndMarks(s.packets, s'.packets, ns)
      && s'.bytesInFlight == s.bytesInFlight - Total(ns, s.packets)
      && s' == s.(order := s'.order, packets := s'.packets, bytesInFlight := s'.bytesInFlight,
                  trace := s.trace.(acked := s'.trace.acked))
    decreases |ns|
  {
    if ns != [] {
      AscendingTail(ns);
      var s1 := Ack(s, ns[0]);
      AckExactly(s, ns[0]);
      OthersStay(s, ns);
      AckAllExactly(s1, ns[1..]);
      forall n | n in ns[1..]
        ensures s1.packets[n].length == s.packets[n].length
      {
        assert SameButMarks(s.packets[n], s1.packets[n]);
      }
      TotalFrame(ns[1..], s.packets, s1.packets);
      AcksAndMarksFirst(s.packets, s1.packets, AckAll(s, ns).packets, ns);
    }
  }

  /**
   An ACK takes exactly the acknowledged packets out of the history and out of flight, and marks
   exactly those that retransmit one of them, directly or not. The queue stays as it is.
   */
  lemma ReceivedAckExactly(s: State, acks: set<nat>, largest: nat) returns (acked: seq<nat>)
    requires Inv(s)
    ensures forall n :: n in acked <==> n in s.packets && n in acks
    ensures Ascending(acked)
    ensures var s' := ReceivedAck(s, acks, largest);
      && AcksAndMarks(s.packets, s'.packets, acked)
      && s'.bytesInFlight == s.bytesInFlight - Total(acked, s.packets)
      && s'.trace.acked == s.trace.acked + (set n | n in acked)
      && s' == s.(order := s'.order, packets := s'.packets, bytesInFlight := s'.bytesInFlight,
                  largestAcked := Max(s.largestAcked, largest), trace := s.trace.(acked := s'.trace.acked))
  {
    acked := NewlyAcked(s.order, acks);
    NewlyAckedMembers(s.order, acks);
    NewlyAckedAscending(s.order, acks);
    var s0 := s.(largestAcked := Max(s.largestAcked, largest));
    AckAllExactly(s0, acked);
    AckAllAcks(s0, acked);
  }

  // ---------------------------------------------------------------- queueing and probing

  /** `packets'` is `packets` with `ns` marked. */
  ghost predicate Marks(packets: Packets, packets': Packets, ns: seq<nat>) {
    && packets'.Keys == packets.Keys
    && forall n :: n in packets ==> packets'[n] == if n in ns then packets[n].(canBeRetransmitted := false) else packets[n]
  }

  lemma {:induction false} QueueAllExactly(s: State, ns: seq<nat>)
    requires Ascending(ns) && forall n :: n in ns ==> n in s.packets && s.packets[n].canBeRetransmitted
    ensures var s' := QueueAll(s, ns);
      && Marks(s.packets, s'.packets, ns) && Requeues(s.queue, s'.queue, s.packets, ns)
      && s' == s.(packets := s'.packets, queue := s'.queue, trace := s.trace.(queued := s'.trace.queued))
    decreases |ns|
  {
    if ns != [] {
      AscendingTail(ns);
      var s1 := Queue(s, ns[0]);
      assert Marks(s.packets, s1.packets, [ns[0]]);
      QueueAllExactly(s1, ns[1..]);
      RequeuesFirst(s.queue, s1.queue, QueueAll(s, ns).queue, s.packets, s1.packets, ns);
    }
  }

  /** The handshake alarm queues and marks exactly the handshake packets that are outstanding. */
  lemma QueueHandshakeExactly(s: State) returns (ns: seq<nat>)
    requires Inv(s)
    ensures forall n :: n in ns <==> n in s.packets && s.packets[n].canBeRetransmitted && !s.packets[n].oneRtt
    ensures Ascending(ns)
    ensures var s' := QueueHandshake(s);
      && Marks(s.packets, s'.packets, ns) && Requeues(s.queue, s'.queue, s.packets, ns)
      && s' == s.(packets := s'.packets, queue := s'.queue, trace := s.trace.(queued := s'.trace.queued))
  {
    ns := OutstandingHandshake(s.order, s.packets);
    OutstandingHandshakeAre(s.order, s.packets);
    QueueAllExactly(s, ns);
  }

  ghost predicate Outstanding(s: State, n: nat) {
    n in s.packets && s.packets[n].canBeRetransmitted
  }

  ghost predicate LowestOutstanding(s: State, n: nat) {
    Outstanding(s, n) && forall k :: Outstanding(s, k) ==> n <= k
  }

  lemma {:induction false} FirstIsLowest(order: seq<nat>, packets: Packets, k: nat)
    requires Ascending(order) && k in order && k in packets && packets[k].canBeRetransmitted
    ensures FirstOutstanding(order, packets).Some? && FirstOutstanding(order, packets).value <= k
  {
    assert order == [order[0]] + order[1..];
    if FirstOutstanding(order, packets) != Some(order[0]) {
      FirstIsLowest(order[1..], packets, k);
    }
  }

  lemma ProbedIsLowest(s: State)
    requires OrderInv(s)
    ensures match FirstOutstanding(s.order, s.packets)
      case None => forall k :: !Outstanding(s, k)
      case Some(n) => LowestOutstanding(s, n)
  {
    forall k | Outstanding(s, k)
      ensures FirstOutstanding(s.order, s.packets).Some? && FirstOutstanding(s.order, s.packets).value <= k
    {
      FirstIsLowest(s.order, s.packets, k);
    }
  }

  /** What a probe takes: the front of the queue, or else the oldest outstanding packet. */
  ghost predicate Probes(s: State, q: Queued) {
    if s.queue != [] then q == s.queue[0]
    else LowestOutstanding(s, q.number) && q.oneRtt == s.packets[q.number].oneRtt
  }

  /** A probe takes a packet exactly if one is queued or outstanding, and changes nothing else. */
  lemma ProbeExactly(s: State) returns (q: Option<Queued>)
    requires Inv(s)
    ensures q.None? <==> s.queue == [] && forall k :: !Outstanding(s, k)
    ensures q.Some? ==> Probes(s, q.value)
    ensures var s' := Probe(s);
      && (q.None? ==> s' == s)
      && (s.queue != [] ==> s'.queue == s.queue[1..] && s'.packets == s.packets)
      && (s.queue == [] && q.Some? ==> s'.queue == [] && Marks(s.packets, s'.packets, [q.value.number]))
      && (q.Some? ==> s'.trace.dequeued == s.trace.dequeued + {q.value.number})
      && s' == s.(packets := s'.packets, queue := s'.queue, trace := s.trace.(queued := s'.trace.queued, dequeued := s'.trace.dequeued))
  {
    ProbedIsLowest(s);
    if s.queue != [] {
      q := Some(s.queue[0]);
    } else {
      match FirstOutstanding(s.order, s.packets)
      case None => q := None;
      case Some(n) => q := Some(Queued(n, s.packets[n].oneRtt));
    }
  }

  // ---------------------------------------------------------------- completing the handshake

  /** `queue'` is what is left of `queue`, in order, without the handshake packets. */
  ghost predicate KeepsOneRtt(queue: seq<Queued>, queue': seq<Queued>) {
    && (forall e :: e in queue' <==> e in queue && e.oneRtt)
    && (forall i, j :: 0 <= i < j < |queue'| ==> Before(queue, queue'[i], queue'[j]))
  }

  ghost predicate Before(queue: seq<Queued>, x: Queued, y: Queued) {
    exists a, b :: 0 <= a < b < |queue| && queue[a] == x && queue[b] == y
  }

  lemma BeforeInTail(queue: seq<Queued>, x: Queued, y: Queued)
    requires queue != [] && (Before(queue[1..], x, y) || (x == queue[0] && y in queue[1..]))
    ensures Before(queue, x, y)
  {
    if Before(queue[1..], x, y) {
      var a, b :| 0 <= a < b < |queue[1..]| && queue[1..][a] == x && queue[1..][b] == y;
      assert queue[a + 1] == x && queue[b + 1] == y;
    } else {
      var b :| 0 <= b < |queue[1..]| && queue[1..][b] == y;
      assert queue[b + 1] == y;
    }
  }

  lemma {:induction false} KeepOneRttKeeps(queue: seq<Queued>)
    ensures KeepsOneRtt(queue, KeepOneRtt(queue))
  {
    if queue != [] {
      assert queue == [queue[0]] + queue[1..];
      KeepOneRttKeeps(queue[1..]);
      var rest, all := KeepOneRtt(queue[1..]), KeepOneRtt(queue);
      forall i, j | 0 <= i < j < |all|
        ensures Before(queue, all[i], all[j])
      {
        if queue[0].oneRtt && i == 0 {
          assert all[j] in rest;
        } else if queue[0].oneRtt {
          assert Before(queue[1..], rest[i - 1], rest[j - 1]);
        }
        BeforeInTail(queue, all[i], all[j]);
      }
    }
  }

  lemma {:induction false} DiscardAllExactly(s: State, ns: seq<nat>)
    requires Ascending(ns) && forall n :: n in ns ==> n in s.packets
    ensures var s' := DiscardAll(s, ns);
      && Drops(s.packets, s'.packets, ns)
      && s'.trace.discarded == s.trace.discarded + (set n | n in ns)
      && s' == s.(order := s'.order, packets := s'.packets,
                  trace := s.trace.(discarded := s'.trace.discarded, discardedBytes := s'.trace.discardedBytes))
    decreases |ns|
  {
    if ns != [] {
      AscendingTail(ns);
      var s1 := Discard(s, ns[0]);
      assert Drops(s.packets, s1.packets, [ns[0]]);
      DiscardAllExactly(s1, ns[1..]);
    }
  }

  /** Completing the handshake forgets exactly the handshake packets, in the history and in the queue; the counter stays. */
  lemma HandshakeCompleteExactly(s: State) returns (ns: seq<nat>)
    requires Inv(s)
    ensures forall n :: n in ns <==> n in s.packets && !s.packets[n].oneRtt
    ensures var s' := SetHandshakeComplete(s);
      && Drops(s.packets, s'.packets, ns) && KeepsOneRtt(s.queue, s'.queue)
      && s'.trace.discarded == s.trace.discarded + (set n | n in ns)
      && s' == s.(order := s'.order, packets := s'.packets, queue := s'.queue,
                  trace := s.trace.(discarded := s'.trace.discarded, discardedBytes := s'.trace.discardedBytes, dropped := s'.trace.dropped))
  {
    ns := HandshakeNumbers(s.order, s.packets);
    HandshakeNumbersAre(s.order, s.packets);
    DiscardAllExactly(s, ns);
    KeepOneRttKeeps(s.queue);
  }

  // ---------------------------------------------------------------- sending

  /** The record of a packet that was just sent. */
  ghost predicate Records(q: Packet, p: Outgoing, parent: Option<nat>) {
    && q.number == p.number && q.length == p.length && q.oneRtt == p.oneRtt && q.sendTime == p.sendTime
    && q.canBeRetransmitted && q.inBytesInFlight && q.retransmittedAs == [] && q.retransmissionOf == parent
  }

  ghost predicate SendsNumber(ps: seq<Outgoing>, n: nat) {
    exists i :: 0 <= i < |ps| && ps[i].retransmittable && ps[i].number == n
  }

  /** `packets'` is `packets` and a record of every packet of `ps` that can be retransmitted. */
  ghost predicate AddsRecords(packets: Packets, packets': Packets, ps: seq<Outgoing>, parent: Option<nat>) {
    && (forall n :: n in packets' <==> n in packets || SendsNumber(ps, n))
    && (forall n :: n in packets ==> packets'[n] == packets[n])
    && (forall i :: 0 <= i < |ps| && ps[i].retransmittable ==> Records(packets'[ps[i].number], ps[i], parent))
  }

  /** Only packets of `ps` got a new link, all to `parent`. */
  ghost predicate LinksAdded(links: map<nat, nat>, links': map<nat, nat>, ps: seq<Outgoing>, parent: Option<nat>) {
    forall n :: n in links' ==> (n in links && links'[n] == links[n]) || (SendsNumber(ps, n) && parent == Some(links'[n]))
  }

  function BytesOf(ps: seq<Outgoing>): nat {
    if ps == [] then 0 else (if ps[0].retransmittable then ps[0].length else 0) + BytesOf(ps[1..])
  }

  lemma SendsFirst(ps: seq<Outgoing>)
    requires ps != []
    ensures forall n :: SendsNumber(ps, n) <==> (ps[0].retransmittable && ps[0].number == n) || SendsNumber(ps[1..], n)
  {
    forall n | SendsNumber(ps[1..], n)
      ensures SendsNumber(ps, n)
    {
      var i :| 0 <= i < |ps[1..]| && ps[1..][i].retransmittable && ps[1..][i].number == n;
      assert ps[i + 1].number == n;
    }
    forall n | SendsNumber(ps, n)
      ensures (ps[0].retransmittable && ps[0].number == n) || SendsNumber(ps[1..], n)
    {
      var i :| 0 <= i < |ps| && ps[i].retransmittable && ps[i].number == n;
      if i > 0 {
        assert ps[1..][i - 1] == ps[i];
      }
    }
  }

  lemma {:induction false} SentAllExactly(s: State, ps: seq<Outgoing>, parent: Option<nat>)
    requires Increasing(ps, s.lastSent, s.lastTime) && forall n :: n in s.packets ==> n <= s.lastSent
    ensures var s' := SentAll(s, ps, parent);
      && AddsRecords(s.packets, s'.packets, ps, parent)
      && s'.bytesInFlight == s.bytesInFlight + BytesOf(ps)
      && (forall n :: n in s'.trace.sent <==> n in s.trace.sent || SendsNumber(ps, n))
      && s'.queue == s.queue && s'.largestAcked == s.largestAcked
      && s'.lastSent == (if ps == [] then s.lastSent else ps[|ps| - 1].number)
      && s'.trace == s.trace.(sent := s'.trace.sent, parentOf := s'.trace.parentOf)
      && LinksAdded(s.trace.parentOf, s'.trace.parentOf, ps, parent)
    decreases |ps|
  {
    if ps != [] {
      var s1 := Sent(s, ps[0], parent);
      SentAllExactly(s1, ps[1..], parent);
      SendsFirst(ps);
      var s' := SentAll(s1, ps[1..], parent);
      forall i | 0 <= i < |ps| && ps[i].retransmittable
        ensures Records(s'.packets[ps[i].number], ps[i], parent)
      {
        if i > 0 {
          assert ps[1..][i - 1] == ps[i];
        } else {
          assert s'.packets[ps[0].number] == s1.packets[ps[0].number];
        }
      }
    }
  }

  /** Sending a packet that can be retransmitted records it and counts its bytes; any other leaves history and counter alone. */
  lemma SendExactly(s: State, p: Outgoing)
    requires Inv(s) && Next(s, p)
    ensures var s' := Sent(s, p, None);
      && AddsRecords(s.packets, s'.packets, [p], None)
      && s'.bytesInFlight == s.bytesInFlight + (if p.retransmittable then p.length else 0)
      && (forall n :: n in s'.trace.sent <==> n in s.trace.sent || SendsNumber([p], n))
      && s'.queue == s.queue && s'.largestAcked == s.largestAcked && s'.lastSent == p.number
      && s'.trace == s.trace.(sent := s'.trace.sent)
  {
    SendsFirst([p]);
  }

  lemma {:induction false} NumbersAre(ps: seq<Outgoing>)
    ensures forall n :: n in Numbers(ps) <==> SendsNumber(ps, n)
  {
    if ps != [] {
      NumbersAre(ps[1..]);
      SendsFirst(ps);
    }
  }

  /**
   Retransmitting a packet records every new packet that can be retransmitted, links it to the
   original and lists it there, if that is still in the history, and leaves everything else alone.
   */
  lemma SentAsRetransmissionExactly(s: State, ps: seq<Outgoing>, of: nat)
    requires Inv(s) && MayRetransmit(s, ps, of)
    ensures var s' := SentAsRetransmission(s, ps, of);
      var parent := if of in s.packets then Some(of) else None;
      && (forall n :: n in s'.packets <==> n in s.packets || SendsNumber(ps, n))
      && (forall n :: n in s.packets && n != of ==> s'.packets[n] == s.packets[n])
      && (of in s.packets ==>
            && s'.packets[of] == s.packets[of].(retransmittedAs := s'.packets[of].retransmittedAs)
            && forall n :: n in s'.packets[of].retransmittedAs <==> SendsNumber(ps, n))
      && (forall i :: 0 <= i < |ps| && ps[i].retransmittable ==> Records(s'.packets[ps[i].number], ps[i], parent))
      && s'.bytesInFlight == s.bytesInFlight + BytesOf(ps)
      && (forall n :: n in s'.trace.sent <==> n in s.trace.sent || SendsNumber(ps, n))
      && s'.queue == s.queue && s'.largestAcked == s.largestAcked
      && s'.lastSent == (if ps == [] then s.lastSent else ps[|ps| - 1].number)
      && s'.trace == s.trace.(sent := s'.trace.sent, parentOf := s'.trace.parentOf, retransmitted := s.trace.retransmitted + {of})
      && LinksAdded(s.trace.parentOf, s'.trace.parentOf, ps, parent)
  {
    var parent := if of in s.packets then Some(of) else None;
    var s0 := s.(trace := s.trace.(retransmitted := s.trace.retransmitted + {of}));
    SentAllExactly(s0, ps, parent);
    NumbersAre(ps);
    forall i | 0 <= i < |ps| && ps[i].retransmittable
      ensures ps[i].number != of || of !in s.packets
    {
      NumbersRise(ps, s.lastSent, s.lastTime, i);
    }
  }

  lemma {:induction false} NumbersRise(ps: seq<Outgoing>, number: nat, time: int, i: nat)
    requires Increasing(ps, number, time) && i < |ps|
    ensures number < ps[i].number && (i > 0 ==> ps[i - 1].number < ps[i].number) && ps[i].number <= ps[|ps| - 1].number
    decreases |ps|
  {
    if i > 0 {
      NumbersRise(ps[1..], ps[0].number, ps[0].sendTime, i - 1);
    } else if |ps| > 1 {
      NumbersRise(ps[1..], ps[0].number, ps[0].sendTime, 0);
    }
  }

  // ---------------------------------------------------------------- what a run was given

  /** The packets that an event hands over. */
  function SentBy(e: Event): seq<Outgoing> {
    match e
    case Send(p) => [p]
    case Retransmit(ps, _) => ps
    case _ => []
  }

  /** The packets that were handed over so far. */
  function SentIn(es: seq<Event>): seq<Outgoing> {
    if es == [] then [] else SentIn(es[..|es| - 1]) + SentBy(es[|es| - 1])
  }

  ghost predicate SentRecord(sent: seq<Outgoing>, q: Packet) {
    exists i :: 0 <= i < |sent| && sent[i].retransmittable && sent[i].number == q.number && sent[i].length == q.length
      && sent[i].oneRtt == q.oneRtt && sent[i].sendTime == q.sendTime
  }

  ghost predicate SentEntry(sent: seq<Outgoing>, e: Queued) {
    exists i :: 0 <= i < |sent| && sent[i].retransmittable && sent[i].number == e.number && sent[i].oneRtt == e.oneRtt
  }

  /** The history, the queue and the trace hold nothing but what was handed over. */
  ghost predicate Honest(s: State, sent: seq<Outgoing>) {
    && (forall n :: n in s.packets ==> s.packets[n].number == n && SentRecord(sent, s.packets[n]))
    && (forall e :: e in s.queue ==> SentEntry(sent, e))
    && (forall n :: n in s.trace.sent <==> SendsNumber(sent, n))
  }

  /** A step that hands nothing over keeps records and entries, or makes entries of records. */
  lemma HonestShrinks(s: State, s': State, sent: seq<Outgoing>)
    requires Honest(s, sent) && s'.trace.sent == s.trace.sent
    requires forall n :: n in s'.packets ==> n in s.packets && SameButMarks(s.packets[n], s'.packets[n])
    requires forall e :: e in s'.queue ==> e in s.queue || (e.number in s.packets && e.oneRtt == s.packets[e.number].oneRtt)
    ensures Honest(s', sent)
  {
    forall n | n in s'.packets
      ensures s'.packets[n].number == n && SentRecord(sent, s'.packets[n])
    {
      assert SentRecord(sent, s.packets[n]);
    }
    forall e | e in s'.queue
      ensures SentEntry(sent, e)
    {
      if e !in s.queue {
        assert SentRecord(sent, s.packets[e.number]);
      }
    }
  }

  lemma SentMore(sent: seq<Outgoing>, ps: seq<Outgoing>)
    ensures forall q :: SentRecord(sent, q) || SentRecord(ps, q) ==> SentRecord(sent + ps, q)
    ensures forall e :: SentEntry(sent, e) ==> SentEntry(sent + ps, e)
    ensures forall n :: SendsNumber(sent + ps, n) <==> SendsNumber(sent, n) || SendsNumber(ps, n)
  {
    var all := sent + ps;
    assert forall i :: 0 <= i < |sent| ==> all[i] == sent[i];
    assert forall i :: 0 <= i < |ps| ==> all[|sent| + i] == ps[i];
  }

  lemma HonestGrows(s: State, s': State, sent: seq<Outgoing>, ps: seq<Outgoing>, parent: Option<nat>)
    requires Honest(s, sent) && s'.queue == s.queue
    requires forall n :: n in s'.trace.sent <==> n in s.trace.sent || SendsNumber(ps, n)
    requires forall n :: n in s'.packets <==> n in s.packets || SendsNumber(ps, n)
    requires forall n :: n in s.packets ==> SameButMarks(s.packets[n], s'.packets[n])
    requires forall i :: 0 <= i < |ps| && ps[i].retransmittable ==>
      ps[i].number in s'.packets && Records(s'.packets[ps[i].number], ps[i], parent)
    ensures Honest(s', sent + ps)
  {
    SentMore(sent, ps);
    forall n | n in s'.packets
      ensures s'.packets[n].number == n && SentRecord(sent + ps, s'.packets[n])
    {
      if n in s.packets {
        assert SentRecord(sent, s.packets[n]);
        assert SentRecord(sent, s'.packets[n]);
      } else {
        var i :| 0 <= i < |ps| && ps[i].retransmittable && ps[i].number == n;
        assert SentRecord(ps, s'.packets[n]);
      }
    }
  }

  lemma StepIsHonest(s: State, e: Event, s': State, sent: seq<Outgoing>)
    requires Inv(s) && Step(s, e, s') && Honest(s, sent)
    ensures Honest(s', sent + SentBy(e))
  {
    match e {
      case Send(p) => SendIsHonest(s, p, sent);
      case Retransmit(ps, of) => RetransmitIsHonest(s, ps, of, sent);
      case _ =>
        assert sent + SentBy(e) == sent;
        QuietStepIsHonest(s, e, s', sent);
    }
  }

  lemma SendIsHonest(s: State, p: Outgoing, sent: seq<Outgoing>)
    requires Inv(s) && Next(s, p) && Honest(s, sent)
    ensures Honest(Sent(s, p, None), sent + [p])
  {
    SendExactly(s, p);
    HonestGrows(s, Sent(s, p, None), sent, [p], None);
  }

  lemma RetransmitIsHonest(s: State, ps: seq<Outgoing>, of: nat, sent: seq<Outgoing>)
    requires Inv(s) && MayRetransmit(s, ps, of) && Honest(s, sent)
    ensures Honest(SentAsRetransmission(s, ps, of), sent + ps)
  {
    SentAsRetransmissionExactly(s, ps, of);
    HonestGrows(s, SentAsRetransmission(s, ps, of), sent, ps, if of in s.packets then Some(of) else None);
  }

  lemma QuietStepIsHonest(s: State, e: Event, s': State, sent: seq<Outgoing>)
    requires Inv(s) && Step(s, e, s') && Honest(s, sent) && !e.Send? && !e.Retransmit?
    ensures Honest(s', sent)
  {
    match e {
      case ReceiveAck(acks, largest, now, delay) =>
        AckIsHonest(s, acks, largest, sent);
        ReceivedAckKeepsInv(s, acks, largest);
        LossIsHonest(ReceivedAck(s, acks, largest), now, delay, sent);
      case LossAlarm(now, delay) => LossIsHonest(s, now, delay, sent);
      case HandshakeAlarm => HandshakeAlarmIsHonest(s, sent);
      case SendProbe => ProbeIsHonest(s, sent);
      case TakeFromQueue => HonestShrinks(s, s', sent);
      case HandshakeComplete => HandshakeCompleteIsHonest(s, sent);
    }
  }

  lemma AckIsHonest(s: State, acks: set<nat>, largest: nat, sent: seq<Outgoing>)
    requires Inv(s) && Honest(s, sent)
    ensures Honest(ReceivedAck(s, acks, largest), sent)
  {
    var acked := ReceivedAckExactly(s, acks, largest);
    HonestShrinks(s, ReceivedAck(s, acks, largest), sent);
  }

  lemma HandshakeAlarmIsHonest(s: State, sent: seq<Outgoing>)
    requires Inv(s) && Honest(s, sent)
    ensures Honest(QueueHandshake(s), sent)
  {
    var ns := QueueHandshakeExactly(s);
    EntriesComeFrom(s.queue, QueueHandshake(s).queue, s.packets, ns);
    HonestShrinks(s, QueueHandshake(s), sent);
  }

  lemma ProbeIsHonest(s: State, sent: seq<Outgoing>)
    requires Inv(s) && Honest(s, sent)
    ensures Honest(Probe(s), sent)
  {
    var q := ProbeExactly(s);
    HonestShrinks(s, Probe(s), sent);
  }

  lemma HandshakeCompleteIsHonest(s: State, sent: seq<Outgoing>)
    requires Inv(s) && Honest(s, sent)
    ensures Honest(SetHandshakeComplete(s), sent)
  {
    var ns := HandshakeCompleteExactly(s);
    HonestShrinks(s, SetHandshakeComplete(s), sent);
  }

  lemma EntriesComeFrom(queue: seq<Queued>, queue': seq<Queued>, packets: Packets, ns: seq<nat>)
    requires (forall n :: n in ns ==> n in packets) && Requeues(queue, queue', packets, ns)
    ensures forall e :: e in queue' ==> e in queue || (e.number in packets && e.oneRtt == packets[e.number].oneRtt)
  {
    assert queue' == queue + queue'[|queue|..];
  }

  lemma LossIsHonest(s: State, now: int, delay: int, sent: seq<Outgoing>)
    requires Inv(s) && Honest(s, sent)
    ensures Honest(DetectLost(s, now, delay), sent)
  {
    var lost := DetectLostExactly(s, now, delay);
    EntriesComeFrom(s.queue, DetectLost(s, now, delay).queue, s.packets, lost);
    HonestShrinks(s, DetectLost(s, now, delay), sent);
  }

  /**
   In every run, what the history and the queue say about a packet is what was handed over, and the
   packets that are accounted for are all that can be retransmitted.
   */
  lemma {:induction false} RunIsHonest(ss: seq<State>, es: seq<Event>, i: nat)
    requires Run(ss, es) && i < |ss|
    ensures Honest(ss[i], SentIn(es[..i]))
  {
    if i > 0 {
      RunIsHonest(ss, es, i - 1);
      RunInv(ss, es, i - 1);
      StepIsHonest(ss[i - 1], es[i - 1], ss[i], SentIn(es[..i - 1]));
      assert es[..i][..i - 1] == es[..i - 1];
    }
  }

  // ---------------------------------------------------------------- nothing is forgotten, by events

  ghost predicate AckedIn(es: seq<Event>, i: nat, n: nat)
    requires i <= |es|
  {
    exists j :: 0 <= j < i && es[j].ReceiveAck? && n in es[j].acks
  }

  /** The event takes `n` to be sent again. */
  ghost predicate TakesOut(s: State, e: Event, n: nat) {
    && (e.TakeFromQueue? || e.SendProbe?)
    && if s.queue != [] then s.queue[0].number == n else e.SendProbe? && LowestOutstanding(s, n)
  }

  ghost predicate TakenIn(ss: seq<State>, es: seq<Event>, i: nat, n: nat)
    requires i <= |es| < |ss|
  {
    exists j :: 0 <= j < i && TakesOut(ss[j], es[j], n)
  }

  /** The handshake completes while `n` is in the history or the queue as a handshake packet. */
  ghost predicate ForgottenBy(s: State, e: Event, n: nat) {
    e.HandshakeComplete? && ((n in s.packets && !s.packets[n].oneRtt) || Queued(n, false) in s.queue)
  }

  ghost predicate ForgottenIn(ss: seq<State>, es: seq<Event>, i: nat, n: nat)
    requires i <= |es| < |ss|
  {
    exists j :: 0 <= j < i && ForgottenBy(ss[j], es[j], n)
  }

  ghost predicate Retransmits(e: Event, n: nat, q: nat) {
    e.Retransmit? && e.of == q && SendsNumber(e.ps, n)
  }

  ghost predicate RetransmitsIn(es: seq<Event>, i: nat, n: nat, q: nat)
    requires i <= |es|
  {
    exists j :: 0 <= j < i && Retransmits(es[j], n, q)
  }

  /** Something that `n` retransmits, directly or not, was acknowledged. */
  ghost predicate AncestorAckedIn(es: seq<Event>, i: nat, n: nat)
    requires i <= |es|
    decreases n
  {
    exists q: nat | q < n :: RetransmitsIn(es, i, n, q) && (AckedIn(es, i, q) || AncestorAckedIn(es, i, q))
  }

  /** What a step adds to the trace is what the event does. */
  ghost predicate TraceGrows(s: State, e: Event, s': State) {
    var t, t' := s.trace, s'.trace;
    && (forall n :: n in t'.acked && n !in t.acked ==> e.ReceiveAck? && n in e.acks)
    && (forall n :: n in t'.dequeued && n !in t.dequeued ==> TakesOut(s, e, n))
    && (forall n :: n in t'.dropped && n !in t.dropped ==> ForgottenBy(s, e, n))
    && (forall n :: n in t'.discarded && n !in t.discarded ==> ForgottenBy(s, e, n))
    && (forall n :: n in t'.parentOf ==> (n in t.parentOf && t'.parentOf[n] == t.parentOf[n]) || Retransmits(e, n, t'.parentOf[n]))
  }

  lemma StepTrace(s: State, e: Event, s': State)
    requires Inv(s) && Step(s, e, s')
    ensures TraceGrows(s, e, s')
  {
    match e {
      case Send(p) => SendExactly(s, p);
      case Retransmit(ps, of) => SentAsRetransmissionExactly(s, ps, of);
      case ReceiveAck(acks, largest, now, delay) => AckTrace(s, acks, largest, now, delay);
      case LossAlarm(now, delay) => var lost := DetectLostExactly(s, now, delay);
      case HandshakeAlarm => var ns := QueueHandshakeExactly(s);
      case SendProbe => ProbeTrace(s);
      case TakeFromQueue =>
      case HandshakeComplete => HandshakeTrace(s);
    }
  }

  lemma ProbeTrace(s: State)
    requires Inv(s)
    ensures TraceGrows(s, SendProbe, Probe(s))
  {
    var q := ProbeExactly(s);
  }

  lemma AckTrace(s: State, acks: set<nat>, largest: nat, now: int, delay: int)
    requires Inv(s)
    ensures var s' := DetectLost(ReceivedAck(s, acks, largest), now, delay);
      && s'.trace == s.trace.(acked := s'.trace.acked, queued := s'.trace.queued)
      && forall n :: n in s'.trace.acked && n !in s.trace.acked ==> n in acks
  {
    var acked := ReceivedAckExactly(s, acks, largest);
    ReceivedAckKeepsInv(s, acks, largest);
    var lost := DetectLostExactly(ReceivedAck(s, acks, largest), now, delay);
  }

  lemma DroppedAre(s: State)
    requires Ascending(s.order) && forall n :: n in s.order ==> n in s.packets
    ensures forall n :: n in SetHandshakeComplete(s).trace.dropped ==> n in s.trace.dropped || Queued(n, false) in s.queue
  {
    HandshakeNumbersAre(s.order, s.packets);
    DiscardAllExactly(s, HandshakeNumbers(s.order, s.packets));
    var dropped := set i | 0 <= i < |s.queue| && !s.queue[i].oneRtt :: s.queue[i].number;
    forall n | n in dropped
      ensures Queued(n, false) in s.queue
    {
      var i :| 0 <= i < |s.queue| && !s.queue[i].oneRtt && s.queue[i].number == n;
      assert s.queue[i] == Queued(n, false);
    }
  }

  lemma HandshakeTrace(s: State)
    requires Inv(s)
    ensures TraceGrows(s, HandshakeComplete, SetHandshakeComplete(s))
  {
    var ns := HandshakeCompleteExactly(s);
    DroppedAre(s);
    ForgettingTrace(s, SetHandshakeComplete(s), ns);
  }

  lemma ForgettingTrace(s: State, s': State, ns: seq<nat>)
    requires forall n :: n in ns ==> n in s.packets && !s.packets[n].oneRtt
    requires s'.trace.discarded == s.trace.discarded + (set n | n in ns)
    requires s'.trace == s.trace.(discarded := s'.trace.discarded, discardedBytes := s'.trace.discardedBytes, dropped := s'.trace.dropped)
    requires forall n :: n in s'.trace.dropped ==> n in s.trace.dropped || Queued(n, false) in s.queue
    ensures TraceGrows(s, HandshakeComplete, s')
  {
  }

  /** The trace of a run tells what its events did. */
  ghost predicate TraceTells(ss: seq<State>, es: seq<Event>, i: nat)
    requires i <= |es| < |ss|
  {
    var t := ss[i].trace;
    && (forall n :: n in t.acked ==> AckedIn(es, i, n))
    && (forall n :: n in t.dequeued ==> TakenIn(ss, es, i, n))
    && (forall n :: n in t.dropped || n in t.discarded ==> ForgottenIn(ss, es, i, n))
    && (forall n :: n in t.parentOf ==> RetransmitsIn(es, i, n, t.parentOf[n]))
  }

  lemma {:induction false} RunTrace(ss: seq<State>, es: seq<Event>, i: nat)
    requires Run(ss, es) && i < |ss|
    ensures TraceTells(ss, es, i)
  {
    if i > 0 {
      RunTrace(ss, es, i - 1);
      RunInv(ss, es, i - 1);
      StepTrace(ss[i - 1], es[i - 1], ss[i]);
      TraceTellsNext(ss, es, i);
    }
  }

  lemma TraceTellsNext(ss: seq<State>, es: seq<Event>, i: nat)
    requires 0 < i <= |es| < |ss| && TraceTells(ss, es, i - 1) && TraceGrows(ss[i - 1], es[i - 1], ss[i])
    ensures TraceTells(ss, es, i)
  {
  }

  lemma {:induction false} AncestorIn(ss: seq<State>, es: seq<Event>, i: nat, n: nat)
    requires i <= |es| < |ss| && TraceTells(ss, es, i) && AckedAncestor(ss[i].trace, n)
    ensures AncestorAckedIn(es, i, n)
    decreases n
  {
    var q := ss[i].trace.parentOf[n];
    if q !in ss[i].trace.acked {
      AncestorIn(ss, es, i, q);
    }
    assert RetransmitsIn(es, i, n, q);
  }

  /**
   Nothing is forgotten: a packet that was handed over and can be retransmitted is still outstanding
   or waits in the queue, unless an ACK named it or something it retransmits, it was taken to be
   sent again, or it is a handshake packet that the end of the handshake forgot.
   */
  lemma NothingForgottenInRun(ss: seq<State>, es: seq<Event>, i: nat, n: nat)
    requires Run(ss, es) && i < |ss| && SendsNumber(SentIn(es[..i]), n)
    ensures
      || Outstanding(ss[i], n)
      || InQueue(ss[i].queue, n)
      || AckedIn(es, i, n)
      || AncestorAckedIn(es, i, n)
      || TakenIn(ss, es, i, n)
      || ForgottenIn(ss, es, i, n)
  {
    RunIsHonest(ss, es, i);
    RunInv(ss, es, i);
    RunTrace(ss, es, i);
    assert Accounted(ss[i], n);
    if AckedAncestor(ss[i].trace, n) {
      AncestorIn(ss, es, i, n);
    }
  }
}
