/**
 Loss recovery on the sending side, as a state machine over values. `SentPacketHandler` is
 proved to take these steps.
 */
module LossRecovery {
  import opened Protocol

  /** A packet in the history of sent packets. */
  datatype Packet = Packet(
    number: nat,
    length: nat,
    oneRtt: bool,
    sendTime: int,
    canBeRetransmitted: bool,
    inBytesInFlight: bool,
    retransmittedAs: seq<nat>,
    /** The packet this one retransmits, if that was still in the history. */
    retransmissionOf: Option<nat>)

  /** A packet as it is handed to the handler. */
  datatype Outgoing = Outgoing(number: nat, length: nat, oneRtt: bool, sendTime: int, retransmittable: bool)

  datatype Queued = Queued(number: nat, oneRtt: bool)

  type Packets = map<nat, Packet>

  /** What happened so far. The handler does not keep this; the properties are about it. */
  datatype Trace = Trace(
    sent: set<nat>,
    acked: set<nat>,
    /** Every number that entered the retransmission queue, in order. */
    queued: seq<nat>,
    dequeued: set<nat>,
    /** Queue entries dropped when the handshake completed. */
    dropped: set<nat>,
    /** Numbers whose retransmission was sent. */
    retransmitted: set<nat>,
    /** Packets removed from the history when the handshake completed, and their bytes. */
    discarded: set<nat>,
    discardedBytes: nat,
    /** Every retransmission link ever recorded. */
    parentOf: map<nat, nat>)

  datatype State = State(
    order: seq<nat>,
    packets: Packets,
    queue: seq<Queued>,
    bytesInFlight: int,
    lastSent: nat,
    lastTime: int,
    largestAcked: nat,
    trace: Trace)

  // ---------------------------------------------------------------- lists of packet numbers

  ghost predicate Ascending(order: seq<nat>) {
    forall i, j :: 0 <= i < j < |order| ==> order[i] < order[j]
  }

  function Without(order: seq<nat>, n: nat): seq<nat> {
    if order == [] then []
    else if order[0] == n then Without(order[1..], n)
    else [order[0]] + Without(order[1..], n)
  }

  lemma {:induction false} WithoutMembers(order: seq<nat>, n: nat)
    ensures forall k :: k in Without(order, n) <==> k in order && k != n
  {
    if order != [] {
      WithoutMembers(order[1..], n);
      assert order == [order[0]] + order[1..];
    }
  }

  lemma {:induction false} WithoutAscending(order: seq<nat>, n: nat)
    requires Ascending(order)
    ensures Ascending(Without(order, n))
  {
    if order != [] {
      WithoutAscending(order[1..], n);
      WithoutMembers(order[1..], n);
      var rest := Without(order[1..], n);
      forall j | 0 <= j < |rest|
        ensures order[0] < rest[j]
      {
        assert rest[j] in order[1..];
      }
    }
  }

  lemma {:induction false} WithoutAbsent(order: seq<nat>, n: nat)
    requires n !in order
    ensures Without(order, n) == order
  {
    if order != [] {
      WithoutAbsent(order[1..], n);
    }
  }

  /** The bytes of the packets in `order`. */
  function Total(order: seq<nat>, packets: Packets): nat
    requires forall n :: n in order ==> n in packets
  {
    if order == [] then 0 else packets[order[0]].length + Total(order[1..], packets)
  }

  lemma {:induction false} TotalFrame(order: seq<nat>, p: Packets, p': Packets)
    requires forall n :: n in order ==> n in p && n in p' && p[n].length == p'[n].length
    ensures Total(order, p) == Total(order, p')
  {
    if order != [] {
      TotalFrame(order[1..], p, p');
    }
  }

  lemma {:induction false} TotalAppend(order: seq<nat>, n: nat, packets: Packets)
    requires n in packets && forall k :: k in order ==> k in packets
    ensures Total(order + [n], packets) == Total(order, packets) + packets[n].length
  {
    if order == [] {
      assert order + [n] == [n];
    } else {
      assert (order + [n])[1..] == order[1..] + [n];
      TotalAppend(order[1..], n, packets);
    }
  }

  lemma {:induction false} TotalWithout(order: seq<nat>, n: nat, packets: Packets)
    requires Ascending(order) && n in order && forall k :: k in order ==> k in packets
    ensures forall k :: k in Without(order, n) ==> k in packets
    ensures Total(Without(order, n), packets) == Total(order, packets) - packets[n].length
  {
    WithoutMembers(order, n);
    if order[0] == n {
      assert n !in order[1..];
      WithoutAbsent(order[1..], n);
    } else {
      TotalWithout(order[1..], n, packets);
      assert Without(order, n)[1..] == Without(order[1..], n);
    }
  }

  // ---------------------------------------------------------------- the retransmission tree

  /** `d` is `a` or retransmits it, directly or through packets still in the history. */
  ghost predicate Descends(packets: Packets, d: nat, a: nat) {
    d == a
    || (d in packets && packets[d].retransmissionOf.Some?
        && var q := packets[d].retransmissionOf.value; q < d && q in packets && Descends(packets, q, a))
  }

  /**
   The tree is closed: what a packet lists as its retransmissions are later packets of the same
   encryption level that are in the history and name it as their original, and every such packet
   is listed. Packets that retransmit `open` need not be listed yet.
   */
  ghost predicate TreeInv(packets: Packets, open: Option<nat>) {
    && (forall q, r :: q in packets && r in packets[q].retransmittedAs ==>
          r in packets && packets[r].retransmissionOf == Some(q) && packets[r].oneRtt == packets[q].oneRtt)
    && (forall r :: r in packets && packets[r].retransmissionOf.Some? ==>
          var q := packets[r].retransmissionOf.value;
          && q < r
          && (q in packets ==> packets[q].oneRtt == packets[r].oneRtt)
          && (q in packets && open != Some(q) ==> r in packets[q].retransmittedAs))
  }

  /** Marks a packet and everything that descends from it. */
  ghost function StopRetransmissions(packets: Packets, a: nat): (p': Packets)
    ensures p'.Keys == packets.Keys
  {
    map n | n in packets :: if Descends(packets, n, a) then packets[n].(canBeRetransmitted := false) else packets[n]
  }

  /** A proper descendant goes through one of the listed retransmissions. */
  lemma {:induction false} DescendsThroughChild(packets: Packets, open: Option<nat>, d: nat, a: nat) returns (r: nat)
    requires TreeInv(packets, open) && open != Some(a) && a in packets && Descends(packets, d, a) && d != a
    ensures r in packets[a].retransmittedAs && Descends(packets, d, r)
    decreases d
  {
    var q := packets[d].retransmissionOf.value;
    if q == a {
      r := d;
    } else {
      r := DescendsThroughChild(packets, open, q, a);
    }
  }

  lemma {:induction false} ChildDescends(packets: Packets, open: Option<nat>, d: nat, r: nat, a: nat)
    requires TreeInv(packets, open) && a in packets && r in packets[a].retransmittedAs
    requires Descends(packets, d, r)
    ensures Descends(packets, d, a) && a < r <= d
    decreases d
  {
    if d == r {
      assert Descends(packets, a, a);
    } else {
      ChildDescends(packets, open, packets[d].retransmissionOf.value, r, a);
    }
  }

  /** A packet whose original has left the history can leave it too. */
  lemma RemoveKeepsTree(packets: Packets, n: nat)
    requires TreeInv(packets, None) && n in packets
    requires packets[n].retransmissionOf.Some? ==> packets[n].retransmissionOf.value !in packets
    ensures TreeInv(packets - {n}, None)
  {
  }

  // ---------------------------------------------------------------- the invariant

  ghost predicate OrderInv(s: State) {
    && Ascending(s.order)
    && (forall n :: n in s.order <==> n in s.packets)
    && (forall n :: n in s.packets ==>
          var p := s.packets[n];
          p.number == n && n <= s.lastSent && p.inBytesInFlight && p.sendTime <= s.lastTime)
    && (forall a, b :: a in s.packets && b in s.packets && a < b ==> s.packets[a].sendTime <= s.packets[b].sendTime)
  }

  /** Bytes in flight are those of the packets in the history and those forgotten at the handshake. */
  ghost predicate BytesInv(s: State) {
    && (forall n :: n in s.order ==> n in s.packets)
    && s.bytesInFlight == Total(s.order, s.packets) + s.trace.discardedBytes
  }

  ghost predicate InQueue(queue: seq<Queued>, n: nat) {
    exists i :: 0 <= i < |queue| && queue[i].number == n
  }

  ghost predicate NumberedApart(queue: seq<Queued>) {
    forall i, j :: 0 <= i < j < |queue| ==> queue[i].number != queue[j].number
  }

  /** Some packet that `n` retransmits, directly or not, was acknowledged. */
  ghost predicate AckedAncestor(t: Trace, n: nat) {
    n in t.parentOf && t.parentOf[n] < n && (t.parentOf[n] in t.acked || AckedAncestor(t, t.parentOf[n]))
  }

  /** Why the handler need not do anything more about `n` than it will do. */
  ghost predicate Accounted(s: State, n: nat) {
    || (n in s.packets && s.packets[n].canBeRetransmitted)
    || n in s.trace.acked
    || n in s.trace.queued
    || AckedAncestor(s.trace, n)
    || n in s.trace.discarded
  }

  /** No number enters the queue twice, and what entered is waiting, was taken, or was dropped. */
  ghost predicate QueueInv(s: State) {
    var t := s.trace;
    && Distinct(t.queued)
    && NumberedApart(s.queue)
    && (forall n :: n in t.queued <==> (InQueue(s.queue, n) || n in t.dequeued || n in t.dropped))
    && (forall n :: InQueue(s.queue, n) ==> n !in t.dequeued && n !in t.dropped)
    && t.dequeued !! t.dropped
    && t.retransmitted <= t.dequeued
  }

  ghost predicate TraceInv(s: State) {
    var t := s.trace;
    && (forall n :: n in s.packets ==> n in t.sent)
    && (forall n :: n in t.sent ==> n <= s.lastSent)
    && (forall n :: n in t.queued ==> n in t.sent)
    && (forall n :: n in s.packets && s.packets[n].canBeRetransmitted ==> n !in t.queued)
    && (forall n :: n in s.packets && s.packets[n].retransmissionOf.Some? ==>
          n in t.parentOf && t.parentOf[n] == s.packets[n].retransmissionOf.value)
    && (forall n :: n in t.parentOf ==> t.parentOf[n] < n && t.parentOf[n] in t.retransmitted)
    && (forall n :: n in t.sent ==> Accounted(s, n))
  }

  ghost predicate Inv(s: State) {
    OrderInv(s) && TreeInv(s.packets, None) && BytesInv(s) && QueueInv(s) && TraceInv(s)
  }

  ghost predicate Init(s: State) {
    s == State([], map[], [], 0, 0, s.lastTime, 0, Trace({}, {}, [], {}, {}, {}, {}, 0, map[]))
  }

  // ---------------------------------------------------------------- removing a packet

  function Remove(s: State, n: nat): State {
    s.(order := Without(s.order, n), packets := s.packets - {n})
  }

  lemma RemoveKeepsOrder(s: State, n: nat)
    requires OrderInv(s)
    ensures OrderInv(Remove(s, n))
  {
    WithoutMembers(s.order, n);
    WithoutAscending(s.order, n);
  }

  lemma RemoveTotal(s: State, n: nat)
    requires OrderInv(s) && n in s.packets
    ensures OrderInv(Remove(s, n))
    ensures Total(Remove(s, n).order, Remove(s, n).packets) == Total(s.order, s.packets) - s.packets[n].length
  {
    RemoveKeepsOrder(s, n);
    TotalWithout(s.order, n, s.packets);
    TotalFrame(Without(s.order, n), s.packets, s.packets - {n});
  }

  lemma {:induction false} AckedAncestorGrows(t: Trace, t': Trace, n: nat)
    requires AckedAncestor(t, n) && t.acked <= t'.acked
    requires forall k :: k in t.parentOf ==> k in t'.parentOf && t'.parentOf[k] == t.parentOf[k]
    ensures AckedAncestor(t', n)
    decreases n
  {
    if t.parentOf[n] !in t.acked {
      AckedAncestorGrows(t, t', t.parentOf[n]);
    }
  }

  // ---------------------------------------------------------------- sending

  function Sent(s: State, p: Outgoing, parent: Option<nat>): (r: State)
    ensures r.trace.discardedBytes == s.trace.discardedBytes
  {
    if !p.retransmittable then s.(lastSent := p.number, lastTime := p.sendTime)
    else
      var t := s.trace;
      s.(order := s.order + [p.number],
         packets := s.packets[p.number := Packet(p.number, p.length, p.oneRtt, p.sendTime, true, true, [], parent)],
         bytesInFlight := s.bytesInFlight + p.length,
         lastSent := p.number,
         lastTime := p.sendTime,
         trace := t.(sent := t.sent + {p.number},
                     parentOf := if parent.Some? then t.parentOf[p.number := parent.value] else t.parentOf))
  }

  /** Packet numbers rise and time does not run backwards. */
  ghost predicate Next(s: State, p: Outgoing) {
    s.lastSent < p.number && s.lastTime <= p.sendTime
  }

  /** All of the invariant, with the children of `open` not listed yet. */
  ghost predicate InvOpen(s: State, open: Option<nat>) {
    OrderInv(s) && TreeInv(s.packets, open) && BytesInv(s) && QueueInv(s) && TraceInv(s)
  }

  lemma AscendingAppend(order: seq<nat>, n: nat)
    requires Ascending(order) && forall k :: k in order ==> k < n
    ensures Ascending(order + [n])
  {
    forall i, j | 0 <= i < j < |order + [n]|
      ensures (order + [n])[i] < (order + [n])[j]
    {
      assert order[i] in order;
    }
  }

  lemma SentKeepsOrder(s: State, p: Outgoing, parent: Option<nat>)
    requires OrderInv(s) && Next(s, p)
    ensures OrderInv(Sent(s, p, parent))
  {
    if p.retransmittable {
      AscendingAppend(s.order, p.number);
    }
  }

  lemma SentKeepsBytes(s: State, p: Outgoing, parent: Option<nat>)
    requires OrderInv(s) && BytesInv(s) && Next(s, p)
    ensures BytesInv(Sent(s, p, parent))
  {
    if p.retransmittable {
      var s' := Sent(s, p, parent);
      assert p.number !in s.order;
      TotalFrame(s.order, s.packets, s'.packets);
      TotalAppend(s.order, p.number, s'.packets);
    }
  }

  lemma AddKeepsTree(packets: Packets, p: Packet, open: Option<nat>)
    requires TreeInv(packets, open)
    requires forall n :: n in packets ==> n < p.number
    requires p.retransmittedAs == [] && p.retransmissionOf == open
    requires open.Some? ==> open.value in packets && packets[open.value].oneRtt == p.oneRtt
    ensures TreeInv(packets[p.number := p], open)
  {
    var packets' := packets[p.number := p];
    forall q, r | q in packets' && r in packets'[q].retransmittedAs
      ensures r in packets' && packets'[r].retransmissionOf == Some(q) && packets'[r].oneRtt == packets'[q].oneRtt
    {
      assert q in packets && r in packets[q].retransmittedAs && r in packets && r < p.number;
    }
  }

  lemma SentKeepsTrace(s: State, p: Outgoing, parent: Option<nat>)
    requires OrderInv(s) && QueueInv(s) && TraceInv(s) && Next(s, p)
    requires parent.Some? ==> parent.value <= s.lastSent && parent.value in s.trace.retransmitted
    ensures QueueInv(Sent(s, p, parent)) && TraceInv(Sent(s, p, parent))
  {
    if p.retransmittable {
      var s' := Sent(s, p, parent);
      assert p.number !in s.packets && p.number !in s.trace.sent;
      forall n | n in s'.trace.sent
        ensures Accounted(s', n)
      {
        if n != p.number {
          assert Accounted(s, n);
          if AckedAncestor(s.trace, n) {
            SentKeepsAncestor(s, p, parent, n);
          }
        }
      }
    }
  }

  lemma {:induction false} SentKeepsAncestor(s: State, p: Outgoing, parent: Option<nat>, n: nat)
    requires AckedAncestor(s.trace, n) && n <= s.lastSent && Next(s, p)
    ensures AckedAncestor(Sent(s, p, parent).trace, n)
    decreases n
  {
    var q := s.trace.parentOf[n];
    if q !in s.trace.acked {
      SentKeepsAncestor(s, p, parent, q);
    }
  }

  lemma SentKeepsInv(s: State, p: Outgoing, parent: Option<nat>)
    requires InvOpen(s, parent) && Next(s, p)
    requires parent.Some? ==>
      parent.value in s.packets && parent.value in s.trace.retransmitted && s.packets[parent.value].oneRtt == p.oneRtt
    ensures InvOpen(Sent(s, p, parent), parent)
  {
    SentKeepsOrder(s, p, parent);
    SentKeepsBytes(s, p, parent);
    SentKeepsTrace(s, p, parent);
    if p.retransmittable {
      AddKeepsTree(s.packets, Sent(s, p, parent).packets[p.number], parent);
    }
  }

  // ---------------------------------------------------------------- sending a retransmission

  /** Several packets in a row: numbers rise and time does not run backwards. */
  ghost predicate Increasing(ps: seq<Outgoing>, number: nat, time: int) {
    ps == [] || (number < ps[0].number && time <= ps[0].sendTime && Increasing(ps[1..], ps[0].number, ps[0].sendTime))
  }

  function SentAll(s: State, ps: seq<Outgoing>, parent: Option<nat>): (r: State)
    ensures r.trace.discardedBytes == s.trace.discardedBytes
    decreases |ps|
  {
    if ps == [] then s else SentAll(Sent(s, ps[0], parent), ps[1..], parent)
  }

  /** The numbers that end up in the history. */
  function Numbers(ps: seq<Outgoing>): seq<nat> {
    if ps == [] then []
    else if ps[0].retransmittable then [ps[0].number] + Numbers(ps[1..])
    else Numbers(ps[1..])
  }

  ghost predicate AtLevel(ps: seq<Outgoing>, oneRtt: bool) {
    ps == [] || (ps[0].oneRtt == oneRtt && AtLevel(ps[1..], oneRtt))
  }

  ghost predicate ParentReady(s: State, ps: seq<Outgoing>, parent: Option<nat>) {
    parent.Some? ==>
      && parent.value in s.packets && parent.value in s.trace.retransmitted
      && AtLevel(ps, s.packets[parent.value].oneRtt)
  }

  lemma {:induction false} SentAllKeepsInv(s: State, ps: seq<Outgoing>, parent: Option<nat>)
    requires InvOpen(s, parent) && Increasing(ps, s.lastSent, s.lastTime) && ParentReady(s, ps, parent)
    ensures InvOpen(SentAll(s, ps, parent), parent)
    decreases |ps|
  {
    if ps != [] {
      SentKeepsInv(s, ps[0], parent);
      var s1 := Sent(s, ps[0], parent);
      assert ParentReady(s1, ps[1..], parent);
      SentAllKeepsInv(s1, ps[1..], parent);
    }
  }

  /** Earlier packets stay as they are; the new ones all name the same original. */
  ghost predicate Extends(packets: Packets, packets': Packets, numbers: seq<nat>, parent: Option<nat>) {
    && (forall n :: n in packets ==> n in packets' && packets'[n] == packets[n] && n !in numbers)
    && (forall n :: n in packets' && n !in packets ==> n in numbers)
    && (forall n :: n in numbers ==> n in packets' && packets'[n].retransmissionOf == parent)
  }

  lemma {:induction false} SentAllExtends(s: State, ps: seq<Outgoing>, parent: Option<nat>)
    requires Increasing(ps, s.lastSent, s.lastTime) && forall n :: n in s.packets ==> n <= s.lastSent
    ensures Extends(s.packets, SentAll(s, ps, parent).packets, Numbers(ps), parent)
    decreases |ps|
  {
    if ps != [] {
      SentAllExtends(Sent(s, ps[0], parent), ps[1..], parent);
    }
  }

  /** Numbers and lengths as before, so order and bytes are as before. */
  ghost predicate SameShape(p: Packets, p': Packets) {
    && p.Keys == p'.Keys
    && forall n :: n in p ==>
        p'[n] == p[n].(canBeRetransmitted := p'[n].canBeRetransmitted, retransmittedAs := p'[n].retransmittedAs)
  }

  lemma SameShapeKeeps(s: State, packets: Packets)
    requires OrderInv(s) && BytesInv(s) && SameShape(s.packets, packets)
    ensures OrderInv(s.(packets := packets)) && BytesInv(s.(packets := packets))
  {
    TotalFrame(s.order, s.packets, packets);
    forall n | n in packets
      ensures var p := packets[n];
          p.number == n && n <= s.lastSent && p.inBytesInFlight && p.sendTime <= s.lastTime
    {
      assert n in s.packets;
    }
  }

  function SentAsRetransmission(s: State, ps: seq<Outgoing>, of: nat): (r: State)
    ensures r.trace.discardedBytes == s.trace.discardedBytes
  {
    var parent := if of in s.packets then Some(of) else None;
    var s0 := s.(trace := s.trace.(retransmitted := s.trace.retransmitted + {of}));
    var s1 := SentAll(s0, ps, parent);
    if of in s.packets && of in s1.packets
    then s1.(packets := s1.packets[of := s1.packets[of].(retransmittedAs := Numbers(ps))])
    else s1
  }

  /** A packet is retransmitted once, after it was taken from the queue, at its own encryption level. */
  ghost predicate MayRetransmit(s: State, ps: seq<Outgoing>, of: nat) {
    && of in s.trace.dequeued && of !in s.trace.retransmitted
    && Increasing(ps, s.lastSent, s.lastTime)
    && (of in s.packets ==> AtLevel(ps, s.packets[of].oneRtt))
  }

  lemma RelistShape(packets: Packets, q: nat, list: seq<nat>)
    requires q in packets
    ensures SameShape(packets, packets[q := packets[q].(retransmittedAs := list)])
  {
  }

  lemma ListChildren(packets: Packets, earlier: Packets, of: nat, children: seq<nat>)
    requires TreeInv(packets, Some(of)) && of in packets
    requires Extends(earlier, packets, children, Some(of))
    requires forall n :: n in earlier ==> earlier[n].retransmissionOf != Some(of)
    ensures TreeInv(packets[of := packets[of].(retransmittedAs := children)], None)
  {
    var packets' := packets[of := packets[of].(retransmittedAs := children)];
    forall q, r | q in packets' && r in packets'[q].retransmittedAs
      ensures r in packets' && packets'[r].retransmissionOf == Some(q) && packets'[r].oneRtt == packets'[q].oneRtt
    {
      if q == of {
        assert r in children && r in packets;
      } else {
        assert r in packets[q].retransmittedAs;
      }
    }
    forall r | r in packets' && packets'[r].retransmissionOf.Some?
      ensures var q := packets'[r].retransmissionOf.value;
        && q < r
        && (q in packets' ==> packets'[q].oneRtt == packets'[r].oneRtt && r in packets'[q].retransmittedAs)
    {
      assert r in packets && packets'[r].retransmissionOf == packets[r].retransmissionOf;
      if r in earlier {
        assert packets[r] == earlier[r];
      }
    }
  }

  lemma SentAsRetransmissionKeepsInv(s: State, ps: seq<Outgoing>, of: nat)
    requires Inv(s) && MayRetransmit(s, ps, of)
    ensures Inv(SentAsRetransmission(s, ps, of))
  {
    var parent := if of in s.packets then Some(of) else None;
    var s0 := s.(trace := s.trace.(retransmitted := s.trace.retransmitted + {of}));
    RetransmittedGrows(s, of);
    assert ParentReady(s0, ps, parent);
    SentAllKeepsInv(s0, ps, parent);
    SentAllExtends(s0, ps, parent);
    if parent.Some? {
      NoChildrenYet(s, of);
      ChildrenListed(SentAll(s0, ps, parent), s.packets, of, Numbers(ps));
    }
  }

  lemma NoChildrenYet(s: State, of: nat)
    requires TraceInv(s) && of !in s.trace.retransmitted
    ensures forall n :: n in s.packets ==> s.packets[n].retransmissionOf != Some(of)
  {
  }

  lemma ChildrenListed(s: State, earlier: Packets, of: nat, children: seq<nat>)
    requires InvOpen(s, Some(of)) && of in s.packets
    requires Extends(earlier, s.packets, children, Some(of))
    requires forall n :: n in earlier ==> earlier[n].retransmissionOf != Some(of)
    ensures Inv(s.(packets := s.packets[of := s.packets[of].(retransmittedAs := children)]))
  {
    var packets := s.packets[of := s.packets[of].(retransmittedAs := children)];
    assert TreeInv(packets, None) by {
      ListChildren(s.packets, earlier, of, children);
    }
    RelistKeepsRest(s, of, children);
  }

  lemma RelistKeepsRest(s: State, of: nat, children: seq<nat>)
    requires OrderInv(s) && BytesInv(s) && QueueInv(s) && TraceInv(s) && of in s.packets
    ensures var s' := s.(packets := s.packets[of := s.packets[of].(retransmittedAs := children)]);
      OrderInv(s') && BytesInv(s') && QueueInv(s') && TraceInv(s')
  {
    var packets := s.packets[of := s.packets[of].(retransmittedAs := children)];
    RelistShape(s.packets, of, children);
    SameShapeKeeps(s, packets);
    SameLinksKeepTrace(s, packets);
  }

  lemma RetransmittedGrows(s: State, of: nat)
    requires Inv(s) && of in s.trace.dequeued
    ensures var s0 := s.(trace := s.trace.(retransmitted := s.trace.retransmitted + {of}));
      Inv(s0) && InvOpen(s0, Some(of))
  {
    RetransmittedKeepsTrace(s, of);
    OpenTree(s.packets, of);
  }

  lemma OpenTree(packets: Packets, of: nat)
    requires TreeInv(packets, None)
    ensures TreeInv(packets, Some(of))
  {
  }

  lemma RetransmittedKeepsTrace(s: State, of: nat)
    requires TraceInv(s) && QueueInv(s) && of in s.trace.dequeued
    ensures var s0 := s.(trace := s.trace.(retransmitted := s.trace.retransmitted + {of}));
      TraceInv(s0) && QueueInv(s0)
  {
    var s0 := s.(trace := s.trace.(retransmitted := s.trace.retransmitted + {of}));
    forall n | n in s0.trace.sent
      ensures Accounted(s0, n)
    {
      assert Accounted(s, n);
      if AckedAncestor(s.trace, n) {
        AckedAncestorGrows(s.trace, s0.trace, n);
      }
    }
  }

  lemma SameLinksKeepTrace(s: State, packets: Packets)
    requires TraceInv(s) && QueueInv(s) && SameShape(s.packets, packets)
    requires forall n :: n in packets ==> packets[n].canBeRetransmitted == s.packets[n].canBeRetransmitted
    ensures TraceInv(s.(packets := packets)) && QueueInv(s.(packets := packets))
  {
    var s' := s.(packets := packets);
    forall n | n in s'.trace.sent
      ensures Accounted(s', n)
    {
      assert Accounted(s, n);
    }
  }

  // ---------------------------------------------------------------- queueing

  /** Queues a packet that can be retransmitted. It cannot be queued again. */
  function Queue(s: State, n: nat): (r: State)
    requires n in s.packets
    ensures r.trace.discardedBytes == s.trace.discardedBytes
  {
    var p := s.packets[n];
    s.(packets := s.packets[n := p.(canBeRetransmitted := false)],
       queue := s.queue + [Queued(n, p.oneRtt)],
       trace := s.trace.(queued := s.trace.queued + [n]))
  }

  lemma RetagKeepsTree(packets: Packets, open: Option<nat>, packets': Packets)
    requires TreeInv(packets, open) && SameShape(packets, packets')
    requires forall n :: n in packets ==> packets'[n].retransmittedAs == packets[n].retransmittedAs
    ensures TreeInv(packets', open)
  {
    forall q, r | q in packets' && r in packets'[q].retransmittedAs
      ensures r in packets' && packets'[r].retransmissionOf == Some(q) && packets'[r].oneRtt == packets'[q].oneRtt
    {
      assert q in packets && r in packets[q].retransmittedAs && r in packets;
    }
    forall r | r in packets' && packets'[r].retransmissionOf.Some?
      ensures var q := packets'[r].retransmissionOf.value;
        && q < r
        && (q in packets' ==> packets'[q].oneRtt == packets'[r].oneRtt)
        && (q in packets' && open != Some(q) ==> r in packets'[q].retransmittedAs)
    {
      assert r in packets && packets[r].retransmissionOf == packets'[r].retransmissionOf;
    }
  }

  lemma QueueKeepsQueue(s: State, n: nat)
    requires QueueInv(s) && n in s.packets && n !in s.trace.queued
    ensures QueueInv(Queue(s, n))
  {
    var s' := Queue(s, n);
    forall k
      ensures InQueue(s'.queue, k) <==> (InQueue(s.queue, k) || k == n)
    {
      if InQueue(s.queue, k) {
        var i :| 0 <= i < |s.queue| && s.queue[i].number == k;
        assert s'.queue[i].number == k;
      }
      assert s'.queue[|s.queue|].number == n;
    }
    forall i | 0 <= i < |s.queue|
      ensures s.queue[i].number != n
    {
      assert InQueue(s.queue, s.queue[i].number);
    }
  }

  lemma QueueKeepsTrace(s: State, n: nat)
    requires TraceInv(s) && n in s.packets
    ensures TraceInv(Queue(s, n))
  {
    var s' := Queue(s, n);
    forall k | k in s'.trace.sent
      ensures Accounted(s', k)
    {
      assert Accounted(s, k);
      if AckedAncestor(s.trace, k) {
        AckedAncestorGrows(s.trace, s'.trace, k);
      }
    }
  }

  lemma QueueKeepsInv(s: State, n: nat)
    requires Inv(s) && n in s.packets && s.packets[n].canBeRetransmitted
    ensures Inv(Queue(s, n))
  {
    var packets := s.packets[n := s.packets[n].(canBeRetransmitted := false)];
    SameShapeKeeps(s, packets);
    RetagKeepsTree(s.packets, None, packets);
    QueueKeepsQueue(s, n);
    QueueKeepsTrace(s, n);
  }

  function QueueAll(s: State, ns: seq<nat>): (r: State)
    ensures r.trace.discardedBytes == s.trace.discardedBytes
    decreases |ns|
  {
    if ns == [] then s
    else QueueAll(if ns[0] in s.packets then Queue(s, ns[0]) else s, ns[1..])
  }

  lemma {:induction false} QueueAllKeepsInv(s: State, ns: seq<nat>)
    requires Inv(s) && Ascending(ns)
    requires forall n :: n in ns ==> n in s.packets && s.packets[n].canBeRetransmitted
    ensures Inv(QueueAll(s, ns))
    decreases |ns|
  {
    if ns != [] {
      QueueKeepsInv(s, ns[0]);
      QueueAllKeepsInv(Queue(s, ns[0]), ns[1..]);
    }
  }

  /** Takes the front of the queue. */
  function Dequeue(s: State): (r: State)
    ensures r.trace.discardedBytes == s.trace.discardedBytes
  {
    if s.queue == [] then s
    else s.(queue := s.queue[1..], trace := s.trace.(dequeued := s.trace.dequeued + {s.queue[0].number}))
  }

  lemma DequeueKeepsInv(s: State)
    requires Inv(s)
    ensures Inv(Dequeue(s))
  {
    if s.queue != [] {
      var s' := Dequeue(s);
      var first := s.queue[0].number;
      assert InQueue(s.queue, first);
      forall k
        ensures InQueue(s'.queue, k) <==> (InQueue(s.queue, k) && k != first)
      {
        if InQueue(s.queue, k) && k != first {
          var i :| 0 <= i < |s.queue| && s.queue[i].number == k;
          assert s'.queue[i - 1].number == k;
        }
        if InQueue(s'.queue, k) {
          var i :| 0 <= i < |s'.queue| && s'.queue[i].number == k;
          assert s.queue[i + 1].number == k;
        }
      }
      forall k | k in s'.trace.sent
        ensures Accounted(s', k)
      {
        assert Accounted(s, k);
        if AckedAncestor(s.trace, k) {
          AckedAncestorGrows(s.trace, s'.trace, k);
        }
      }
    }
  }

  // ---------------------------------------------------------------- loss

  /** Declares a packet lost: out of flight, queued unless that is pointless, and forgotten. */
  function Lose(s: State, n: nat): (r: State)
    requires n in s.packets
    ensures r.trace.discardedBytes == s.trace.discardedBytes
  {
    var s1 := if s.packets[n].canBeRetransmitted then Queue(s, n) else s;
    Remove(s1, n).(bytesInFlight := s.bytesInFlight - s.packets[n].length)
  }

  ghost predicate Rootless(s: State, n: nat) {
    n in s.packets && (s.packets[n].retransmissionOf.Some? ==> s.packets[n].retransmissionOf.value !in s.packets)
  }

  lemma RemoveKeepsTrace(s: State, n: nat)
    requires TraceInv(s) && QueueInv(s) && n in s.packets && !s.packets[n].canBeRetransmitted
    ensures TraceInv(Remove(s, n)) && QueueInv(Remove(s, n))
  {
    var s' := Remove(s, n);
    forall k | k in s'.trace.sent
      ensures Accounted(s', k)
    {
      assert Accounted(s, k);
    }
  }

  lemma LoseKeepsInv(s: State, n: nat)
    requires Inv(s) && Rootless(s, n)
    ensures Inv(Lose(s, n))
  {
    var s1 := if s.packets[n].canBeRetransmitted then Queue(s, n) else s;
    if s.packets[n].canBeRetransmitted {
      QueueKeepsInv(s, n);
    }
    RemoveTotal(s1, n);
    RemoveKeepsTree(s1.packets, n);
    RemoveKeepsTrace(s1, n);
    SameTrace(Remove(s1, n), Lose(s, n));
  }

  /** Only the byte counter differs. */
  lemma SameTrace(s: State, s': State)
    requires s' == s.(bytesInFlight := s'.bytesInFlight)
    requires TraceInv(s) && QueueInv(s)
    ensures TraceInv(s') && QueueInv(s')
  {
    forall k | k in s'.trace.sent
      ensures Accounted(s', k)
    {
      assert Accounted(s, k);
    }
  }

  function LoseAll(s: State, ns: seq<nat>): (r: State)
    ensures r.trace.discardedBytes == s.trace.discardedBytes
    decreases |ns|
  {
    if ns == [] then s
    else LoseAll(if ns[0] in s.packets then Lose(s, ns[0]) else s, ns[1..])
  }

  /** The packets a loss detection at `now` gives up, oldest first. */
  function LostNumbers(order: seq<nat>, packets: Packets, largestAcked: nat, now: int, delay: int): seq<nat> {
    if order == [] || order[0] > largestAcked then []
    else
      (if order[0] in packets && now - packets[order[0]].sendTime > delay then [order[0]] else [])
      + LostNumbers(order[1..], packets, largestAcked, now, delay)
  }

  /** Since packets were sent in order, the lost ones are the oldest ones. */
  lemma {:induction false} LostIsPrefix(order: seq<nat>, packets: Packets, largestAcked: nat, now: int, delay: int)
    requires Ascending(order) && forall n :: n in order ==> n in packets
    requires forall a, b :: a in packets && b in packets && a < b ==> packets[a].sendTime <= packets[b].sendTime
    ensures LostNumbers(order, packets, largestAcked, now, delay) <= order
  {
    if order != [] && order[0] <= largestAcked {
      LostIsPrefix(order[1..], packets, largestAcked, now, delay);
      if now - packets[order[0]].sendTime <= delay {
        NoneLost(order[1..], packets, largestAcked, now, delay);
      }
    }
  }

  lemma {:induction false} NoneLost(order: seq<nat>, packets: Packets, largestAcked: nat, now: int, delay: int)
    requires forall n :: n in order ==> n in packets && now - packets[n].sendTime <= delay
    ensures LostNumbers(order, packets, largestAcked, now, delay) == []
  {
    if order != [] {
      NoneLost(order[1..], packets, largestAcked, now, delay);
    }
  }

  lemma {:induction false} LoseAllKeepsInv(s: State, ns: seq<nat>)
    requires Inv(s) && ns <= s.order
    ensures Inv(LoseAll(s, ns))
    decreases |ns|
  {
    if ns != [] {
      var n := ns[0];
      assert s.order[0] == n && n in s.order;
      OldestIsRootless(s);
      LoseKeepsInv(s, n);
      WithoutFirst(s.order);
      LoseAllKeepsInv(Lose(s, n), ns[1..]);
    }
  }

  lemma OldestIsRootless(s: State)
    requires OrderInv(s) && TreeInv(s.packets, None) && s.order != []
    ensures Rootless(s, s.order[0])
  {
    assert s.order[0] in s.order;
    forall q | q in s.packets
      ensures s.order[0] <= q
    {
      assert q in s.order;
    }
  }

  lemma WithoutFirst(order: seq<nat>)
    requires Ascending(order) && order != []
    ensures Without(order, order[0]) == order[1..]
  {
    assert order[0] !in order[1..];
    WithoutAbsent(order[1..], order[0]);
  }

  function DetectLost(s: State, now: int, delay: int): (r: State)
    ensures r.trace.discardedBytes == s.trace.discardedBytes
  {
    LoseAll(s, LostNumbers(s.order, s.packets, s.largestAcked, now, delay))
  }

  lemma DetectLostKeepsInv(s: State, now: int, delay: int)
    requires Inv(s)
    ensures Inv(DetectLost(s, now, delay))
  {
    LostIsPrefix(s.order, s.packets, s.largestAcked, now, delay);
    LoseAllKeepsInv(s, LostNumbers(s.order, s.packets, s.largestAcked, now, delay));
  }

  // ---------------------------------------------------------------- acknowledgement

  /** The original of `n`, if it is still in the history. */
  function Original(packets: Packets, n: nat): Option<nat>
    requires n in packets
  {
    var of := packets[n].retransmissionOf;
    if of.Some? && of.value in packets then of else None
  }

  function Unlink(packets: Packets, n: nat): Packets
    requires n in packets
  {
    match Original(packets, n)
    case None => packets
    case Some(q) => packets[q := packets[q].(retransmittedAs := Without(packets[q].retransmittedAs, n))]
  }

  /** A packet is acknowledged: it, and whatever retransmits it, need not be sent again. */
  ghost function Ack(s: State, n: nat): (r: State)
    requires n in s.packets
    ensures r.trace.discardedBytes == s.trace.discardedBytes
  {
    var packets := StopRetransmissions(Unlink(s.packets, n), n);
    Remove(s.(packets := packets), n)
      .(bytesInFlight := s.bytesInFlight - s.packets[n].length,
        trace := s.trace.(acked := s.trace.acked + {n}))
  }

  lemma StopKeepsLists(packets: Packets, n: nat)
    ensures SameShape(packets, StopRetransmissions(packets, n))
    ensures forall k :: k in packets ==>
      StopRetransmissions(packets, n)[k].retransmittedAs == packets[k].retransmittedAs
  {
  }

  lemma UnlinkShape(packets: Packets, n: nat)
    requires n in packets
    ensures SameShape(packets, Unlink(packets, n))
    ensures SameShape(packets, StopRetransmissions(Unlink(packets, n), n))
  {
    if Original(packets, n).Some? {
      var q := Original(packets, n).value;
      RelistShape(packets, q, Without(packets[q].retransmittedAs, n));
    }
    StopKeepsLists(Unlink(packets, n), n);
    SameShapeJoin(packets, Unlink(packets, n), StopRetransmissions(Unlink(packets, n), n));
  }

  lemma SameShapeJoin(a: Packets, b: Packets, c: Packets)
    requires SameShape(a, b) && SameShape(b, c)
    ensures SameShape(a, c)
  {
    forall n | n in a
      ensures c[n] == a[n].(canBeRetransmitted := c[n].canBeRetransmitted, retransmittedAs := c[n].retransmittedAs)
    {
      assert n in b;
    }
  }

  lemma UnlinkKeepsTree(packets: Packets, n: nat)
    requires TreeInv(packets, None) && n in packets
    ensures TreeInv(Unlink(packets, n), Original(packets, n))
    ensures Original(packets, n) != Some(n)
    ensures TreeInv(Unlink(packets, n) - {n}, None)
  {
    if Original(packets, n).Some? {
      var q := Original(packets, n).value;
      WithoutMembers(packets[q].retransmittedAs, n);
      var list := Without(packets[q].retransmittedAs, n);
      ShorterList(packets, q, list);
      RemoveUnlisted(packets[q := packets[q].(retransmittedAs := list)], q, n);
    } else {
      RemoveKeepsTree(packets, n);
    }
  }

  lemma ShorterList(packets: Packets, q: nat, list: seq<nat>)
    requires TreeInv(packets, None) && q in packets
    requires forall r :: r in list ==> r in packets[q].retransmittedAs
    ensures TreeInv(packets[q := packets[q].(retransmittedAs := list)], Some(q))
  {
    var u := packets[q := packets[q].(retransmittedAs := list)];
    forall q', r | q' in u && r in u[q'].retransmittedAs
      ensures r in u && u[r].retransmissionOf == Some(q') && u[r].oneRtt == u[q'].oneRtt
    {
      assert r in packets[q'].retransmittedAs;
    }
  }

  lemma RemoveUnlisted(packets: Packets, q: nat, n: nat)
    requires TreeInv(packets, Some(q)) && q in packets && q != n && n in packets
    requires packets[n].retransmissionOf == Some(q) && n !in packets[q].retransmittedAs
    requires forall r :: r in packets && r != n && packets[r].retransmissionOf == Some(q) ==> r in packets[q].retransmittedAs
    ensures TreeInv(packets - {n}, None)
  {
  }

  lemma AckKeepsTree(packets: Packets, n: nat)
    requires TreeInv(packets, None) && n in packets
    ensures TreeInv(StopRetransmissions(Unlink(packets, n), n) - {n}, None)
  {
    var u := Unlink(packets, n);
    UnlinkKeepsTree(packets, n);
    StopKeepsLists(u, n);
    RetagKeepsTree(u - {n}, None, StopRetransmissions(u, n) - {n});
  }

  /** What an acknowledgement marks has an acknowledged ancestor. */
  lemma {:induction false} MarkedHasAckedAncestor(s: State, packets: Packets, t: Trace, d: nat, n: nat)
    requires TraceInv(s) && SameShape(s.packets, packets) && Descends(packets, d, n) && d != n
    requires t == s.trace.(acked := s.trace.acked + {n})
    ensures AckedAncestor(t, d)
    decreases d
  {
    var q := packets[d].retransmissionOf.value;
    assert d in s.packets && s.packets[d].retransmissionOf == Some(q);
    if q != n {
      MarkedHasAckedAncestor(s, packets, t, q, n);
    }
  }

  lemma AckKeepsTrace(s: State, n: nat)
    requires TraceInv(s) && QueueInv(s) && TreeInv(s.packets, None) && n in s.packets
    ensures TraceInv(Ack(s, n)) && QueueInv(Ack(s, n))
  {
    UnlinkShape(s.packets, n);
    var u := Unlink(s.packets, n);
    var s' := Ack(s, n);
    forall k | k in s'.trace.sent
      ensures Accounted(s', k)
    {
      assert Accounted(s, k);
      if AckedAncestor(s.trace, k) {
        AckedAncestorGrows(s.trace, s'.trace, k);
      }
      if k in s.packets && k != n && Descends(u, k, n) {
        MarkedHasAckedAncestor(s, u, s'.trace, k, n);
      }
    }
  }

  lemma AckKeepsInv(s: State, n: nat)
    requires Inv(s) && n in s.packets
    ensures Inv(Ack(s, n))
  {
    var packets := StopRetransmissions(Unlink(s.packets, n), n);
    UnlinkShape(s.packets, n);
    SameShapeKeeps(s, packets);
    RemoveTotal(s.(packets := packets), n);
    AckKeepsTree(s.packets, n);
    AckKeepsTrace(s, n);
  }

  lemma OthersStay(s: State, ns: seq<nat>)
    requires Ascending(ns) && ns != [] && forall n :: n in ns ==> n in s.packets
    ensures forall n :: n in ns[1..] ==> n in Ack(s, ns[0]).packets
  {
    UnlinkShape(s.packets, ns[0]);
    forall n | n in ns[1..]
      ensures n in Ack(s, ns[0]).packets
    {
      assert n in ns && ns[0] < n;
    }
  }

  ghost function AckAll(s: State, ns: seq<nat>): (r: State)
    ensures r.trace.discardedBytes == s.trace.discardedBytes
    decreases |ns|
  {
    if ns == [] then s
    else AckAll(if ns[0] in s.packets then Ack(s, ns[0]) else s, ns[1..])
  }

  /** Acknowledging one packet leaves the others in the history: none of the rest is skipped. */
  lemma {:induction false} AckAllKeepsInv(s: State, ns: seq<nat>)
    requires Inv(s) && Ascending(ns) && forall n :: n in ns ==> n in s.packets
    ensures Inv(AckAll(s, ns))
    decreases |ns|
  {
    if ns != [] {
      assert ns[0] in ns;
      AckKeepsInv(s, ns[0]);
      OthersStay(s, ns);
      AckAllKeepsInv(Ack(s, ns[0]), ns[1..]);
    }
  }

  lemma {:induction false} AckAllAcks(s: State, ns: seq<nat>)
    requires Ascending(ns) && forall n :: n in ns ==> n in s.packets
    ensures AckAll(s, ns).trace.acked == s.trace.acked + (set n | n in ns)
    decreases |ns|
  {
    if ns != [] {
      assert ns[0] in ns;
      OthersStay(s, ns);
      AckAllAcks(Ack(s, ns[0]), ns[1..]);
    }
  }

  /** The packets in the history that an ACK frame acknowledges, in order. */
  function NewlyAcked(order: seq<nat>, acks: set<nat>): seq<nat> {
    if order == [] then []
    else (if order[0] in acks then [order[0]] else []) + NewlyAcked(order[1..], acks)
  }

  lemma {:induction false} NewlyAckedMembers(order: seq<nat>, acks: set<nat>)
    ensures forall n :: n in NewlyAcked(order, acks) <==> n in order && n in acks
  {
    if order != [] {
      NewlyAckedMembers(order[1..], acks);
      assert order == [order[0]] + order[1..];
    }
  }

  lemma {:induction false} NewlyAckedAscending(order: seq<nat>, acks: set<nat>)
    requires Ascending(order)
    ensures Ascending(NewlyAcked(order, acks))
  {
    if order != [] {
      NewlyAckedAscending(order[1..], acks);
      NewlyAckedMembers(order[1..], acks);
      var rest := NewlyAcked(order[1..], acks);
      forall j | 0 <= j < |rest|
        ensures order[0] < rest[j]
      {
        assert rest[j] in order[1..];
      }
    }
  }

  ghost function ReceivedAck(s: State, acks: set<nat>, largest: nat): (r: State)
    ensures r.trace.discardedBytes == s.trace.discardedBytes
  {
    AckAll(s.(largestAcked := Max(s.largestAcked, largest)), NewlyAcked(s.order, acks))
  }

  lemma ReceivedAckKeepsInv(s: State, acks: set<nat>, largest: nat)
    requires Inv(s)
    ensures Inv(ReceivedAck(s, acks, largest))
  {
    var s0 := s.(largestAcked := Max(s.largestAcked, largest));
    assert Inv(s0) by {
      forall n | n in s0.trace.sent
        ensures Accounted(s0, n)
      {
        assert Accounted(s, n);
      }
    }
    NewlyAckedAscending(s.order, acks);
    NewlyAckedMembers(s.order, acks);
    AckAllKeepsInv(s0, NewlyAcked(s.order, acks));
    AckAllAcks(s0, NewlyAcked(s.order, acks));
  }

  // ---------------------------------------------------------------- completing the handshake

  function HandshakeNumbers(order: seq<nat>, packets: Packets): seq<nat> {
    if order == [] then []
    else
      (if order[0] in packets && !packets[order[0]].oneRtt then [order[0]] else [])
      + HandshakeNumbers(order[1..], packets)
  }

  function KeepOneRtt(queue: seq<Queued>): seq<Queued> {
    if queue == [] then []
    else if queue[0].oneRtt then [queue[0]] + KeepOneRtt(queue[1..])
    else KeepOneRtt(queue[1..])
  }

  /** Removes a handshake packet from the history; the byte counter is not told. */
  function Discard(s: State, n: nat): State
    requires n in s.packets
  {
    Remove(s, n).(trace := s.trace.(discarded := s.trace.discarded + {n},
                                    discardedBytes := s.trace.discardedBytes + s.packets[n].length))
  }

  lemma DiscardKeepsInv(s: State, n: nat)
    requires Inv(s) && Rootless(s, n)
    ensures Inv(Discard(s, n))
  {
    RemoveTotal(s, n);
    RemoveKeepsTree(s.packets, n);
    var s' := Discard(s, n);
    forall k | k in s'.trace.sent
      ensures Accounted(s', k)
    {
      assert Accounted(s, k);
      if AckedAncestor(s.trace, k) {
        AckedAncestorGrows(s.trace, s'.trace, k);
      }
    }
  }

  function DiscardAll(s: State, ns: seq<nat>): (r: State)
    ensures r.trace.discardedBytes >= s.trace.discardedBytes
    decreases |ns|
  {
    if ns == [] then s
    else DiscardAll(if ns[0] in s.packets then Discard(s, ns[0]) else s, ns[1..])
  }

  lemma OldestHandshakeIsRootless(s: State, ns: seq<nat>)
    requires TreeInv(s.packets, None) && Ascending(ns) && ns != []
    requires forall n :: n in ns <==> n in s.packets && !s.packets[n].oneRtt
    ensures Rootless(s, ns[0])
    ensures var s1 := Discard(s, ns[0]); forall k :: k in ns[1..] <==> k in s1.packets && !s1.packets[k].oneRtt
  {
    var n := ns[0];
    assert n in ns;
    assert forall k :: k in ns ==> n <= k;
    var s1 := Discard(s, n);
    forall k
      ensures k in ns[1..] <==> k in s1.packets && !s1.packets[k].oneRtt
    {
      assert k in ns <==> k == n || k in ns[1..];
      assert n !in ns[1..];
    }
  }

  /** Retransmissions keep the encryption level, so an original leaves before its copies do. */
  lemma {:induction false} DiscardAllKeepsInv(s: State, ns: seq<nat>)
    requires Inv(s) && Ascending(ns)
    requires forall n :: n in ns <==> n in s.packets && !s.packets[n].oneRtt
    ensures Inv(DiscardAll(s, ns))
    decreases |ns|
  {
    if ns != [] {
      OldestHandshakeIsRootless(s, ns);
      DiscardKeepsInv(s, ns[0]);
      DiscardAllKeepsInv(Discard(s, ns[0]), ns[1..]);
    }
  }

  lemma {:induction false} DiscardAllKeepsOthers(s: State, ns: seq<nat>)
    requires TreeInv(s.packets, None) && Ascending(ns)
    requires forall n :: n in ns <==> n in s.packets && !s.packets[n].oneRtt
    ensures forall n :: n in DiscardAll(s, ns).packets <==> n in s.packets && s.packets[n].oneRtt
    ensures DiscardAll(s, ns).queue == s.queue
    decreases |ns|
  {
    if ns != [] {
      OldestHandshakeIsRootless(s, ns);
      RemoveKeepsTree(s.packets, ns[0]);
      DiscardAllKeepsOthers(Discard(s, ns[0]), ns[1..]);
    }
  }

  lemma {:induction false} HandshakeNumbersAre(order: seq<nat>, packets: Packets)
    requires Ascending(order)
    ensures Ascending(HandshakeNumbers(order, packets))
    ensures forall n :: n in HandshakeNumbers(order, packets) <==> n in order && n in packets && !packets[n].oneRtt
  {
    if order != [] {
      HandshakeNumbersAre(order[1..], packets);
      assert order == [order[0]] + order[1..];
      var rest := HandshakeNumbers(order[1..], packets);
      forall j | 0 <= j < |rest|
        ensures order[0] < rest[j]
      {
        assert rest[j] in order[1..];
      }
    }
  }

  ghost function SetHandshakeComplete(s: State): (r: State)
    ensures r.trace.discardedBytes >= s.trace.discardedBytes
  {
    var s1 := DiscardAll(s, HandshakeNumbers(s.order, s.packets));
    var dropped := set i | 0 <= i < |s.queue| && !s.queue[i].oneRtt :: s.queue[i].number;
    s1.(queue := KeepOneRtt(s.queue), trace := s1.trace.(dropped := s1.trace.dropped + dropped))
  }

  lemma {:induction false} KeepOneRttMembers(queue: seq<Queued>)
    requires NumberedApart(queue)
    ensures NumberedApart(KeepOneRtt(queue))
    ensures forall e :: e in KeepOneRtt(queue) <==> e in queue && e.oneRtt
  {
    if queue != [] {
      KeepOneRttMembers(queue[1..]);
      assert queue == [queue[0]] + queue[1..];
      var rest := KeepOneRtt(queue[1..]);
      forall j | 0 <= j < |rest|
        ensures queue[0].number != rest[j].number
      {
        assert rest[j] in queue[1..];
      }
    }
  }

  lemma KeepOneRttKeepsInv(s: State)
    requires Inv(s)
    ensures var dropped := set i | 0 <= i < |s.queue| && !s.queue[i].oneRtt :: s.queue[i].number;
      Inv(s.(queue := KeepOneRtt(s.queue), trace := s.trace.(dropped := s.trace.dropped + dropped)))
  {
    var dropped := set i | 0 <= i < |s.queue| && !s.queue[i].oneRtt :: s.queue[i].number;
    var s' := s.(queue := KeepOneRtt(s.queue), trace := s.trace.(dropped := s.trace.dropped + dropped));
    KeepOneRttMembers(s.queue);
    forall n
      ensures InQueue(s'.queue, n) ==> InQueue(s.queue, n) && n !in dropped
      ensures InQueue(s.queue, n) ==> InQueue(s'.queue, n) || n in dropped
    {
      if InQueue(s'.queue, n) {
        var i :| 0 <= i < |s'.queue| && s'.queue[i].number == n;
        assert s'.queue[i] in s.queue;
      }
      if InQueue(s.queue, n) {
        var i :| 0 <= i < |s.queue| && s.queue[i].number == n;
        assert s.queue[i] in s.queue;
        assert s.queue[i].oneRtt ==> s.queue[i] in s'.queue;
      }
    }
    forall n | n in dropped
      ensures InQueue(s.queue, n)
    {
    }
    forall n | n in s'.trace.sent
      ensures Accounted(s', n)
    {
      assert Accounted(s, n);
      if AckedAncestor(s.trace, n) {
        AckedAncestorGrows(s.trace, s'.trace, n);
      }
    }
  }

  lemma SetHandshakeCompleteKeepsInv(s: State)
    requires Inv(s)
    ensures Inv(SetHandshakeComplete(s))
  {
    HandshakeNumbersAre(s.order, s.packets);
    DiscardAllKeepsInv(s, HandshakeNumbers(s.order, s.packets));
    DiscardAllKeepsOthers(s, HandshakeNumbers(s.order, s.packets));
    KeepOneRttKeepsInv(DiscardAll(s, HandshakeNumbers(s.order, s.packets)));
  }

  // ---------------------------------------------------------------- alarms and probes

  /** The first packet in the history that can be retransmitted. */
  function FirstOutstanding(order: seq<nat>, packets: Packets): (r: Option<nat>)
    ensures r.Some? ==> r.value in order && r.value in packets && packets[r.value].canBeRetransmitted
    ensures r.None? ==> forall n :: n in order && n in packets ==> !packets[n].canBeRetransmitted
  {
    if order == [] then None
    else if order[0] in packets && packets[order[0]].canBeRetransmitted then Some(order[0])
    else FirstOutstanding(order[1..], packets)
  }

  /** The handshake packets that are outstanding. */
  function OutstandingHandshake(order: seq<nat>, packets: Packets): seq<nat> {
    if order == [] then []
    else
      (if order[0] in packets && packets[order[0]].canBeRetransmitted && !packets[order[0]].oneRtt then [order[0]] else [])
      + OutstandingHandshake(order[1..], packets)
  }

  lemma {:induction false} OutstandingHandshakeAre(order: seq<nat>, packets: Packets)
    requires Ascending(order)
    ensures Ascending(OutstandingHandshake(order, packets))
    ensures forall n :: n in OutstandingHandshake(order, packets) <==>
      n in order && n in packets && packets[n].canBeRetransmitted && !packets[n].oneRtt
  {
    if order != [] {
      OutstandingHandshakeAre(order[1..], packets);
      assert order == [order[0]] + order[1..];
      var rest := OutstandingHandshake(order[1..], packets);
      forall j | 0 <= j < |rest|
        ensures order[0] < rest[j]
      {
        assert rest[j] in order[1..];
      }
    }
  }

  /** Queues all outstanding handshake packets. */
  function QueueHandshake(s: State): (r: State)
    ensures r.trace.discardedBytes == s.trace.discardedBytes
  {
    QueueAll(s, OutstandingHandshake(s.order, s.packets))
  }

  /** A probe takes the front of the queue, or else the first outstanding packet. */
  function Probe(s: State): (r: State)
    ensures r.trace.discardedBytes == s.trace.discardedBytes
  {
    if s.queue != [] then Dequeue(s)
    else
      match FirstOutstanding(s.order, s.packets)
      case None => s
      case Some(n) => Dequeue(Queue(s, n))
  }

  // ---------------------------------------------------------------- runs

  datatype Event =
    | Send(p: Outgoing)
    | Retransmit(ps: seq<Outgoing>, of: nat)
    | ReceiveAck(acks: set<nat>, largest: nat, now: int, delay: int)
    | LossAlarm(now: int, delay: int)
    | HandshakeAlarm
    | SendProbe
    | TakeFromQueue
    | HandshakeComplete

  ghost predicate Step(s: State, e: Event, s': State) {
    match e
    case Send(p) => Next(s, p) && s' == Sent(s, p, None)
    case Retransmit(ps, of) => MayRetransmit(s, ps, of) && s' == SentAsRetransmission(s, ps, of)
    case ReceiveAck(acks, largest, now, delay) =>
      s' == DetectLost(ReceivedAck(s, acks, largest), now, delay)
    case LossAlarm(now, delay) => s' == DetectLost(s, now, delay)
    case HandshakeAlarm => s' == QueueHandshake(s)
    case SendProbe => s' == Probe(s)
    case TakeFromQueue => s' == Dequeue(s)
    case HandshakeComplete => s' == SetHandshakeComplete(s)
  }

  lemma StepKeepsInv(s: State, e: Event, s': State)
    requires Inv(s) && Step(s, e, s')
    ensures Inv(s')
  {
    match e {
      case Send(p) => SentKeepsInv(s, p, None);
      case Retransmit(ps, of) => SentAsRetransmissionKeepsInv(s, ps, of);
      case ReceiveAck(acks, largest, now, delay) =>
        ReceivedAckKeepsInv(s, acks, largest);
        DetectLostKeepsInv(ReceivedAck(s, acks, largest), now, delay);
      case LossAlarm(now, delay) => DetectLostKeepsInv(s, now, delay);
      case HandshakeAlarm =>
        OutstandingHandshakeAre(s.order, s.packets);
        QueueAllKeepsInv(s, OutstandingHandshake(s.order, s.packets));
      case SendProbe => ProbeKeepsInv(s);
      case TakeFromQueue => DequeueKeepsInv(s);
      case HandshakeComplete => SetHandshakeCompleteKeepsInv(s);
    }
  }

  lemma ProbeKeepsInv(s: State)
    requires Inv(s)
    ensures Inv(Probe(s))
  {
    DequeueKeepsInv(s);
    if s.queue == [] && FirstOutstanding(s.order, s.packets).Some? {
      var n := FirstOutstanding(s.order, s.packets).value;
      QueueKeepsInv(s, n);
      DequeueKeepsInv(Queue(s, n));
    }
  }

  /** A run: a state before every event, and one after the last. */
  ghost predicate Run(ss: seq<State>, es: seq<Event>) {
    && |ss| == |es| + 1
    && Init(ss[0])
    && forall i :: 0 <= i < |es| ==> Step(ss[i], es[i], ss[i + 1])
  }

  lemma InitInv(s: State)
    requires Init(s)
    ensures Inv(s)
  {
  }

  lemma {:induction false} RunInv(ss: seq<State>, es: seq<Event>, i: nat)
    requires Run(ss, es) && i < |ss|
    ensures Inv(ss[i])
  {
    if i > 0 {
      RunInv(ss, es, i - 1);
      StepKeepsInv(ss[i - 1], es[i - 1], ss[i]);
    } else {
      InitInv(ss[0]);
    }
  }

  /** In every reachable state a listed retransmission is a later packet that is in the history. */
  lemma TreeIsClosed(ss: seq<State>, es: seq<Event>, i: nat, q: nat, r: nat)
    requires Run(ss, es) && i < |ss| && q in ss[i].packets && r in ss[i].packets[q].retransmittedAs
    ensures q < r && r in ss[i].packets && ss[i].packets[r].retransmissionOf == Some(q)
  {
    RunInv(ss, es, i);
    assert r in ss[i].packets && ss[i].packets[r].retransmissionOf == Some(q);
  }

  /**
   Nothing is forgotten: every retransmittable packet ever sent is outstanding, was acknowledged,
   entered the retransmission queue, retransmits something that was acknowledged, or was
   discarded when the handshake completed.
   */
  lemma NothingForgotten(ss: seq<State>, es: seq<Event>, i: nat, n: nat)
    requires Run(ss, es) && i < |ss| && n in ss[i].trace.sent
    ensures Accounted(ss[i], n)
  {
    RunInv(ss, es, i);
  }

  /** No packet number enters the queue twice, and what entered is waiting, was taken or was dropped. */
  lemma QueuedOnce(ss: seq<State>, es: seq<Event>, i: nat)
    requires Run(ss, es) && i < |ss|
    ensures QueueInv(ss[i])
  {
    RunInv(ss, es, i);
  }

  /** The byte counter is exact up to what the handshake forgot, so no subtraction underflows. */
  lemma BytesAreExact(ss: seq<State>, es: seq<Event>, i: nat)
    requires Run(ss, es) && i < |ss|
    ensures BytesInv(ss[i])
    ensures forall n :: n in ss[i].packets ==> ss[i].packets[n].length <= ss[i].bytesInFlight
  {
    RunInv(ss, es, i);
    forall n | n in ss[i].packets
      ensures ss[i].packets[n].length <= ss[i].bytesInFlight
    {
      TotalWithout(ss[i].order, n, ss[i].packets);
    }
  }

  // ---------------------------------------------------------------- what the handshake forgets

  /** The counter equals the bytes in the history. */
  ghost predicate Exact(s: State)
    requires BytesInv(s)
  {
    s.bytesInFlight == Total(s.order, s.packets)
  }

  lemma {:induction false} DiscardedBytes(s: State, ns: seq<nat>)
    requires Inv(s) && Ascending(ns)
    requires forall n :: n in ns <==> n in s.packets && !s.packets[n].oneRtt
    ensures var s' := DiscardAll(s, ns);
      && s'.trace.discardedBytes >= s.trace.discardedBytes
      && (s'.trace.discardedBytes == s.trace.discardedBytes <==> forall n :: n in ns ==> s.packets[n].length == 0)
    decreases |ns|
  {
    if ns != [] {
      OldestHandshakeIsRootless(s, ns);
      DiscardKeepsInv(s, ns[0]);
      DiscardedBytes(Discard(s, ns[0]), ns[1..]);
      assert ns[0] in ns;
      assert forall n :: n in ns <==> n == ns[0] || n in ns[1..];
    }
  }

  /**
   Completing the handshake keeps the counter equal to the bytes in the history exactly when
   every handshake packet in the history is empty.
   */
  lemma HandshakeKeepsExactIff(s: State)
    requires Inv(s) && Exact(s)
    ensures BytesInv(SetHandshakeComplete(s))
    ensures Exact(SetHandshakeComplete(s)) <==>
      forall n :: n in s.packets && !s.packets[n].oneRtt ==> s.packets[n].length == 0
  {
    SetHandshakeCompleteKeepsInv(s);
    HandshakeNumbersAre(s.order, s.packets);
    var ns := HandshakeNumbers(s.order, s.packets);
    DiscardAllKeepsOthers(s, ns);
    DiscardedBytes(s, ns);
  }

  /** A run with one handshake packet of 1200 bytes: after the handshake the counter is wrong by all of them. */
  lemma HandshakeLosesExactness(s: State) returns (ss: seq<State>, es: seq<Event>)
    requires Init(s)
    ensures es == [Send(Outgoing(1, 1200, false, s.lastTime, true)), HandshakeComplete]
    ensures |ss| == 3 && ss[0] == s && Run(ss, es)
    ensures ss[2].bytesInFlight == 1200 && ss[2].order == []
  {
    var p := Outgoing(1, 1200, false, s.lastTime, true);
    var s1 := Sent(s, p, None);
    var s2 := OneHandshakePacket(s1, 1);
    ss, es := [s, s1, s2], [Send(p), HandshakeComplete];
  }

  lemma OneHandshakePacket(s: State, n: nat) returns (s': State)
    requires s.order == [n] && n in s.packets && !s.packets[n].oneRtt
    ensures s' == SetHandshakeComplete(s) && s'.order == [] && s'.bytesInFlight == s.bytesInFlight
  {
    assert HandshakeNumbers(s.order, s.packets) == [n];
    var s1 := Discard(s, n);
    assert DiscardAll(s, [n]) == DiscardAll(s1, []) == s1;
    assert Without([n], n) == [];
    s' := SetHandshakeComplete(s);
  }

  lemma StepOnlyAddsDrift(s: State, e: Event, s': State)
    requires Step(s, e, s')
    ensures s.trace.discardedBytes <= s'.trace.discardedBytes
  {
  }

  lemma {:induction false} DriftGrows(ss: seq<State>, es: seq<Event>, i: nat, j: nat)
    requires Run(ss, es) && i <= j < |ss|
    ensures ss[i].trace.discardedBytes <= ss[j].trace.discardedBytes
    decreases j
  {
    if i < j {
      DriftGrows(ss, es, i, j - 1);
      StepOnlyAddsDrift(ss[j - 1], es[j - 1], ss[j]);
    }
  }

  /** What was lost from the counter's accuracy never comes back in the rest of the run. */
  lemma DriftIsPermanent(ss: seq<State>, es: seq<Event>, i: nat, j: nat)
    requires Run(ss, es) && i <= j < |ss|
    ensures BytesInv(ss[i]) && BytesInv(ss[j])
    ensures ss[i].bytesInFlight - Total(ss[i].order, ss[i].packets)
         <= ss[j].bytesInFlight - Total(ss[j].order, ss[j].packets)
  {
    RunInv(ss, es, i);
    RunInv(ss, es, j);
    DriftGrows(ss, es, i, j);
  }
}