/** The sent packet handler: the fields and loops that take the steps of `LossRecovery`. */
module SentPacketHandlers {
  import opened Protocol
  import opened LossRecovery
  import opened SentPacketHistories
  import opened AckRanges
  import opened AckOrder
  import opened LossLaws

  // ---------------------------------------------------------------- marking a set of packets

  ghost function MarkSet(packets: Packets, marked: set<nat>): Packets {
    map n | n in packets :: if n in marked then packets[n].(canBeRetransmitted := false) else packets[n]
  }

  ghost function DescendantsOf(packets: Packets, a: nat): set<nat> {
    set d | d in packets && Descends(packets, d, a)
  }

  lemma StopIsMark(packets: Packets, a: nat)
    ensures StopRetransmissions(packets, a) == MarkSet(packets, DescendantsOf(packets, a))
  {
  }

  lemma MarkTwice(packets: Packets, a: set<nat>, b: set<nat>)
    ensures MarkSet(MarkSet(packets, a), b) == MarkSet(packets, a + b)
  {
  }

  lemma MarkOne(packets: Packets, n: nat)
    requires n in packets
    ensures packets[n := packets[n].(canBeRetransmitted := false)] == MarkSet(packets, {n})
  {
  }

  lemma {:induction false} MarkKeepsDescent(packets: Packets, marked: set<nat>, d: nat, a: nat)
    ensures Descends(MarkSet(packets, marked), d, a) <==> Descends(packets, d, a)
    decreases d
  {
    if d in packets && packets[d].retransmissionOf.Some? && packets[d].retransmissionOf.value < d {
      MarkKeepsDescent(packets, marked, packets[d].retransmissionOf.value, a);
    }
  }

  lemma MarkKeepsDescendants(packets: Packets, marked: set<nat>, a: nat)
    ensures DescendantsOf(MarkSet(packets, marked), a) == DescendantsOf(packets, a)
  {
    forall d | d in packets
      ensures Descends(MarkSet(packets, marked), d, a) <==> Descends(packets, d, a)
    {
      MarkKeepsDescent(packets, marked, d, a);
    }
  }

  lemma MarkKeepsTree(packets: Packets, marked: set<nat>, open: Option<nat>)
    requires TreeInv(packets, open)
    ensures TreeInv(MarkSet(packets, marked), open)
  {
    RetagKeepsTree(packets, open, MarkSet(packets, marked));
  }

  /** Stopping the retransmissions of one more packet, which is in the history, marks what descends from it. */
  lemma StopIsMarkMore(packets: Packets, marked: set<nat>, open: Option<nat>, n: nat, r: nat, last: nat)
    requires TreeInv(packets, open) && n in packets && r in packets[n].retransmittedAs && BoundedBy(packets, last)
    ensures r in MarkSet(packets, marked) && n < r <= last && BoundedBy(MarkSet(packets, marked), last)
    ensures TreeInv(MarkSet(packets, marked), open)
    ensures StopRetransmissions(MarkSet(packets, marked), r) == MarkSet(packets, marked + DescendantsOf(packets, r))
  {
    assert packets[r].retransmissionOf == Some(n);
    MarkKeepsTree(packets, marked, open);
    MarkKeepsDescendants(packets, marked, r);
    StopIsMark(MarkSet(packets, marked), r);
    MarkTwice(packets, marked, DescendantsOf(packets, r));
  }

  /** What descends from the first `i` of these packets. */
  ghost function DescendantsOfAll(packets: Packets, roots: seq<nat>): set<nat> {
    if roots == [] then {}
    else DescendantsOfAll(packets, roots[..|roots| - 1]) + DescendantsOf(packets, roots[|roots| - 1])
  }

  lemma {:induction false} DescendantsOfAllHas(packets: Packets, roots: seq<nat>, d: nat)
    ensures d in DescendantsOfAll(packets, roots) <==> exists i :: 0 <= i < |roots| && d in DescendantsOf(packets, roots[i])
  {
    if roots != [] {
      DescendantsOfAllHas(packets, roots[..|roots| - 1], d);
    }
  }

  /** A packet's descendants are itself and the descendants of its retransmissions. */
  lemma DescendantsUnfold(packets: Packets, open: Option<nat>, a: nat)
    requires TreeInv(packets, open) && open != Some(a) && a in packets
    ensures DescendantsOf(packets, a) == {a} + DescendantsOfAll(packets, packets[a].retransmittedAs)
  {
    var rs := packets[a].retransmittedAs;
    forall d | d in packets
      ensures d in DescendantsOf(packets, a) <==> d == a || d in DescendantsOfAll(packets, rs)
    {
      DescendantsOfAllHas(packets, rs, d);
      if d in DescendantsOf(packets, a) && d != a {
        var r := DescendsThroughChild(packets, open, d, a);
        var i :| 0 <= i < |rs| && rs[i] == r;
        assert d in DescendantsOf(packets, rs[i]);
      }
      if d in DescendantsOfAll(packets, rs) {
        var i :| 0 <= i < |rs| && d in DescendantsOf(packets, rs[i]);
        ChildDescends(packets, open, d, rs[i], a);
      }
    }
    forall d | d in DescendantsOfAll(packets, rs)
      ensures d in packets
    {
      DescendantsOfAllHas(packets, rs, d);
    }
  }

  /** A packet and what descends from its first `i` retransmissions are marked. */
  ghost function MarkedUpTo(packets: Packets, n: nat, i: nat): Packets
    requires n in packets && i <= |packets[n].retransmittedAs|
  {
    MarkSet(packets, {n} + DescendantsOfAll(packets, packets[n].retransmittedAs[..i]))
  }

  lemma MarkedUpToNone(packets: Packets, n: nat)
    requires n in packets
    ensures MarkedUpTo(packets, n, 0) == packets[n := packets[n].(canBeRetransmitted := false)]
  {
    MarkOne(packets, n);
    assert {n} + {} == {n};
  }

  lemma MarkedUpToNext(packets: Packets, open: Option<nat>, n: nat, i: nat, last: nat)
    requires n in packets && i < |packets[n].retransmittedAs|
    requires TreeInv(packets, open) && BoundedBy(packets, last)
    ensures var r, m := packets[n].retransmittedAs[i], MarkedUpTo(packets, n, i);
      && r in m && n < r <= last && BoundedBy(m, last) && TreeInv(m, open)
      && StopRetransmissions(m, r) == MarkedUpTo(packets, n, i + 1)
  {
    var rs := packets[n].retransmittedAs;
    DescendantsOfOneMore(packets, rs, i, {n});
    StopIsMarkMore(packets, {n} + DescendantsOfAll(packets, rs[..i]), open, n, rs[i], last);
  }

  lemma DescendantsOfOneMore(packets: Packets, rs: seq<nat>, i: nat, marked: set<nat>)
    requires i < |rs|
    ensures marked + DescendantsOfAll(packets, rs[..i]) + DescendantsOf(packets, rs[i])
      == marked + DescendantsOfAll(packets, rs[..i + 1])
  {
    assert rs[..i + 1][..i] == rs[..i];
    SetsAssociate(marked, DescendantsOfAll(packets, rs[..i]), DescendantsOf(packets, rs[i]));
  }

  lemma SetsAssociate(a: set<nat>, b: set<nat>, c: set<nat>)
    ensures a + b + c == a + (b + c)
  {
  }

  lemma MarkedUpToAll(packets: Packets, open: Option<nat>, n: nat)
    requires n in packets && TreeInv(packets, open) && open != Some(n)
    ensures MarkedUpTo(packets, n, |packets[n].retransmittedAs|) == StopRetransmissions(packets, n)
  {
    var rs := packets[n].retransmittedAs;
    assert rs[..|rs|] == rs;
    DescendantsUnfold(packets, open, n);
    StopIsMark(packets, n);
  }

  /**
   Marks a packet and, recursively, everything it was retransmitted as. `ok` is false if a
   retransmission is missing from the history, which the source reports as a bug.
   */
  method StopRetransmissionsFor(history: SentPacketHistory, n: nat, ghost open: Option<nat>, ghost last: nat)
    returns (ok: bool)
    requires history.Valid() && n in history.packetMap && n <= last
    requires TreeInv(history.packetMap, open) && (open.Some? ==> open.value < n)
    requires BoundedBy(history.packetMap, last)
    modifies history
    ensures ok && history.Valid() && history.list == old(history.list)
    ensures history.packetMap == StopRetransmissions(old(history.packetMap), n)
    decreases last - n, 1
  {
    ghost var m0 := history.packetMap;
    var rs := history.packetMap[n].retransmittedAs;
    ok := history.MarkCannotBeRetransmitted(n);
    MarkedUpToNone(m0, n);
    ok := StopChildren(history, rs, m0, n, open, last);
    MarkedUpToAll(m0, open, n);
  }

  /** Does so for all packets that `n` was retransmitted as; `m0` is the history before. */
  method StopChildren(history: SentPacketHistory, rs: seq<nat>, ghost m0: Packets, ghost n: nat, ghost open: Option<nat>, ghost last: nat)
    returns (ok: bool)
    requires n in m0 && rs == m0[n].retransmittedAs && n <= last && TreeInv(m0, open) && BoundedBy(m0, last)
    requires history.Valid() && history.packetMap == MarkedUpTo(m0, n, 0) && (open.Some? ==> open.value < n)
    modifies history
    ensures ok && history.Valid() && history.list == old(history.list)
    ensures history.packetMap == MarkedUpTo(m0, n, |rs|)
    decreases last - n, 0
  {
    ok := true;
    var i := 0;
    while i < |rs|
      invariant 0 <= i <= |rs| && ok
      invariant history.Valid() && history.list == old(history.list)
      invariant history.packetMap == MarkedUpTo(m0, n, i)
    {
      MarkedUpToNext(m0, open, n, i, last);
      if rs[i] !in history.packetMap {
        return false;
      }
      ok := StopRetransmissionsFor(history, rs[i], open, last);
      i := i + 1;
    }
  }

  // ---------------------------------------------------------------- sending several packets

  function ToPacket(p: Outgoing, parent: Option<nat>): Packet {
    Packet(p.number, p.length, p.oneRtt, p.sendTime, true, true, [], parent)
  }

  /** The packets that go into the history. */
  function Retained(ps: seq<Outgoing>): seq<Outgoing> {
    if ps == [] then []
    else if ps[0].retransmittable then [ps[0]] + Retained(ps[1..])
    else Retained(ps[1..])
  }

  function Added(packets: Packets, ps: seq<Outgoing>, parent: Option<nat>): Packets
    decreases |ps|
  {
    if ps == [] then packets else Added(packets[ps[0].number := ToPacket(ps[0], parent)], ps[1..], parent)
  }

  function AllNumbers(ps: seq<Outgoing>): seq<nat> {
    if ps == [] then [] else [ps[0].number] + AllNumbers(ps[1..])
  }

  lemma {:induction false} RetainedNumbers(ps: seq<Outgoing>)
    ensures AllNumbers(Retained(ps)) == Numbers(ps)
  {
    if ps != [] {
      RetainedNumbers(ps[1..]);
      if ps[0].retransmittable {
        assert Retained(ps)[1..] == Retained(ps[1..]);
      }
    }
  }

  /** Sending packets one by one changes the history as adding the retained ones does. */
  lemma SentAllHistory(s: State, ps: seq<Outgoing>, parent: Option<nat>)
    ensures SentAll(s, ps, parent).order == s.order + Numbers(ps)
    ensures SentAll(s, ps, parent).packets == Added(s.packets, Retained(ps), parent)
    ensures SentAll(s, ps, parent).queue == s.queue && SentAll(s, ps, parent).largestAcked == s.largestAcked
  {
    SentAllOrder(s, ps, parent);
    SentAllPackets(s, ps, parent);
  }

  lemma {:induction false} SentAllOrder(s: State, ps: seq<Outgoing>, parent: Option<nat>)
    ensures SentAll(s, ps, parent).order == s.order + Numbers(ps)
    ensures SentAll(s, ps, parent).queue == s.queue && SentAll(s, ps, parent).largestAcked == s.largestAcked
    decreases |ps|
  {
    if ps != [] {
      var s1 := Sent(s, ps[0], parent);
      SentAllOrder(s1, ps[1..], parent);
      assert s1.order + Numbers(ps[1..]) == s.order + Numbers(ps);
    }
  }

  lemma {:induction false} SentAllPackets(s: State, ps: seq<Outgoing>, parent: Option<nat>)
    ensures SentAll(s, ps, parent).packets == Added(s.packets, Retained(ps), parent)
    decreases |ps|
  {
    if ps != [] {
      var s1 := Sent(s, ps[0], parent);
      SentAllPackets(s1, ps[1..], parent);
      if ps[0].retransmittable {
        assert Retained(ps)[1..] == Retained(ps[1..]);
        assert s1.packets == s.packets[ps[0].number := ToPacket(ps[0], parent)];
      }
    }
  }

  /** Numbers rise above `n`. */
  ghost predicate RisesAbove(ps: seq<Outgoing>, n: nat) {
    ps == [] || (n < ps[0].number && RisesAbove(ps[1..], ps[0].number))
  }

  lemma {:induction false} RetainedRises(ps: seq<Outgoing>, n: nat, t: int)
    requires Increasing(ps, n, t)
    ensures RisesAbove(Retained(ps), n)
  {
    if ps != [] {
      RetainedRises(ps[1..], ps[0].number, ps[0].sendTime);
      if ps[0].retransmittable {
        assert Retained(ps)[1..] == Retained(ps[1..]);
      } else {
        RisesFromLower(Retained(ps[1..]), ps[0].number, n);
      }
    }
  }

  lemma RisesFromLower(ps: seq<Outgoing>, n: nat, lower: nat)
    requires RisesAbove(ps, n) && lower <= n
    ensures RisesAbove(ps, lower)
  {
  }

  lemma {:induction false} AddedKeeps(packets: Packets, ps: seq<Outgoing>, parent: Option<nat>, n: nat, last: nat)
    requires RisesAbove(ps, last) && n in packets && n <= last
    ensures n in Added(packets, ps, parent) && Added(packets, ps, parent)[n] == packets[n]
    decreases |ps|
  {
    if ps != [] {
      AddedKeeps(packets[ps[0].number := ToPacket(ps[0], parent)], ps[1..], parent, n, ps[0].number);
    }
  }

  method AddToHistory(history: SentPacketHistory, ps: seq<Outgoing>, parent: Option<nat>, ghost last: nat)
    requires history.Valid() && RisesAbove(ps, last) && forall n :: n in history.list ==> n <= last
    modifies history
    ensures history.Valid() && history.list == old(history.list) + AllNumbers(ps)
    ensures history.packetMap == Added(old(history.packetMap), ps, parent)
  {
    ghost var top := last;
    var rest := ps;
    while rest != []
      invariant history.Valid()
      invariant RisesAbove(rest, top) && forall n :: n in history.list ==> n <= top
      invariant history.list + AllNumbers(rest) == old(history.list) + AllNumbers(ps)
      invariant Added(history.packetMap, rest, parent) == Added(old(history.packetMap), ps, parent)
      decreases |rest|
    {
      NumbersNext(history.list, rest);
      history.SentPacket(ToPacket(rest[0], parent));
      top := rest[0].number;
      rest := rest[1..];
    }
  }

  lemma NumbersNext(list: seq<nat>, ps: seq<Outgoing>)
    requires ps != []
    ensures list + AllNumbers(ps) == (list + [ps[0].number]) + AllNumbers(ps[1..])
  {
  }

  /** Adds retransmissions to the history and links them to their original, if that is still there. */
  method AddRetransmissions(history: SentPacketHistory, ps: seq<Outgoing>, of: nat, ghost last: nat)
    requires history.Valid() && RisesAbove(ps, last) && forall n :: n in history.list ==> n <= last
    modifies history
    ensures history.Valid() && history.list == old(history.list) + AllNumbers(ps)
    ensures of !in old(history.packetMap) ==> history.packetMap == Added(old(history.packetMap), ps, None)
    ensures of in old(history.packetMap) ==>
      var added := Added(old(history.packetMap), ps, Some(of));
      of in added && history.packetMap == added[of := added[of].(retransmittedAs := AllNumbers(ps))]
  {
    if of !in history.packetMap {
      AddToHistory(history, ps, None, last);
      return;
    }
    AddedKeeps(history.packetMap, ps, Some(of), of, last);
    AddToHistory(history, ps, Some(of), last);
    history.SetRetransmittedAs(of, AllNumbers(ps));
  }

  /** A packet that loss detection looks at and does not give up. */
  ghost predicate AtRisk(packets: Packets, largestAcked: nat, now: int, delay: int, n: nat) {
    n in packets && n <= largestAcked && now - packets[n].sendTime <= delay
  }

  /** When the first packet that is at risk will be lost. */
  function NextLoss(list: seq<nat>, packets: Packets, largestAcked: nat, now: int, delay: int): Option<int>
    requires forall n :: n in list ==> n in packets
  {
    if list == [] || list[0] > largestAcked then None
    else if now - packets[list[0]].sendTime > delay then NextLoss(list[1..], packets, largestAcked, now, delay)
    else Some(packets[list[0]].sendTime + delay)
  }

  /** No packet at risk will be lost earlier, and without one at risk there is no such time. */
  lemma {:induction false} NextLossIsEarliest(list: seq<nat>, packets: Packets, largestAcked: nat, now: int, delay: int, n: nat)
    requires Ascending(list) && forall k :: k in list ==> k in packets
    requires forall a, b :: a in packets && b in packets && a < b ==> packets[a].sendTime <= packets[b].sendTime
    requires n in list && AtRisk(packets, largestAcked, now, delay, n)
    ensures var t := NextLoss(list, packets, largestAcked, now, delay);
      t.Some? && now <= t.value <= packets[n].sendTime + delay
  {
    assert list[0] <= n;
    if now - packets[list[0]].sendTime > delay {
      NextLossIsEarliest(list[1..], packets, largestAcked, now, delay, n);
    }
  }

  lemma {:induction false} NextLossIsReached(list: seq<nat>, packets: Packets, largestAcked: nat, now: int, delay: int) returns (n: nat)
    requires forall k :: k in list ==> k in packets
    requires NextLoss(list, packets, largestAcked, now, delay).Some?
    ensures n in list && AtRisk(packets, largestAcked, now, delay, n)
    ensures NextLoss(list, packets, largestAcked, now, delay) == Some(packets[n].sendTime + delay)
  {
    n := list[0];
    if now - packets[list[0]].sendTime > delay {
      n := NextLossIsReached(list[1..], packets, largestAcked, now, delay);
    }
  }

  /** `t` is when the next packet will be lost, or none if no packet is at risk. */
  ghost predicate NextLossOf(s: State, now: int, delay: int, t: Option<int>) {
    match t
    case None => forall n :: !AtRisk(s.packets, s.largestAcked, now, delay, n)
    case Some(x) =>
      && (exists n :: AtRisk(s.packets, s.largestAcked, now, delay, n) && x == s.packets[n].sendTime + delay)
      && (forall n :: AtRisk(s.packets, s.largestAcked, now, delay, n) ==> x <= s.packets[n].sendTime + delay)
  }

  lemma NextLossIs(s: State, now: int, delay: int)
    requires OrderInv(s)
    ensures NextLossOf(s, now, delay, NextLoss(s.order, s.packets, s.largestAcked, now, delay))
  {
    forall n | AtRisk(s.packets, s.largestAcked, now, delay, n)
      ensures var t := NextLoss(s.order, s.packets, s.largestAcked, now, delay); t.Some? && t.value <= s.packets[n].sendTime + delay
    {
      NextLossIsEarliest(s.order, s.packets, s.largestAcked, now, delay, n);
    }
    if NextLoss(s.order, s.packets, s.largestAcked, now, delay).Some? {
      var n := NextLossIsReached(s.order, s.packets, s.largestAcked, now, delay);
    }
  }

  /** Giving up the lost packets does not change which are at risk. */
  lemma NextLossAfter(s: State, s': State, lost: seq<nat>, now: int, delay: int, t: Option<int>)
    requires NextLossOf(s, now, delay, t) && Drops(s.packets, s'.packets, lost) && s'.largestAcked == s.largestAcked
    requires forall n :: n in lost ==> IsLost(s, n, now, delay)
    ensures NextLossOf(s', now, delay, t)
  {
    forall n
      ensures AtRisk(s'.packets, s'.largestAcked, now, delay, n) <==> AtRisk(s.packets, s.largestAcked, now, delay, n)
    {
    }
    if t.Some? {
      var n :| AtRisk(s.packets, s.largestAcked, now, delay, n) && t.value == s.packets[n].sendTime + delay;
      assert AtRisk(s'.packets, s'.largestAcked, now, delay, n);
    }
  }

  lemma NextLossAfterDetection(s: State, now: int, delay: int)
    requires Inv(s)
    ensures NextLossOf(DetectLost(s, now, delay), now, delay, NextLoss(s.order, s.packets, s.largestAcked, now, delay))
  {
    NextLossIs(s, now, delay);
    var lost := DetectLostExactly(s, now, delay);
    NextLossAfter(s, DetectLost(s, now, delay), lost, now, delay, NextLoss(s.order, s.packets, s.largestAcked, now, delay));
  }

  lemma CollectNext(lost: seq<nat>, rest: seq<nat>, packets: Packets, largestAcked: nat, now: int, delay: int)
    requires rest != [] && rest[0] in packets && rest[0] <= largestAcked
    ensures var n := rest[0];
      lost + LostNumbers(rest, packets, largestAcked, now, delay) ==
        (if now - packets[n].sendTime > delay then lost + [n] else lost) + LostNumbers(rest[1..], packets, largestAcked, now, delay)
  {
  }

  /** The packets that are lost at `now`, and the time at which the next one will be. */
  method CollectLost(list: seq<nat>, packets: Packets, largestAcked: nat, now: int, delay: int)
    returns (lost: seq<nat>, lossTime: Option<int>)
    requires forall n :: n in list ==> n in packets
    ensures lost == LostNumbers(list, packets, largestAcked, now, delay)
    ensures lossTime == NextLoss(list, packets, largestAcked, now, delay)
  {
    lost, lossTime := [], None;
    var rest := list;
    while rest != []
      invariant forall n :: n in rest ==> n in packets
      invariant lost + LostNumbers(rest, packets, largestAcked, now, delay) ==
                LostNumbers(list, packets, largestAcked, now, delay)
      invariant NextLoss(list, packets, largestAcked, now, delay) ==
                if lossTime.Some? then lossTime else NextLoss(rest, packets, largestAcked, now, delay)
      decreases |rest|
    {
      var n := rest[0];
      if n > largestAcked {
        return;
      }
      CollectNext(lost, rest, packets, largestAcked, now, delay);
      var timeSinceSent := now - packets[n].sendTime;
      if timeSinceSent > delay {
        lost := lost + [n];
      } else if lossTime.None? {
        lossTime := Some(now + (delay - timeSinceSent));
      }
      rest := rest[1..];
    }
  }

  /** The list without `n`, in a new slice. */
  method WithoutNumber(list: seq<nat>, n: nat) returns (r: seq<nat>)
    ensures r == Without(list, n)
  {
    r := [];
    var rest := list;
    while rest != []
      invariant r + Without(rest, n) == Without(list, n)
      decreases |rest|
    {
      if rest[0] != n {
        r := r + [rest[0]];
      }
      rest := rest[1..];
    }
  }

  /** A retransmission that is acknowledged is listed by its original, alone or among others. */
  lemma ListedByOriginal(packets: Packets, n: nat)
    requires TreeInv(packets, None) && n in packets && Original(packets, n).Some?
    ensures var rs := packets[Original(packets, n).value].retransmittedAs;
      n in rs && (|rs| == 1 ==> Without(rs, n) == [])
  {
    var rs := packets[Original(packets, n).value].retransmittedAs;
    if |rs| == 1 {
      assert rs == [n];
    }
  }

  /** Takes an acknowledged packet off the list of its original, if that is still in the history. */
  method UnlinkFromOriginal(history: SentPacketHistory, n: nat)
    requires history.Valid() && n in history.packetMap && TreeInv(history.packetMap, None)
    modifies history
    ensures history.Valid() && history.list == old(history.list)
    ensures history.packetMap == Unlink(old(history.packetMap), n)
  {
    var of := history.packetMap[n].retransmissionOf;
    if of.Some? && of.value in history.packetMap {
      var rs := history.packetMap[of.value].retransmittedAs;
      ListedByOriginal(history.packetMap, n);
      var others := [];
      if |rs| != 1 {
        assert |rs| >= 1;  // the source allocates a slice of capacity |rs| - 1
        others := WithoutNumber(rs, n);
      }
      history.SetRetransmittedAs(of.value, others);
    }
  }

  ghost predicate BoundedBy(packets: Packets, last: nat) {
    forall k :: k in packets ==> k <= last
  }

  method StopAndForget(history: SentPacketHistory, n: nat, ghost open: Option<nat>, ghost last: nat) returns (ok: bool)
    requires history.Valid() && n in history.packetMap && BoundedBy(history.packetMap, last)
    requires TreeInv(history.packetMap, open) && (open.Some? ==> open.value < n)
    modifies history
    ensures ok && history.Valid() && history.list == Without(old(history.list), n)
    ensures history.packetMap == StopRetransmissions(old(history.packetMap), n) - {n}
  {
    ok := StopRetransmissionsFor(history, n, open, last);
    ok := history.Remove(n);
  }

  /** What an acknowledgement does to the history. */
  method AckInHistory(history: SentPacketHistory, n: nat, ghost last: nat) returns (ok: bool)
    requires history.Valid() && n in history.packetMap
    requires TreeInv(history.packetMap, None) && BoundedBy(history.packetMap, last)
    modifies history
    ensures ok && history.Valid() && history.list == Without(old(history.list), n)
    ensures history.packetMap == StopRetransmissions(Unlink(old(history.packetMap), n), n) - {n}
  {
    ghost var open := Original(history.packetMap, n);
    UnlinkKeepsTree(history.packetMap, n);
    UnlinkShape(history.packetMap, n);
    UnlinkFromOriginal(history, n);
    ok := StopAndForget(history, n, open, last);
  }

  lemma AckParts(s: State, n: nat, s': State)
    requires n in s.packets
    requires s'.order == Without(s.order, n) && s'.packets == StopRetransmissions(Unlink(s.packets, n), n) - {n}
    requires s' == s.(order := s'.order, packets := s'.packets, bytesInFlight := s.bytesInFlight - s.packets[n].length,
                      trace := s.trace.(acked := s.trace.acked + {n}))
    ensures s' == Ack(s, n)
  {
  }

  lemma DiscardParts(s: State, n: nat, s': State)
    requires n in s.packets && s'.order == Without(s.order, n) && s'.packets == s.packets - {n}
    requires s' == s.(order := s'.order, packets := s'.packets,
                      trace := s.trace.(discarded := s.trace.discarded + {n},
                                        discardedBytes := s.trace.discardedBytes + s.packets[n].length))
    ensures s' == Discard(s, n)
  {
  }

  class SentPacketHandler {
    const history: SentPacketHistory
    var retransmissionQueue: seq<Queued>
    var bytesInFlight: int
    var lastSentPacketNumber: nat
    var largestAcked: nat
    var largestReceivedPacketWithAck: nat
    /** When the next packet is considered lost, if a packet is in that danger. */
    var lossTime: Option<int>
    /** Packet numbers that were skipped on purpose. */
    const skipped: seq<nat>
    ghost var lastTime: int
    ghost var trace: Trace

    ghost function View(): State
      reads this, history
    {
      State(history.list, history.packetMap, retransmissionQueue, bytesInFlight, lastSentPacketNumber, lastTime,
            largestAcked, trace)
    }

    ghost function AsEndpoint(): Endpoint
      reads this, history
    {
      Endpoint(View(), largestReceivedPacketWithAck)
    }

    ghost predicate Valid()
      reads this, history
    {
      history.Valid() && Inv(View())
    }

    constructor (skipped: seq<nat>, ghost now: int)
      ensures Valid() && Init(View()) && largestReceivedPacketWithAck == 0 && lossTime.None? && this.skipped == skipped && fresh(history)
    {
      history := new SentPacketHistory();
      retransmissionQueue, bytesInFlight, lastSentPacketNumber, largestAcked := [], 0, 0, 0;
      largestReceivedPacketWithAck, lossTime := 0, None;
      this.skipped := skipped;
      lastTime := now;
      trace := Trace({}, {}, [], {}, {}, {}, {}, 0, map[]);
      new;
      InitInv(View());
    }

    /** Accounts for a packet; says whether it goes into the history. */
    method SentPacketImpl(p: Outgoing, ghost parent: Option<nat>) returns (isRetransmittable: bool)
      modifies this`lastSentPacketNumber, this`lastTime, this`bytesInFlight, this`trace
      ensures isRetransmittable == p.retransmittable
      ensures View() == Sent(old(View()), p, parent).(order := old(history.list), packets := old(history.packetMap))
    {
      lastSentPacketNumber := p.number;
      lastTime := p.sendTime;
      isRetransmittable := p.retransmittable;
      if isRetransmittable {
        bytesInFlight := bytesInFlight + p.length;
        trace := trace.(sent := trace.sent + {p.number},
                        parentOf := if parent.Some? then trace.parentOf[p.number := parent.value] else trace.parentOf);
      }
    }

    method SentPacket(p: Outgoing)
      requires Valid() && Next(View(), p)
      modifies this`lastSentPacketNumber, this`lastTime, this`bytesInFlight, this`trace, history
      ensures Valid() && View() == Sent(old(View()), p, None)
    {
      SentKeepsInv(View(), p, None);
      var isRetransmittable := SentPacketImpl(p, None);
      if isRetransmittable {
        history.SentPacket(ToPacket(p, None));
      }
    }

    /** Accounts for several packets; returns those that go into the history. */
    method SentPacketImpls(ps: seq<Outgoing>, ghost parent: Option<nat>) returns (retained: seq<Outgoing>)
      modifies this`lastSentPacketNumber, this`lastTime, this`bytesInFlight, this`trace
      ensures retained == Retained(ps)
      ensures View() == SentAll(old(View()), ps, parent).(order := old(history.list), packets := old(history.packetMap))
    {
      ghost var cur := View();
      var rest := ps;
      retained := [];
      while rest != []
        invariant View() == cur.(order := old(history.list), packets := old(history.packetMap))
        invariant SentAll(cur, rest, parent) == SentAll(old(View()), ps, parent)
        invariant retained + Retained(rest) == Retained(ps)
        decreases |rest|
      {
        var isRetransmittable := SentPacketImpl(rest[0], parent);
        if isRetransmittable {
          retained := retained + [rest[0]];
        }
        cur := Sent(cur, rest[0], parent);
        rest := rest[1..];
      }
    }

    method SentAsRetransmissionImpl(ps: seq<Outgoing>, of: nat)
      requires history.Valid() && RisesAbove(Retained(ps), lastSentPacketNumber)
      requires forall n :: n in history.list ==> n <= lastSentPacketNumber
      modifies this`lastSentPacketNumber, this`lastTime, this`bytesInFlight, this`trace, history
      ensures history.Valid() && View() == SentAsRetransmission(old(View()), ps, of)
    {
      ghost var parent := if of in history.packetMap then Some(of) else None;
      ghost var last := lastSentPacketNumber;
      trace := trace.(retransmitted := trace.retransmitted + {of});
      SentAllHistory(View(), ps, parent);
      RetainedNumbers(ps);
      var retained := SentPacketImpls(ps, parent);
      AddRetransmissions(history, retained, of, last);
    }

    /** Hands over the packets that retransmit a packet taken from the queue. */
    method SentPacketsAsRetransmission(ps: seq<Outgoing>, of: nat)
      requires Valid() && MayRetransmit(View(), ps, of)
      modifies this`lastSentPacketNumber, this`lastTime, this`bytesInFlight, this`trace, history
      ensures Valid() && View() == SentAsRetransmission(old(View()), ps, of)
    {
      SentAsRetransmissionKeepsInv(View(), ps, of);
      RetainedRises(ps, lastSentPacketNumber, lastTime);
      SentAsRetransmissionImpl(ps, of);
    }

    /** Refuses, as a bug, a packet that cannot be retransmitted. */
    method QueueImpl(n: nat) returns (ok: bool)
      requires history.Valid() && n in history.packetMap
      modifies this`retransmissionQueue, this`trace, history
      ensures history.Valid() && (ok <==> old(history.packetMap[n].canBeRetransmitted))
      ensures View() == if ok then Queue(old(View()), n) else old(View())
    {
      var p := history.packetMap[n];
      if !p.canBeRetransmitted {
        return false;
      }
      ok := history.MarkCannotBeRetransmitted(n);
      retransmissionQueue := retransmissionQueue + [Queued(n, p.oneRtt)];
      trace := trace.(queued := trace.queued + [n]);
    }

    /** Queues a packet, or refuses, as a bug, one that cannot be retransmitted, for instance because it was queued before. */
    method QueuePacketForRetransmission(n: nat) returns (ok: bool)
      requires Valid() && n in history.packetMap
      modifies this`retransmissionQueue, this`trace, history
      ensures Valid() && (ok <==> old(history.packetMap[n].canBeRetransmitted))
      ensures View() == if ok then Queue(old(View()), n) else old(View())
    {
      if history.packetMap[n].canBeRetransmitted {
        QueueKeepsInv(View(), n);
      }
      ok := QueueImpl(n);
    }

    method DequeuePacketForRetransmission() returns (p: Option<Queued>)
      requires Valid()
      modifies this`retransmissionQueue, this`trace
      ensures Valid() && View() == Dequeue(old(View()))
      ensures p == if old(retransmissionQueue) == [] then None else Some(old(retransmissionQueue)[0])
      ensures retransmissionQueue == if p.None? then [] else old(retransmissionQueue)[1..]
    {
      DequeueKeepsInv(View());
      if retransmissionQueue == [] {
        return None;
      }
      p := Some(retransmissionQueue[0]);
      trace := trace.(dequeued := trace.dequeued + {p.value.number});
      retransmissionQueue := retransmissionQueue[1..];
    }

    /** A packet to probe with; none only if nothing is queued and nothing is outstanding. */
    method DequeueProbePacket() returns (p: Option<Queued>)
      requires Valid()
      modifies this`retransmissionQueue, this`trace, history
      ensures Valid() && View() == Probe(old(View()))
      ensures p.None? <==> old(retransmissionQueue) == [] && old(history.firstOutstanding).None?
      ensures p.Some? ==> Probes(old(View()), p.value)
    {
      ProbedIsLowest(View());
      if retransmissionQueue == [] {
        match history.firstOutstanding {
          case None => return None;
          case Some(n) => var ok := QueuePacketForRetransmission(n);
        }
      }
      p := DequeuePacketForRetransmission();
    }
  
    method LoseImpl(n: nat) returns (ok: bool)
      requires history.Valid() && n in history.packetMap && history.packetMap[n].inBytesInFlight
      modifies this`retransmissionQueue, this`bytesInFlight, this`trace, history
      ensures ok && history.Valid() && View() == Lose(old(View()), n)
    {
      var p := history.packetMap[n];
      ok := true;
      if p.inBytesInFlight {
        bytesInFlight := bytesInFlight - p.length;
      }
      if p.canBeRetransmitted {
        ok := QueueImpl(n);
      }
      var removed := history.Remove(n);
    }

    /** Gives up the packets that are lost at `now`, oldest first. */
    method DetectLostPackets(now: int, delay: int) returns (ok: bool)
      requires Valid()
      modifies this`retransmissionQueue, this`bytesInFlight, this`trace, this`lossTime, history
      ensures ok && Valid() && View() == DetectLost(old(View()), now, delay)
      ensures NextLossOf(View(), now, delay, lossTime)
    {
      NextLossAfterDetection(View(), now, delay);
      var lost;
      lost, lossTime := CollectLost(history.list, history.packetMap, largestAcked, now, delay);
      LostIsPrefix(history.list, history.packetMap, largestAcked, now, delay);
      ok := LoseNumbers(lost);
    }

    method LoseNumbers(lost: seq<nat>) returns (ok: bool)
      requires Valid() && lost <= history.list
      modifies this`retransmissionQueue, this`bytesInFlight, this`trace, history
      ensures ok && Valid() && View() == LoseAll(old(View()), lost)
    {
      var rest := lost;
      ok := true;
      while rest != []
        invariant ok && Valid() && rest <= history.list
        invariant LoseAll(View(), rest) == LoseAll(old(View()), lost)
        decreases |rest|
      {
        LoseOldest(View(), rest);
        ok := LoseImpl(rest[0]);
        rest := rest[1..];
      }
    }

    /** An acknowledged packet: unlink it, take it out of flight, stop what retransmits it, forget it. */
    method AckImpl(n: nat) returns (ok: bool)
      requires history.Valid() && n in history.packetMap
      requires history.packetMap[n].inBytesInFlight && history.packetMap[n].number == n
      requires TreeInv(history.packetMap, None) && BoundedBy(history.packetMap, lastSentPacketNumber)
      modifies this`bytesInFlight, this`trace, history
      ensures ok && history.Valid() && View() == Ack(old(View()), n)
    {
      ghost var s0 := View();
      var p := history.packetMap[n];
      ok := AckInHistory(history, n, lastSentPacketNumber);
      TakeOutOfFlight(p);
      AckParts(s0, n, View());
    }

    method TakeOutOfFlight(p: Packet)
      requires p.inBytesInFlight
      modifies this`bytesInFlight, this`trace
      ensures View() == old(View()).(
        bytesInFlight := old(bytesInFlight) - p.length,
        trace := old(trace).(acked := old(trace).acked + {p.number}))
    {
      if p.inBytesInFlight {
        bytesInFlight := bytesInFlight - p.length;
      }
      trace := trace.(acked := trace.acked + {p.number});
    }

    method OnPacketAcked(n: nat) returns (ok: bool)
      requires Valid()
      modifies this`bytesInFlight, this`trace, history
      ensures ok && Valid()
      ensures View() == if n in old(history.packetMap) then Ack(old(View()), n) else old(View())
    {
      if n !in history.packetMap {
        return true;
      }
      AckKeepsInv(View(), n);
      ok := AckImpl(n);
    }
  
    /** Whether the frame acknowledges a packet number that was never used. */
    method FindSkipped(rs: seq<AckRange>) returns (yes: bool)
      requires ValidRanges(rs)
      ensures yes <==> AcksSkipped(rs, skipped)
    {
      for i := 0 to |skipped|
        invariant forall k :: 0 <= k < i ==> !Contains(rs, skipped[k])
      {
        var acks := AcksPacket(rs, skipped[i]);
        if acks {
          return true;
        }
      }
      return false;
    }

    method AckNumbers(acked: seq<nat>) returns (ok: bool)
      requires Valid()
      modifies this`bytesInFlight, this`trace, history
      ensures ok && Valid() && View() == AckAll(old(View()), acked)
    {
      var rest := acked;
      ok := true;
      while rest != []
        invariant ok && Valid()
        invariant AckAll(View(), rest) == AckAll(old(View()), acked)
        decreases |rest|
      {
        ok := OnPacketAcked(rest[0]);
        rest := rest[1..];
      }
    }

    /** Processes an ACK frame. `delay` is the loss delay, which depends on the round-trip time. */
    method ReceivedAck(rs: seq<AckRange>, withPacketNumber: nat, now: int, delay: int) returns (r: AckResult)
      requires Valid() && ValidRanges(rs)
      modifies this`retransmissionQueue, this`bytesInFlight, this`trace, this`lossTime, this`largestAcked, this`largestReceivedPacketWithAck, history
      ensures Valid()
      ensures (AsEndpoint(), r) == Receive(old(AsEndpoint()), skipped, Arrived(rs, withPacketNumber, now, delay))
      ensures r.UnsentAcked? <==> LargestAcked(rs) > old(lastSentPacketNumber)
      ensures r.Ignored? <==>
        && LargestAcked(rs) <= old(lastSentPacketNumber)
        && withPacketNumber != 0 && withPacketNumber <= old(largestReceivedPacketWithAck)
      ensures r.SkippedAcked? ==> AcksSkipped(rs, skipped)
      ensures r.Processed? ==> !AcksSkipped(rs, skipped)
      ensures if r.Processed? then NextLossOf(View(), now, delay, lossTime) else lossTime == old(lossTime)
      ensures largestReceivedPacketWithAck == if r.Processed? || r.SkippedAcked? then withPacketNumber else old(largestReceivedPacketWithAck)
    {
      if LargestAcked(rs) > lastSentPacketNumber {
        return UnsentAcked;
      }
      if withPacketNumber != 0 && withPacketNumber <= largestReceivedPacketWithAck {
        return Ignored;
      }
      largestReceivedPacketWithAck := withPacketNumber;
      r := TakeUp(rs, now, delay);
    }

    /** Processes a frame that is not ignored, unless it acknowledges a skipped number. */
    method TakeUp(rs: seq<AckRange>, now: int, delay: int) returns (r: AckResult)
      requires Valid() && ValidRanges(rs)
      modifies this`retransmissionQueue, this`bytesInFlight, this`trace, this`lossTime, this`largestAcked, history
      ensures Valid()
      ensures r == if AcksSkipped(rs, skipped) then SkippedAcked else Processed
      ensures View() ==
        if AcksSkipped(rs, skipped) then old(View()).(largestAcked := Max(old(largestAcked), LargestAcked(rs)))
        else DetectLost(LossRecovery.ReceivedAck(old(View()), Members(rs), LargestAcked(rs)), now, delay)
      ensures if r.Processed? then NextLossOf(View(), now, delay, lossTime) else lossTime == old(lossTime)
    {
      var largest := LargestAcked(rs);
      LargestAckedGrows(View(), Max(largestAcked, largest));
      largestAcked := Max(largestAcked, largest);
      var bad := FindSkipped(rs);
      if bad {
        return SkippedAcked;
      }
      ProcessAck(rs, now, delay);
      return Processed;
    }

    /** Takes the acknowledged packets out of the history, and then those that are lost. */
    method ProcessAck(rs: seq<AckRange>, now: int, delay: int)
      requires Valid() && ValidRanges(rs)
      modifies this`retransmissionQueue, this`bytesInFlight, this`trace, this`lossTime, history
      ensures Valid()
      ensures View() == DetectLost(AckAll(old(View()), NewlyAcked(old(history.list), Members(rs))), now, delay)
      ensures NextLossOf(View(), now, delay, lossTime)
    {
      var acked, bug := DetermineNewlyAckedPackets(history.list, rs);
      var ok := AckNumbers(acked);
      ok := DetectLostPackets(now, delay);
    }

    method QueueNumbers(ns: seq<nat>) returns (ok: bool)
      requires Valid() && Queueable(View(), ns)
      modifies this`retransmissionQueue, this`trace, history
      ensures ok && Valid() && View() == QueueAll(old(View()), ns)
    {
      var rest := ns;
      ok := true;
      while rest != []
        invariant ok && Valid() && Queueable(View(), rest)
        invariant QueueAll(View(), rest) == QueueAll(old(View()), ns)
        decreases |rest|
      {
        QueueFirst(View(), rest);
        ok := QueueImpl(rest[0]);
        rest := rest[1..];
      }
    }

    /** Queues every outstanding handshake packet. */
    method QueueHandshakePackets() returns (ok: bool)
      requires Valid()
      modifies this`retransmissionQueue, this`trace, history
      ensures ok && Valid() && View() == QueueHandshake(old(View()))
    {
      OutstandingHandshakeAre(history.list, history.packetMap);
      ok := QueueNumbers(OutstandingHandshake(history.list, history.packetMap));
    }

    method DiscardImpl(n: nat)
      requires history.Valid() && n in history.packetMap
      modifies this`trace, history
      ensures history.Valid() && View() == Discard(old(View()), n)
    {
      ghost var s0 := View();
      history.Forget(n);
      NoteDiscarded(n, s0.packets[n].length);
      DiscardParts(s0, n, View());
    }

    ghost method NoteDiscarded(n: nat, bytes: nat)
      modifies this`trace
      ensures View() == old(View()).(
        trace := old(trace).(discarded := old(trace).discarded + {n}, discardedBytes := old(trace).discardedBytes + bytes))
    {
      trace := trace.(discarded := trace.discarded + {n}, discardedBytes := trace.discardedBytes + bytes);
    }

    method DiscardNumbers(ns: seq<nat>)
      requires history.Valid()
      modifies this`trace, history
      ensures history.Valid() && View() == DiscardAll(old(View()), ns)
    {
      var rest := ns;
      while rest != []
        invariant history.Valid()
        invariant DiscardAll(View(), rest) == DiscardAll(old(View()), ns)
        decreases |rest|
      {
        if rest[0] in history.packetMap {
          DiscardImpl(rest[0]);
        }
        rest := rest[1..];
      }
    }

    /** Forgets the handshake packets in the history and in the queue. */
    method SetHandshakeComplete()
      requires Valid()
      modifies this`retransmissionQueue, this`trace, history
      ensures Valid() && View() == LossRecovery.SetHandshakeComplete(old(View()))
    {
      SetHandshakeCompleteKeepsInv(View());
      var kept := OneRttOnly(retransmissionQueue);
      var ns := HandshakeNumbers(history.list, history.packetMap);
      ghost var dropped := set i | 0 <= i < |retransmissionQueue| && !retransmissionQueue[i].oneRtt :: retransmissionQueue[i].number;
      DiscardNumbers(ns);
      retransmissionQueue := kept;
      trace := trace.(dropped := trace.dropped + dropped);
    }
  }

  method OneRttOnly(queue: seq<Queued>) returns (kept: seq<Queued>)
    ensures kept == KeepOneRtt(queue)
  {
    kept := [];
    var rest := queue;
    while rest != []
      invariant kept + KeepOneRtt(rest) == KeepOneRtt(queue)
      decreases |rest|
    {
      if rest[0].oneRtt {
        kept := kept + [rest[0]];
      }
      rest := rest[1..];
    }
  }

  lemma LargestAckedGrows(s: State, largest: nat)
    requires Inv(s)
    ensures Inv(s.(largestAcked := largest))
  {
    var s' := s.(largestAcked := largest);
    forall n | n in s'.trace.sent
      ensures Accounted(s', n)
    {
      assert Accounted(s, n);
    }
  }

  ghost predicate Queueable(s: State, ns: seq<nat>) {
    Ascending(ns) && forall n :: n in ns ==> n in s.packets && s.packets[n].canBeRetransmitted
  }

  lemma QueueFirst(s: State, ns: seq<nat>)
    requires Inv(s) && ns != [] && Queueable(s, ns)
    ensures ns[0] in s.packets && s.packets[ns[0]].canBeRetransmitted
    ensures Inv(Queue(s, ns[0])) && Queueable(Queue(s, ns[0]), ns[1..])
  {
    assert ns[0] in ns;
    QueueKeepsInv(s, ns[0]);
  }

  lemma LoseOldest(s: State, ns: seq<nat>)
    requires Inv(s) && ns != [] && ns <= s.order
    ensures ns[0] in s.packets && s.packets[ns[0]].inBytesInFlight
    ensures Inv(Lose(s, ns[0])) && ns[1..] <= Lose(s, ns[0]).order
  {
    assert s.order[0] == ns[0] && ns[0] in s.order;
    OldestIsRootless(s);
    LoseKeepsInv(s, ns[0]);
    PrefixWithoutFirst(s.order, ns);
  }

  lemma PrefixWithoutFirst(order: seq<nat>, ns: seq<nat>)
    requires Ascending(order) && ns != [] && ns <= order
    ensures ns[1..] <= Without(order, ns[0])
  {
    assert order[0] == ns[0];
    WithoutFirst(order);
  }
}