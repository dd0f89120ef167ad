/**
 The history of sent packets: an ordered list, an index by packet number, two counters and a
 cached position. A list element is named by the packet number it holds.
 */
module SentPacketHistories {
  import opened Protocol
  import opened LossRecovery

  /** How many packets in the list can be retransmitted; or only those of the handshake. */
  function Count(list: seq<nat>, packets: Packets, handshake: bool): nat {
    if list == [] then 0
    else (if Counts(list[0], packets, handshake) then 1 else 0) + Count(list[1..], packets, handshake)
  }

  predicate Counts(n: nat, packets: Packets, handshake: bool) {
    n in packets && packets[n].canBeRetransmitted && (handshake ==> !packets[n].oneRtt)
  }

  lemma {:induction false} CountAppend(list: seq<nat>, packets: Packets, p: Packet, handshake: bool)
    requires p.number !in list
    ensures Count(list + [p.number], packets[p.number := p], handshake) ==
      Count(list, packets, handshake) + (if p.canBeRetransmitted && (handshake ==> !p.oneRtt) then 1 else 0)
  {
    if list == [] {
      assert list + [p.number] == [p.number];
    } else {
      assert (list + [p.number])[1..] == list[1..] + [p.number];
      CountAppend(list[1..], packets, p, handshake);
    }
  }

  lemma {:induction false} CountWithout(list: seq<nat>, packets: Packets, n: nat, handshake: bool)
    requires Ascending(list)
    ensures Count(Without(list, n), packets - {n}, handshake) ==
      Count(list, packets, handshake) - (if n in list && Counts(n, packets, handshake) then 1 else 0)
  {
    if list != [] {
      CountWithout(list[1..], packets, n, handshake);
      if list[0] == n {
        assert n !in list[1..];
      } else {
        assert Without(list, n)[1..] == Without(list[1..], n);
      }
    }
  }

  lemma {:induction false} CountMark(list: seq<nat>, packets: Packets, n: nat, handshake: bool)
    requires Ascending(list) && n in packets
    ensures Count(list, packets[n := packets[n].(canBeRetransmitted := false)], handshake) ==
      Count(list, packets, handshake) - (if n in list && Counts(n, packets, handshake) then 1 else 0)
  {
    if list != [] {
      CountMark(list[1..], packets, n, handshake);
      if list[0] == n {
        assert n !in list[1..];
      }
    }
  }

  // ---------------------------------------------------------------- the first outstanding packet

  lemma {:induction false} FirstAppend(list: seq<nat>, packets: Packets, p: Packet)
    requires p.number !in list && p.canBeRetransmitted
    ensures FirstOutstanding(list + [p.number], packets[p.number := p]) ==
      if FirstOutstanding(list, packets).Some? then FirstOutstanding(list, packets) else Some(p.number)
  {
    if list == [] {
      assert list + [p.number] == [p.number];
    } else {
      assert (list + [p.number])[1..] == list[1..] + [p.number];
      FirstAppend(list[1..], packets, p);
    }
  }

  /** Packets that are not outstanding can be skipped. */
  lemma {:induction false} FirstSkip(list: seq<nat>, packets: Packets, i: nat)
    requires i <= |list|
    requires forall k :: 0 <= k < i && list[k] in packets ==> !packets[list[k]].canBeRetransmitted
    ensures FirstOutstanding(list, packets) == FirstOutstanding(list[i..], packets)
  {
    if i > 0 {
      FirstSkip(list[1..], packets, i - 1);
      assert list[1..][i - 1..] == list[i..];
    }
  }

  /** Before the first outstanding packet there is none. */
  lemma {:induction false} BeforeFirst(list: seq<nat>, packets: Packets, i: nat)
    requires Ascending(list) && i < |list| && FirstOutstanding(list, packets) == Some(list[i])
    ensures forall k :: 0 <= k < i && list[k] in packets ==> !packets[list[k]].canBeRetransmitted
  {
    if i > 0 {
      assert list[0] != list[i];
      BeforeFirst(list[1..], packets, i - 1);
      forall k | 0 <= k < i && list[k] in packets
        ensures !packets[list[k]].canBeRetransmitted
      {
        if k > 0 {
          assert list[k] == list[1..][k - 1];
        }
      }
    }
  }

  /** `packets'` is `packets` with `n` removed, or marked as not outstanding. */
  ghost predicate Retired(packets: Packets, packets': Packets, n: nat) {
    && (forall k :: k != n ==> (k in packets <==> k in packets'))
    && (forall k :: k != n && k in packets && k in packets' ==> packets'[k] == packets[k])
    && (n in packets' ==> !packets'[n].canBeRetransmitted)
  }

  lemma RemovalRetires(packets: Packets, n: nat)
    ensures Retired(packets, packets - {n}, n)
  {
  }

  /** Packets at other places do not matter, outstanding or not. */
  lemma {:induction false} FirstSame(list: seq<nat>, packets: Packets, packets': Packets, n: nat)
    requires FirstOutstanding(list, packets) != Some(n) && Retired(packets, packets', n)
    ensures FirstOutstanding(list, packets') == FirstOutstanding(list, packets)
  {
    if list != [] {
      if FirstOutstanding(list, packets) != Some(list[0]) {
        FirstSame(list[1..], packets, packets', n);
      }
    }
  }

  lemma {:induction false} FirstWithout(list: seq<nat>, packets: Packets, n: nat)
    requires n in packets ==> !packets[n].canBeRetransmitted
    ensures FirstOutstanding(Without(list, n), packets) == FirstOutstanding(list, packets)
  {
    if list != [] {
      FirstWithout(list[1..], packets, n);
      if list[0] != n {
        assert Without(list, n)[1..] == Without(list[1..], n);
      }
    }
  }

  lemma {:induction false} WithoutAt(list: seq<nat>, i: nat)
    requires Ascending(list) && i < |list|
    ensures list[..i] + list[i + 1..] == Without(list, list[i])
  {
    if i == 0 {
      WithoutFirst(list);
    } else {
      WithoutAt(list[1..], i - 1);
      assert list[1..][..i - 1] + list[1..][i..] == list[1..i] + list[i + 1..];
      assert [list[0]] + (list[1..i] + list[i + 1..]) == list[..i] + list[i + 1..];
    }
  }

  /** The index is exactly the list, and counters and cached position agree with scanning it. */
  ghost predicate HistoryInv(list: seq<nat>, packets: Packets, outstanding: int, handshake: int, first: Option<nat>) {
    && Ascending(list)
    && (forall n :: n in list <==> n in packets)
    && (forall n :: n in packets ==> packets[n].number == n)
    && outstanding == Count(list, packets, false)
    && handshake == Count(list, packets, true)
    && first == FirstOutstanding(list, packets)
  }

  lemma {:induction false} FirstFrame(list: seq<nat>, packets: Packets, packets': Packets, n: nat)
    requires Retired(packets, packets', n) && n !in list
    ensures FirstOutstanding(list, packets') == FirstOutstanding(list, packets)
  {
    if list != [] {
      FirstFrame(list[1..], packets, packets', n);
    }
  }

  /** Walks from the first outstanding packet to the next one; `packets'` is the history it is for. */
  method NextOutstanding(list: seq<nat>, packets: Packets, first: nat, ghost packets': Packets) returns (next: Option<nat>)
    requires Ascending(list) && forall n :: n in list ==> n in packets
    requires FirstOutstanding(list, packets) == Some(first) && Retired(packets, packets', first)
    ensures next == FirstOutstanding(list, packets')
  {
    var i :| 0 <= i < |list| && list[i] == first;
    ghost var at := i;
    BeforeFirst(list, packets, at);
    i := i + 1;
    while i < |list| && !packets[list[i]].canBeRetransmitted
      invariant at < i <= |list|
      invariant forall k :: 0 <= k < i && k != at ==> !packets[list[k]].canBeRetransmitted
    {
      i := i + 1;
    }
    assert forall k :: 0 <= k < i && list[k] in packets' ==> !packets'[list[k]].canBeRetransmitted;
    FirstSkip(list, packets', i);
    FirstFrame(list[i..], packets, packets', first);
    next := if i < |list| then Some(list[i]) else None;
  }

  lemma AddedInv(list: seq<nat>, packets: Packets, p: Packet, outstanding: int, handshake: int, first: Option<nat>)
    requires HistoryInv(list, packets, outstanding, handshake, first)
    requires p.canBeRetransmitted && forall n :: n in list ==> n < p.number
    ensures HistoryInv(list + [p.number], packets[p.number := p], outstanding + 1, handshake + (if p.oneRtt then 0 else 1),
                       if first.None? then Some(p.number) else first)
  {
    FirstAppend(list, packets, p);
    AscendingAppend(list, p.number);
    CountAppend(list, packets, p, false);
    CountAppend(list, packets, p, true);
  }

  lemma RemovedInv(list: seq<nat>, packets: Packets, n: nat, outstanding: int, handshake: int, first: Option<nat>,
                   outstanding': int, handshake': int, first': Option<nat>)
    requires HistoryInv(list, packets, outstanding, handshake, first) && n in packets
    requires outstanding' == outstanding - (if Counts(n, packets, false) then 1 else 0)
    requires handshake' == handshake - (if Counts(n, packets, true) then 1 else 0)
    requires first' == FirstOutstanding(list, packets - {n})
    ensures HistoryInv(Without(list, n), packets - {n}, outstanding', handshake', first')
  {
    WithoutMembers(list, n);
    WithoutAscending(list, n);
    FirstWithout(list, packets - {n}, n);
    CountWithout(list, packets, n, false);
    CountWithout(list, packets, n, true);
  }

  lemma {:induction false} RelistKeeps(list: seq<nat>, packets: Packets, n: nat, numbers: seq<nat>)
    requires n in packets
    ensures var packets' := packets[n := packets[n].(retransmittedAs := numbers)];
      && FirstOutstanding(list, packets') == FirstOutstanding(list, packets)
      && Count(list, packets', false) == Count(list, packets, false)
      && Count(list, packets', true) == Count(list, packets, true)
  {
    if list != [] {
      RelistKeeps(list[1..], packets, n, numbers);
    }
  }

  /** Takes an element out of the list. */
  method Unchain(list: seq<nat>, n: nat) returns (rest: seq<nat>)
    requires Ascending(list) && n in list
    ensures rest == Without(list, n)
  {
    var i :| 0 <= i < |list| && list[i] == n;
    WithoutAt(list, i);
    rest := list[..i] + list[i + 1..];
  }

  class SentPacketHistory {
    var list: seq<nat>
    var packetMap: Packets
    var numOutstanding: int
    var numOutstandingHandshake: int
    var firstOutstanding: Option<nat>

    ghost predicate Valid()
      reads this
    {
      HistoryInv(list, packetMap, numOutstanding, numOutstandingHandshake, firstOutstanding)
    }

    constructor ()
      ensures Valid() && list == [] && packetMap == map[]
    {
      list, packetMap, numOutstanding, numOutstandingHandshake, firstOutstanding := [], map[], 0, 0, None;
    }

    method SentPacket(p: Packet)
      requires Valid() && p.canBeRetransmitted && forall n :: n in list ==> n < p.number
      modifies this
      ensures Valid() && list == old(list) + [p.number] && packetMap == old(packetMap)[p.number := p]
    {
      AddedInv(list, packetMap, p, numOutstanding, numOutstandingHandshake, firstOutstanding);
      list := list + [p.number];
      packetMap := packetMap[p.number := p];
      if firstOutstanding.None? {
        firstOutstanding := Some(p.number);
      }
      if p.canBeRetransmitted {
        numOutstanding := numOutstanding + 1;
        if !p.oneRtt {
          numOutstandingHandshake := numOutstandingHandshake + 1;
        }
      }
    }

    /** Records what a packet was retransmitted as. */
    method SetRetransmittedAs(n: nat, numbers: seq<nat>)
      requires Valid() && n in packetMap
      modifies this`packetMap
      ensures Valid() && packetMap == old(packetMap)[n := old(packetMap)[n].(retransmittedAs := numbers)]
    {
      RelistKeeps(list, packetMap, n, numbers);
      packetMap := packetMap[n := packetMap[n].(retransmittedAs := numbers)];
    }

    /** Stops counting a packet. The source panics if a counter drops below zero. */
    method CountDown(n: nat)
      requires Valid() && n in packetMap
      modifies this`numOutstanding, this`numOutstandingHandshake
      ensures numOutstanding == old(numOutstanding) - (if Counts(n, packetMap, false) then 1 else 0)
      ensures numOutstandingHandshake == old(numOutstandingHandshake) - (if Counts(n, packetMap, true) then 1 else 0)
      ensures numOutstanding >= 0 && numOutstandingHandshake >= 0
    {
      CountWithout(list, packetMap, n, false);
      CountWithout(list, packetMap, n, true);
      if packetMap[n].canBeRetransmitted {
        numOutstanding := numOutstanding - 1;
        if !packetMap[n].oneRtt {
          numOutstandingHandshake := numOutstandingHandshake - 1;
        }
      }
    }

    /** Marks a packet; reports whether it is in the history. */
    method MarkCannotBeRetransmitted(n: nat) returns (ok: bool)
      requires Valid()
      modifies this
      ensures Valid() && list == old(list)
      ensures ok <==> n in old(packetMap)
      ensures packetMap == if ok then old(packetMap)[n := old(packetMap)[n].(canBeRetransmitted := false)] else old(packetMap)
    {
      if n !in packetMap {
        return false;
      }
      ghost var m0 := packetMap;
      ghost var m1 := packetMap[n := packetMap[n].(canBeRetransmitted := false)];
      CountMark(list, m0, n, false);
      CountMark(list, m0, n, true);
      CountDown(n);
      if firstOutstanding == Some(n) {
        firstOutstanding := NextOutstanding(list, packetMap, n, m1);
      } else {
        FirstSame(list, m0, m1, n);
      }
      packetMap := packetMap[n := packetMap[n].(canBeRetransmitted := false)];
      return true;
    }

    /** Removes a packet that is in the history. */
    method Forget(n: nat)
      requires Valid() && n in packetMap
      modifies this
      ensures Valid()
      ensures list == Without(old(list), n) && packetMap == old(packetMap) - {n}
    {
      ghost var m0, o0, h0 := packetMap, numOutstanding, numOutstandingHandshake;
      var first := firstOutstanding;
      RemovalRetires(m0, n);
      if first == Some(n) {
        first := NextOutstanding(list, packetMap, n, m0 - {n});
      } else {
        FirstSame(list, m0, m0 - {n}, n);
      }
      CountDown(n);
      RemovedInv(list, m0, n, o0, h0, firstOutstanding, numOutstanding, numOutstandingHandshake, first);
      var rest := Unchain(list, n);
      list, packetMap, firstOutstanding := rest, packetMap - {n}, first;
    }

    /** Removes a packet; reports whether it was in the history. */
    method Remove(n: nat) returns (ok: bool)
      requires Valid()
      modifies this
      ensures Valid()
      ensures ok <==> n in old(packetMap)
      ensures list == Without(old(list), n) && packetMap == old(packetMap) - {n}
    {
      if n !in packetMap {
        WithoutAbsent(list, n);
        assert packetMap - {n} == packetMap;
        return false;
      }
      Forget(n);
      return true;
    }
  }
}
