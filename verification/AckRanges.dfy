/** The ranges of an ACK frame and what they acknowledge. */
module AckRanges {
  import opened Protocol
  import opened LossRecovery

  datatype AckRange = AckRange(smallest: nat, largest: nat)

  /** Highest range first; each is nonempty and at least one number apart from the next. */
  ghost predicate ValidRanges(rs: seq<AckRange>) {
    && rs != []
    && (forall i :: 0 <= i < |rs| ==> rs[i].smallest <= rs[i].largest)
    && (forall i, j :: 0 <= i < j < |rs| ==> rs[j].largest + 1 < rs[i].smallest)
  }

  predicate Within(r: AckRange, n: nat) {
    r.smallest <= n <= r.largest
  }

  ghost predicate Contains(rs: seq<AckRange>, n: nat) {
    exists i :: 0 <= i < |rs| && rs[i].smallest <= n <= rs[i].largest
  }

  /** The packet numbers that the ranges acknowledge. */
  ghost function Members(rs: seq<AckRange>): (ns: set<nat>)
    ensures forall n :: n in ns <==> Contains(rs, n)
  {
    if rs == [] then {}
    else
      var ns := (set n | 0 <= n <= rs[0].largest && Within(rs[0], n)) + Members(rs[1..]);
      assert forall n :: Contains(rs[1..], n) ==> Contains(rs, n);
      ns
  }

  function LargestAcked(rs: seq<AckRange>): nat
    requires rs != []
  {
    rs[0].largest
  }

  function LowestAcked(rs: seq<AckRange>): nat
    requires rs != []
  {
    rs[|rs| - 1].smallest
  }

  /** Checks neighbours only. */
  method ValidateAckRanges(rs: seq<AckRange>) returns (ok: bool)
    ensures ok <==> ValidRanges(rs)
  {
    if rs == [] {
      return false;
    }
    for i := 0 to |rs|
      invariant forall k :: 0 <= k < i ==> rs[k].smallest <= rs[k].largest
    {
      if rs[i].smallest > rs[i].largest {
        return false;
      }
    }
    for i := 0 to |rs|
      invariant forall j, k :: 0 <= j < k < i ==> rs[k].largest + 1 < rs[j].smallest
    {
      if i == 0 {
        continue;
      }
      var last := rs[i - 1];
      if last.smallest <= rs[i].smallest {
        return false;
      }
      if last.smallest <= rs[i].largest + 1 {
        return false;
      }
      forall j | 0 <= j < i
        ensures rs[i].largest + 1 < rs[j].smallest
      {
        if j < i - 1 {
          assert rs[i - 1].largest + 1 < rs[j].smallest;
        }
      }
    }
    return true;
  }

  /** Binary search for the first range that does not lie above `p`. */
  method SearchRange(rs: seq<AckRange>, p: nat) returns (i: nat)
    requires ValidRanges(rs)
    ensures i <= |rs|
    ensures forall k :: 0 <= k < i ==> p < rs[k].smallest
    ensures forall k :: i <= k < |rs| ==> rs[k].smallest <= p
  {
    i := 0;
    var j := |rs|;
    while i < j
      invariant 0 <= i <= j <= |rs|
      invariant forall k :: 0 <= k < i ==> p < rs[k].smallest
      invariant forall k :: j <= k < |rs| ==> rs[k].smallest <= p
    {
      var h := (i + j) / 2;
      if p >= rs[h].smallest {
        j := h;
      } else {
        i := h + 1;
      }
    }
  }

  /** Whether the frame acknowledges `p`: membership in the union of its ranges. */
  method AcksPacket(rs: seq<AckRange>, p: nat) returns (acks: bool)
    requires ValidRanges(rs)
    ensures acks <==> Contains(rs, p)
  {
    if p < LowestAcked(rs) || p > LargestAcked(rs) {
      forall k | 0 <= k < |rs|
        ensures !(rs[k].smallest <= p <= rs[k].largest)
      {
        assert k > 0 ==> rs[k].largest + 1 < rs[0].smallest;
        assert k < |rs| - 1 ==> rs[|rs| - 1].largest + 1 < rs[k].smallest;
      }
      return false;
    }
    var i := SearchRange(rs, p);
    assert rs[|rs| - 1].smallest <= p;
    acks := p <= rs[i].largest;
    assert forall k :: i < k < |rs| ==> rs[k].largest + 1 < rs[i].smallest;
  }

  // ---------------------------------------------------------------- against the history

  lemma {:induction false} NewlyAckedAppend(a: seq<nat>, b: seq<nat>, acks: set<nat>)
    ensures NewlyAcked(a + b, acks) == NewlyAcked(a, acks) + NewlyAcked(b, acks)
  {
    if a == [] {
      assert a + b == b;
    } else {
      assert (a + b)[1..] == a[1..] + b;
      NewlyAckedAppend(a[1..], b, acks);
    }
  }

  lemma NewlyAckedNext(order: seq<nat>, i: nat, acks: set<nat>)
    requires i < |order|
    ensures NewlyAcked(order[..i + 1], acks) == NewlyAcked(order[..i], acks) + (if order[i] in acks then [order[i]] else [])
  {
    assert order[..i + 1] == order[..i] + [order[i]];
    NewlyAckedAppend(order[..i], [order[i]], acks);
  }

  lemma {:induction false} NoneAcked(order: seq<nat>, acks: set<nat>)
    requires forall n :: n in order ==> n !in acks
    ensures NewlyAcked(order, acks) == []
  {
    if order != [] {
      NoneAcked(order[1..], acks);
    }
  }

  lemma MembersBounds(rs: seq<AckRange>, n: nat)
    requires ValidRanges(rs) && n in Members(rs)
    ensures LowestAcked(rs) <= n <= LargestAcked(rs)
  {
    var k :| 0 <= k < |rs| && rs[k].smallest <= n <= rs[k].largest;
    assert k > 0 ==> rs[k].largest + 1 < rs[0].smallest;
    assert k < |rs| - 1 ==> rs[|rs| - 1].largest + 1 < rs[k].smallest;
  }

  /** With the lower ranges passed, the range at hand decides. */
  lemma RangeDecides(rs: seq<AckRange>, r: nat, p: nat)
    requires ValidRanges(rs) && r < |rs| && p <= rs[r].largest
    requires forall k :: r < k < |rs| ==> rs[k].largest < p
    ensures p in Members(rs) <==> rs[r].smallest <= p
  {
    assert forall k :: 0 <= k < r ==> rs[r].largest + 1 < rs[k].smallest;
  }

  /** The `passed` lowest ranges lie below `p`. */
  ghost predicate Passed(rs: seq<AckRange>, passed: nat, p: nat) {
    passed < |rs| && forall k :: |rs| - 1 - passed < k < |rs| ==> rs[k].largest < p
  }

  /** Moves up to the range that decides about `p`. `bug` is the source's "acked wrong packet" error. */
  method ScanRanges(rs: seq<AckRange>, passed: nat, p: nat) returns (index: nat, acked: bool, bug: bool)
    requires ValidRanges(rs) && p <= LargestAcked(rs) && Passed(rs, passed, p)
    ensures Passed(rs, index, p) && !bug && (acked <==> p in Members(rs))
  {
    index := passed;
    var r := |rs| - 1 - index;
    while p > rs[r].largest && index < |rs| - 1
      invariant Passed(rs, index, p) && r == |rs| - 1 - index
    {
      index := index + 1;
      r := |rs| - 1 - index;
    }
    RangeDecides(rs, r, p);
    acked := p >= rs[r].smallest;
    bug := acked && p > rs[r].largest;
  }

  /** Walks the history upwards and the ranges from the lowest up, side by side. */
  method DetermineNewlyAckedPackets(order: seq<nat>, rs: seq<AckRange>) returns (acked: seq<nat>, bug: bool)
    requires ValidRanges(rs) && Ascending(order)
    ensures !bug && acked == NewlyAcked(order, Members(rs))
  {
    acked, bug := [], false;
    var index: nat := 0;
    ghost var acks := Members(rs);
    for i := 0 to |order|
      invariant !bug && acked == NewlyAcked(order[..i], acks)
      invariant index < |rs|
      invariant i < |order| ==> Passed(rs, index, order[i])
    {
      var p := order[i];
      NewlyAckedNext(order, i, acks);
      if p < LowestAcked(rs) {
        BelowLowest(rs, p);
      } else if p > LargestAcked(rs) {
        RestBeyond(order, i, rs);
        return;
      } else {
        var hit: bool;
        if |rs| > 1 {
          index, hit, bug := ScanRanges(rs, index, p);
          if bug {
            return;
          }
        } else {
          RangeDecides(rs, 0, p);
          hit := true;
        }
        if hit {
          acked := acked + [p];
        }
      }
    }
    assert order[..|order|] == order;
  }

  lemma BelowLowest(rs: seq<AckRange>, p: nat)
    requires ValidRanges(rs) && p < LowestAcked(rs)
    ensures p !in Members(rs)
  {
    if p in Members(rs) {
      MembersBounds(rs, p);
    }
  }

  lemma RestBeyond(order: seq<nat>, i: nat, rs: seq<AckRange>)
    requires ValidRanges(rs) && Ascending(order) && i < |order| && LargestAcked(rs) < order[i]
    ensures NewlyAcked(order, Members(rs)) == NewlyAcked(order[..i], Members(rs))
  {
    assert order == order[..i] + order[i..];
    forall n | n in order[i..]
      ensures n !in Members(rs)
    {
      var k :| i <= k < |order| && order[k] == n;
      if n in Members(rs) {
        MembersBounds(rs, n);
      }
    }
    NewlyAckedAppend(order[..i], order[i..], Members(rs));
    NoneAcked(order[i..], Members(rs));
  }
}
