/** Which packets were received: an ordered list of intervals, and a threshold below which none matter. */
module ReceivedPackets {
  import opened Protocol
  import opened AckRanges

  /** Both ends belong to the interval. */
  datatype PacketInterval = PacketInterval(start: nat, end: nat)

  const MAX_TRACKED_RANGES: nat := 1000

  // ---------------------------------------------------------------- interval lists

  /** Ascending, nonempty and non-adjacent intervals; the first starts after `lo + 1`. */
  ghost predicate Apart(rs: seq<PacketInterval>, lo: int) {
    rs == [] || (lo + 1 < rs[0].start <= rs[0].end && Apart(rs[1..], rs[0].end))
  }

  ghost predicate Has(rs: seq<PacketInterval>, x: nat) {
    rs != [] && (rs[0].start <= x <= rs[0].end || Has(rs[1..], x))
  }

  function LastOf(lo: int, rs: seq<PacketInterval>): int {
    if rs == [] then lo else rs[|rs| - 1].end
  }

  lemma {:induction false} ApartAppend(a: seq<PacketInterval>, b: seq<PacketInterval>, lo: int)
    ensures Apart(a + b, lo) <==> (Apart(a, lo) && Apart(b, LastOf(lo, a)))
  {
    if a == [] {
      assert a + b == b;
    } else {
      assert (a + b)[1..] == a[1..] + b;
      ApartAppend(a[1..], b, a[0].end);
    }
  }

  lemma {:induction false} HasAppend(a: seq<PacketInterval>, b: seq<PacketInterval>, x: nat)
    ensures Has(a + b, x) <==> (Has(a, x) || Has(b, x))
  {
    if a == [] {
      assert a + b == b;
    } else {
      assert (a + b)[1..] == a[1..] + b;
      HasAppend(a[1..], b, x);
    }
  }

  lemma {:induction false} HasRange(rs: seq<PacketInterval>, lo: int, x: nat)
    requires Apart(rs, lo) && Has(rs, x)
    ensures lo + 1 < x <= LastOf(lo, rs)
  {
    ApartOrder(rs, lo);
    if !(rs[0].start <= x <= rs[0].end) {
      HasRange(rs[1..], rs[0].end, x);
    }
  }

  lemma {:induction false} ApartOrder(rs: seq<PacketInterval>, lo: int)
    requires Apart(rs, lo)
    ensures rs != [] ==> rs[0].end <= LastOf(lo, rs)
  {
    if |rs| > 1 {
      ApartOrder(rs[1..], rs[0].end);
    }
  }

  /** The middle of a list is replaced by intervals with the same outer limits and one more member. */
  lemma Replaced(a: seq<PacketInterval>, m: seq<PacketInterval>, m': seq<PacketInterval>, b: seq<PacketInterval>, p: nat)
    requires Apart(a + (m + b), -2)
    requires Apart(m', LastOf(-2, a)) && Apart(b, LastOf(LastOf(-2, a), m'))
    requires forall x: nat :: Has(m', x) <==> (Has(m, x) || x == p)
    ensures Apart(a + (m' + b), -2)
    ensures forall x: nat :: Has(a + (m' + b), x) <==> (Has(a + (m + b), x) || x == p)
  {
    ApartAppend(a, m + b, -2);
    ApartAppend(a, m' + b, -2);
    ApartAppend(m', b, LastOf(-2, a));
    forall x: nat
      ensures Has(a + (m' + b), x) <==> (Has(a + (m + b), x) || x == p)
    {
      HasAppend(a, m + b, x);
      HasAppend(a, m' + b, x);
      HasAppend(m, b, x);
      HasAppend(m', b, x);
    }
  }

  lemma HasOne(r: PacketInterval)
    ensures forall x: nat :: Has([r], x) <==> r.start <= x <= r.end
    ensures forall lo: int :: Apart([r], lo) <==> lo + 1 < r.start <= r.end
  {
    assert [r][1..] == [];
  }

  lemma HasTwo(r: PacketInterval, s: PacketInterval)
    ensures forall x: nat :: Has([r, s], x) <==> (r.start <= x <= r.end || s.start <= x <= s.end)
    ensures forall lo: int :: Apart([r, s], lo) <==> (lo + 1 < r.start <= r.end && r.end + 1 < s.start <= s.end)
  {
    HasOne(s);
    assert [r, s][1..] == [s];
  }

  /** Grows an interval by the number next to it, and joins it with its lower neighbour if they meet. */
  method Extend(rest: seq<PacketInterval>, el: PacketInterval, after: seq<PacketInterval>, p: nat) returns (rs: seq<PacketInterval>)
    requires Apart(rest + ([el] + after), -2) && Apart(after, p)
    requires el.end + 1 == p || el.start == p + 1
    ensures Apart(rs, -2)
    ensures forall x: nat :: Has(rs, x) <==> (Has(rest + ([el] + after), x) || x == p)
  {
    ApartAppend(rest, [el] + after, -2);
    ApartAppend([el], after, LastOf(-2, rest));
    HasOne(el);
    var wide := if el.end + 1 == p then el.(end := p) else el.(start := p);
    if rest != [] && rest[|rest| - 1].end + 1 == wide.start {
      var prev := rest[|rest| - 1];
      var init := rest[..|rest| - 1];
      assert rest == init + [prev];
      ApartAppend(init, [prev], -2);
      HasOne(prev);
      var joined := PacketInterval(prev.start, wide.end);
      HasOne(joined);
      HasTwo(prev, el);
      assert rest + ([el] + after) == init + ([prev, el] + after);
      Replaced(init, [prev, el], [joined], after, p);
      return init + ([joined] + after);
    }
    HasOne(wide);
    Replaced(rest, [el], [wide], after, p);
    return rest + ([wide] + after);
  }

  lemma Present(rest: seq<PacketInterval>, el: PacketInterval, after: seq<PacketInterval>, p: nat)
    requires el.start <= p <= el.end
    ensures Has(rest + ([el] + after), p)
  {
    HasAppend(rest, [el] + after, p);
  }

  /** Registers a packet number, looking from the highest interval down. */
  method Insert(rs: seq<PacketInterval>, p: nat) returns (rs': seq<PacketInterval>)
    requires Apart(rs, -2)
    ensures Apart(rs', -2)
    ensures forall x: nat :: Has(rs', x) <==> (Has(rs, x) || x == p)
  {
    HasOne(PacketInterval(p, p));
    if rs == [] {
      return [PacketInterval(p, p)];
    }
    var before, after := rs, [];
    while before != []
      invariant rs == before + after && Apart(after, p)
      decreases |before|
    {
      var el := before[|before| - 1];
      var rest := before[..|before| - 1];
      assert rs == rest + ([el] + after);
      ApartAppend(rest, [el] + after, -2);
      ApartAppend([el], after, LastOf(-2, rest));
      HasOne(el);
      if el.start <= p <= el.end {
        Present(rest, el, after, p);
        return rs;
      }
      if el.end + 1 == p || el.start == p + 1 {
        rs' := Extend(rest, el, after, p);
        return;
      }
      if p > el.end {
        HasTwo(el, PacketInterval(p, p));
        Replaced(rest, [el], [el, PacketInterval(p, p)], after, p);
        return rest + ([el, PacketInterval(p, p)] + after);
      }
      assert ([el] + after)[1..] == after;
      before, after := rest, [el] + after;
    }
    assert rs == [] + ([] + after);
    assert [PacketInterval(p, p)] + after == [] + ([PacketInterval(p, p)] + after);
    Replaced([], [], [PacketInterval(p, p)], after, p);
    return [PacketInterval(p, p)] + after;
  }

  /** Forgets everything below `p`, from the lowest interval up. */
  method DropBelow(rs: seq<PacketInterval>, p: nat) returns (rs': seq<PacketInterval>)
    requires Apart(rs, -2)
    ensures Apart(rs', -2)
    ensures forall x: nat :: Has(rs', x) <==> (Has(rs, x) && x >= p)
  {
    rs' := rs;
    ghost var lo := -2;
    while rs' != []
      invariant Apart(rs', lo) && -2 <= lo && lo < p
      invariant forall x: nat :: x >= p ==> (Has(rs', x) <==> Has(rs, x))
      decreases |rs'|
    {
      var el := rs'[0];
      if p > el.start && p <= el.end {
        FrontRaised(rs', lo, p);
        rs' := [PacketInterval(p, el.end)] + rs'[1..];
        return;
      } else if el.end < p {
        lo := el.end;
        rs' := rs'[1..];
      } else {
        NothingBelow(rs', lo, p);
        return;
      }
    }
  }

  lemma FrontRaised(rs: seq<PacketInterval>, lo: int, p: nat)
    requires rs != [] && Apart(rs, lo) && rs[0].start < p <= rs[0].end && -2 <= lo
    ensures var rs' := [PacketInterval(p, rs[0].end)] + rs[1..];
      Apart(rs', -2) && forall x: nat :: Has(rs', x) <==> Has(rs, x) && x >= p
  {
    var rs' := [PacketInterval(p, rs[0].end)] + rs[1..];
    assert rs'[1..] == rs[1..];
    forall x: nat | Has(rs[1..], x)
      ensures rs[0].end < x
    {
      HasRange(rs[1..], rs[0].end, x);
    }
  }

  lemma NothingBelow(rs: seq<PacketInterval>, lo: int, p: nat)
    requires rs != [] && Apart(rs, lo) && p <= rs[0].start && -2 <= lo
    ensures Apart(rs, -2) && forall x: nat :: Has(rs, x) ==> x >= p
  {
    forall x: nat | Has(rs, x)
      ensures x >= p
    {
      HasRange(rs, rs[0].start - 2, x);
    }
  }

  // ---------------------------------------------------------------- ACK ranges

  /** The ranges of an ACK frame: the same intervals, highest first. */
  function Reversed(rs: seq<PacketInterval>): (r: seq<AckRange>)
    ensures |r| == |rs|
  {
    if rs == [] then [] else Reversed(rs[1..]) + [AckRange(rs[0].start, rs[0].end)]
  }

  lemma {:induction false} ReversedAt(rs: seq<PacketInterval>, i: nat)
    requires i < |rs|
    ensures Reversed(rs)[i] == AckRange(rs[|rs| - 1 - i].start, rs[|rs| - 1 - i].end)
  {
    if i < |rs| - 1 {
      ReversedAt(rs[1..], i);
    }
  }

  lemma {:induction false} ApartAt(rs: seq<PacketInterval>, lo: int, i: nat)
    requires Apart(rs, lo) && i < |rs|
    ensures lo + 1 < rs[i].start <= rs[i].end
  {
    if i > 0 {
      ApartAt(rs[1..], rs[0].end, i - 1);
    }
  }

  lemma {:induction false} ApartPair(rs: seq<PacketInterval>, lo: int, i: nat, j: nat)
    requires Apart(rs, lo) && i < j < |rs|
    ensures rs[i].end + 1 < rs[j].start
  {
    if i == 0 {
      ApartAt(rs[1..], rs[0].end, j - 1);
    } else {
      ApartPair(rs[1..], rs[0].end, i - 1, j - 1);
    }
  }

  lemma {:induction false} HasAt(rs: seq<PacketInterval>, x: nat)
    ensures Has(rs, x) <==> exists i :: 0 <= i < |rs| && rs[i].start <= x <= rs[i].end
  {
    if rs != [] {
      HasAt(rs[1..], x);
      if Has(rs[1..], x) {
        var i :| 0 <= i < |rs[1..]| && rs[1..][i].start <= x <= rs[1..][i].end;
        assert rs[i + 1].start <= x <= rs[i + 1].end;
      }
      if exists i :: 1 <= i < |rs| && rs[i].start <= x <= rs[i].end {
        var i :| 1 <= i < |rs| && rs[i].start <= x <= rs[i].end;
        assert rs[1..][i - 1] == rs[i];
      }
    }
  }

  /** The ranges are valid in a frame and acknowledge exactly the packets in the list. */
  lemma ReversedIsValid(rs: seq<PacketInterval>)
    requires Apart(rs, -2) && rs != []
    ensures ValidRanges(Reversed(rs))
    ensures forall x: nat :: x in Members(Reversed(rs)) <==> Has(rs, x)
  {
    var r, n := Reversed(rs), |rs| - 1;
    forall i | 0 <= i < |r|
      ensures r[i] == AckRange(rs[n - i].start, rs[n - i].end) && r[i].smallest <= r[i].largest
    {
      ReversedAt(rs, i);
      ApartAt(rs, -2, n - i);
    }
    forall i, j | 0 <= i < j < |r|
      ensures r[j].largest + 1 < r[i].smallest
    {
      ApartPair(rs, -2, n - j, n - i);
    }
    forall x: nat
      ensures Contains(r, x) <==> Has(rs, x)
    {
      HasAt(rs, x);
      if Has(rs, x) {
        var i :| 0 <= i < |rs| && rs[i].start <= x <= rs[i].end;
        assert r[n - i].smallest <= x <= r[n - i].largest;
      }
      if Contains(r, x) {
        var i :| 0 <= i < |r| && r[i].smallest <= x <= r[i].largest;
        assert rs[n - i].start <= x <= rs[n - i].end;
      }
    }
  }

  /** Walks the list from its end. */
  method ToAckRanges(ranges: seq<PacketInterval>) returns (rs: seq<AckRange>)
    ensures rs == Reversed(ranges)
  {
    rs := [];
    var left := ranges;
    while left != []
      invariant Reversed(ranges) == rs + Reversed(left)
      decreases |left|
    {
      var el := left[|left| - 1];
      ReversedSnoc(left[..|left| - 1], el);
      assert left == left[..|left| - 1] + [el];
      rs := rs + [AckRange(el.start, el.end)];
      left := left[..|left| - 1];
    }
  }

  lemma {:induction false} ReversedSnoc(rs: seq<PacketInterval>, el: PacketInterval)
    ensures Reversed(rs + [el]) == [AckRange(el.start, el.end)] + Reversed(rs)
  {
    if rs == [] {
      assert rs + [el] == [el];
    } else {
      assert (rs + [el])[1..] == rs[1..] + [el];
      ReversedSnoc(rs[1..], el);
    }
  }

  // ---------------------------------------------------------------- history and handler

  class ReceivedPacketHistory {
    var ranges: seq<PacketInterval>
    var lowest: nat

    ghost predicate Valid()
      reads this
    {
      Apart(ranges, -2)
    }

    constructor ()
      ensures Valid() && ranges == [] && lowest == 0
    {
      ranges, lowest := [], 0;
    }

    /** Fails, and changes nothing, when too many ranges are tracked, even for a number already there. */
    method ReceivedPacket(p: nat) returns (ok: bool)
      requires Valid()
      modifies this
      ensures Valid() && lowest == old(lowest)
      ensures ok <==> |old(ranges)| < MAX_TRACKED_RANGES
      ensures if ok then forall x: nat :: Has(ranges, x) <==> (Has(old(ranges), x) || x == p) else ranges == old(ranges)
    {
      if |ranges| >= MAX_TRACKED_RANGES {
        return false;
      }
      ranges := Insert(ranges, p);
      return true;
    }

    method DeleteBelow(p: nat)
      requires Valid()
      modifies this
      ensures Valid() && lowest == Max(old(lowest), p)
      ensures if p <= old(lowest) then ranges == old(ranges)
              else forall x: nat :: Has(ranges, x) <==> (Has(old(ranges), x) && x >= p)
    {
      if p <= lowest {
        return;
      }
      lowest := p;
      ranges := DropBelow(ranges, p);
    }

    method GetAckRanges() returns (rs: seq<AckRange>)
      requires Valid()
      ensures rs == [] <==> ranges == []
      ensures rs != [] ==> ValidRanges(rs) && forall x: nat :: x in Members(rs) <==> Has(ranges, x)
    {
      rs := ToAckRanges(ranges);
      if ranges != [] {
        ReversedIsValid(ranges);
      }
    }
  }

  class ReceivedPacketHandler {
    const history: ReceivedPacketHistory
    var ignoreBelow: nat
    var largestObserved: nat
    /** Every packet number that was accepted. */
    ghost var received: set<nat>

    /** The history holds exactly the accepted numbers at or above the threshold. */
    ghost predicate Valid()
      reads this, history
    {
      && history.Valid()
      && history.lowest == ignoreBelow
      && (forall x: nat :: Has(history.ranges, x) <==> x in received && x >= ignoreBelow)
      && (forall x :: x in received && x >= ignoreBelow ==> x <= largestObserved)
    }

    constructor ()
      ensures Valid() && received == {} && ignoreBelow == 0 && fresh(history)
    {
      history := new ReceivedPacketHistory();
      ignoreBelow, largestObserved, received := 0, 0, {};
    }

    /** Accepts a packet number; one below the threshold is accepted without a trace. */
    method ReceivedPacket(p: nat) returns (ok: bool)
      requires Valid()
      modifies this, history
      ensures Valid() && ignoreBelow == old(ignoreBelow)
      ensures ok <==> p < ignoreBelow || |old(history.ranges)| < MAX_TRACKED_RANGES
      ensures received == if ok then old(received) + {p} else old(received)
      ensures largestObserved == if p < ignoreBelow then old(largestObserved) else Max(old(largestObserved), p)
    {
      if p < ignoreBelow {
        received := received + {p};
        return true;
      }
      if p > largestObserved {
        largestObserved := p;
      }
      ok := history.ReceivedPacket(p);
      if ok {
        received := received + {p};
      }
    }

    /** Packets below `p` need not be acknowledged any more. */
    method IgnoreBelow(p: nat)
      requires Valid()
      modifies this, history
      ensures Valid() && ignoreBelow == Max(old(ignoreBelow), p) && received == old(received) && largestObserved == old(largestObserved)
    {
      if p <= ignoreBelow {
        return;
      }
      ignoreBelow := p;
      history.DeleteBelow(p);
    }

    /** The ranges to acknowledge: valid if there are any, and exactly what was received. */
    method AckRangesToSend() returns (rs: seq<AckRange>)
      requires Valid()
      ensures rs == [] <==> forall x :: x in received ==> x < ignoreBelow
      ensures rs != [] ==> ValidRanges(rs) && forall x: nat :: x in Members(rs) <==> x in received && x >= ignoreBelow
    {
      rs := history.GetAckRanges();
      if rs != [] {
        assert Has(history.ranges, history.ranges[0].start);
      }
    }
  }
}
