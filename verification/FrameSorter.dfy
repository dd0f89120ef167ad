/**
 Reassembly of one stream. A `Sorter` keeps the missing byte ranges as an ordered
 list of gaps and the received bytes as chunks keyed by their offset. Frames arrive
 in any order, overlapping and repeated.
 */
module FrameSorter {
  import opened Protocol

  /** A half-open range of stream offsets. */
  datatype Interval = Interval(start: nat, end: nat)

  /** One push: what a STREAM frame carries for reassembly. */
  datatype Segment = Segment(offset: nat, data: seq<byte>, fin: bool) {
    function End(): nat { offset + |data| }
  }

  datatype PushResult = Pushed | Duplicate | TooManyGaps | BugNoGap | BugNoEndGap

  type Chunks = map<nat, seq<byte>>

  // ---------------------------------------------------------------- gap lists

  /** Ascending, nonempty and non-touching ranges, all of them above `lo`. */
  ghost predicate Above(gaps: seq<Interval>, lo: int) {
    gaps == [] || (lo < gaps[0].start < gaps[0].end && Above(gaps[1..], gaps[0].end))
  }

  /** The form in which a set of offsets has exactly one list (see `CanonicalUnique`). */
  ghost predicate Canonical(gaps: seq<Interval>) {
    Above(gaps, -1)
  }

  ghost predicate InGap(gaps: seq<Interval>, x: int) {
    gaps != [] && (gaps[0].start <= x < gaps[0].end || InGap(gaps[1..], x))
  }

  function LastEnd(lo: int, gaps: seq<Interval>): int {
    if gaps == [] then lo else gaps[|gaps| - 1].end
  }

  lemma {:induction false} AboveAppend(a: seq<Interval>, b: seq<Interval>, lo: int)
    ensures Above(a + b, lo) <==> (Above(a, lo) && Above(b, LastEnd(lo, a)))
  {
    if a == [] {
      assert a + b == b;
    } else {
      assert (a + b)[1..] == a[1..] + b;
      AboveAppend(a[1..], b, a[0].end);
    }
  }

  lemma {:induction false} AboveOrder(gaps: seq<Interval>, lo: int)
    requires Above(gaps, lo)
    ensures lo <= LastEnd(lo, gaps)
    ensures gaps != [] ==> gaps[0].end <= LastEnd(lo, gaps)
  {
    if gaps != [] {
      AboveOrder(gaps[1..], gaps[0].end);
    }
  }

  lemma AboveWeaken(gaps: seq<Interval>, lo: int, lower: int)
    requires Above(gaps, lo) && lower <= lo
    ensures Above(gaps, lower)
  {
  }

  lemma {:induction false} AboveAt(gaps: seq<Interval>, lo: int, i: nat)
    requires Above(gaps, lo) && i < |gaps|
    ensures lo < gaps[i].start < gaps[i].end <= LastEnd(lo, gaps)
    ensures i + 1 < |gaps| ==> gaps[i].end < gaps[i + 1].start
  {
    AboveOrder(gaps, lo);
    if i > 0 {
      AboveAt(gaps[1..], gaps[0].end, i - 1);
    }
  }

  lemma {:induction false} InGapAppend(a: seq<Interval>, b: seq<Interval>, x: int)
    ensures InGap(a + b, x) <==> (InGap(a, x) || InGap(b, x))
  {
    if a == [] {
      assert a + b == b;
    } else {
      assert (a + b)[1..] == a[1..] + b;
      InGapAppend(a[1..], b, x);
    }
  }

  lemma {:induction false} InGapRange(gaps: seq<Interval>, lo: int, x: int)
    requires Above(gaps, lo) && InGap(gaps, x)
    ensures lo < x < LastEnd(lo, gaps)
  {
    AboveOrder(gaps, lo);
    if !(gaps[0].start <= x < gaps[0].end) {
      InGapRange(gaps[1..], gaps[0].end, x);
    }
  }

  /** A set of offsets has one canonical list. */
  lemma {:induction false} CanonicalUnique(a: seq<Interval>, b: seq<Interval>, lo: int)
    requires Above(a, lo) && Above(b, lo)
    requires forall x: int :: InGap(a, x) <==> InGap(b, x)
    ensures a == b
  {
    if a == [] {
      assert b != [] ==> InGap(b, b[0].start);
    } else if b == [] {
      assert InGap(a, a[0].start);
    } else {
      SameHead(a, b, lo);
      SameHead(b, a, lo);
      forall x: int
        ensures InGap(a[1..], x) <==> InGap(b[1..], x)
      {
        assert InGap(a, x) <==> InGap(b, x);
        if InGap(a[1..], x) {
          InGapRange(a[1..], a[0].end, x);
        }
        if InGap(b[1..], x) {
          InGapRange(b[1..], b[0].end, x);
        }
      }
      CanonicalUnique(a[1..], b[1..], a[0].end);
    }
  }

  lemma SameHead(a: seq<Interval>, b: seq<Interval>, lo: int)
    requires Above(a, lo) && Above(b, lo) && a != [] && b != []
    requires forall x: int :: InGap(a, x) <==> InGap(b, x)
    ensures a[0].start >= b[0].start
    ensures a[0].start == b[0].start ==> a[0].end >= b[0].end
  {
    assert InGap(a, a[0].start);
    assert InGap(b, a[0].start);
    if !(b[0].start <= a[0].start < b[0].end) {
      InGapRange(b[1..], b[0].end, a[0].start);
    }
    assert !InGap(a, a[0].end) by {
      if InGap(a[1..], a[0].end) {
        InGapRange(a[1..], a[0].end, a[0].end);
      }
    }
    assert !InGap(b, a[0].end);
  }

  // ---------------------------------------------------------------- filling a range

  /** Reference definition of filling `[s, e)`: cut the range out of every gap. */
  function CutOne(gap: Interval, s: nat, e: nat): seq<Interval> {
    (if gap.start < Min(gap.end, s) then [Interval(gap.start, Min(gap.end, s))] else [])
    + (if Max(gap.start, e) < gap.end then [Interval(Max(gap.start, e), gap.end)] else [])
  }

  function Cut(gaps: seq<Interval>, s: nat, e: nat): seq<Interval> {
    if gaps == [] then [] else CutOne(gaps[0], s, e) + Cut(gaps[1..], s, e)
  }

  lemma {:induction false} CutAppend(a: seq<Interval>, b: seq<Interval>, s: nat, e: nat)
    ensures Cut(a + b, s, e) == Cut(a, s, e) + Cut(b, s, e)
  {
    if a == [] {
      assert a + b == b;
    } else {
      assert (a + b)[1..] == a[1..] + b;
      CutAppend(a[1..], b, s, e);
    }
  }

  lemma {:induction false} CutBefore(gaps: seq<Interval>, lo: int, s: nat, e: nat)
    requires Above(gaps, lo) && LastEnd(lo, gaps) <= s < e
    ensures Cut(gaps, s, e) == gaps
  {
    AboveOrder(gaps, lo);
    if gaps != [] {
      CutBefore(gaps[1..], gaps[0].end, s, e);
    }
  }

  lemma {:induction false} CutAfter(gaps: seq<Interval>, lo: int, s: nat, e: nat)
    requires Above(gaps, lo) && s < e <= lo + 1
    ensures Cut(gaps, s, e) == gaps
  {
    if gaps != [] {
      CutAfter(gaps[1..], gaps[0].end, s, e);
    }
  }

  lemma {:induction false} CutInside(gaps: seq<Interval>, lo: int, s: nat, e: nat)
    requires Above(gaps, lo) && s <= lo + 1 && LastEnd(lo, gaps) <= e
    ensures Cut(gaps, s, e) == []
  {
    AboveOrder(gaps, lo);
    if gaps != [] {
      CutInside(gaps[1..], gaps[0].end, s, e);
    }
  }

  /** `Cut` removes exactly the range from the set of missing offsets. */
  lemma {:induction false} CutMembers(gaps: seq<Interval>, s: nat, e: nat, x: int)
    ensures InGap(Cut(gaps, s, e), x) <==> (InGap(gaps, x) && !(s <= x < e))
  {
    if gaps != [] {
      CutMembers(gaps[1..], s, e, x);
      InGapAppend(CutOne(gaps[0], s, e), Cut(gaps[1..], s, e), x);
      var gap := gaps[0];
      var l := if gap.start < Min(gap.end, s) then [Interval(gap.start, Min(gap.end, s))] else [];
      var r := if Max(gap.start, e) < gap.end then [Interval(Max(gap.start, e), gap.end)] else [];
      InGapAppend(l, r, x);
    }
  }

  lemma {:induction false} CutAbove(gaps: seq<Interval>, lo: int, s: nat, e: nat)
    requires Above(gaps, lo) && s < e
    ensures Above(Cut(gaps, s, e), lo)
  {
    if gaps != [] {
      var one := CutOne(gaps[0], s, e);
      CutAbove(gaps[1..], gaps[0].end, s, e);
      AboveWeaken(Cut(gaps[1..], s, e), gaps[0].end, LastEnd(lo, one));
      AboveAppend(one, Cut(gaps[1..], s, e), lo);
    }
  }

  lemma CutSingle(gap: Interval, s: nat, e: nat)
    ensures Cut([gap], s, e) == CutOne(gap, s, e)
  {
    assert Cut([gap], s, e) == CutOne(gap, s, e) + Cut([], s, e);
  }

  /** What is left of a gap below `s`, and above `e`. */
  function Left(gap: Interval, s: nat): seq<Interval> {
    if gap.start < s then [Interval(gap.start, s)] else []
  }

  function Right(gap: Interval, e: nat): seq<Interval> {
    if e < gap.end then [Interval(e, gap.end)] else []
  }

  /** Of the gaps `a + (m + d)`, the range `[s, e)` meets exactly those in `m`. */
  ghost predicate Meets(a: seq<Interval>, m: seq<Interval>, d: seq<Interval>, s: nat, e: nat) {
    && m != []
    && LastEnd(-1, a) <= s < e
    && s < m[0].end
    && m[|m| - 1].start < e
    && (d != [] ==> e <= d[0].start)
  }

  /** What is left of the gaps in `m`. */
  function Rest(m: seq<Interval>, s: nat, e: nat): seq<Interval>
    requires m != []
  {
    Left(m[0], s) + Right(m[|m| - 1], e)
  }

  /** Editing only the gaps that are met gives the reference result. */
  lemma CutParts(a: seq<Interval>, m: seq<Interval>, d: seq<Interval>, s: nat, e: nat)
    requires Canonical(a + (m + d)) && Meets(a, m, d, s, e)
    ensures Cut(a + (m + d), s, e) == a + (Rest(m, s, e) + d)
  {
    AboveAppend(a, m + d, -1);
    AboveAppend(m, d, LastEnd(-1, a));
    CutAppend(a, m + d, s, e);
    CutAppend(m, d, s, e);
    CutBefore(a, -1, s, e);
    CutSpan(m, LastEnd(-1, a), s, e);
    if d != [] {
      CutAfter(d, e - 1, s, e);
    }
  }

  lemma CutSpan(m: seq<Interval>, lo: int, s: nat, e: nat)
    requires m != [] && Above(m, lo) && s < e
    requires s < m[0].end && m[|m| - 1].start < e
    ensures Cut(m, s, e) == Rest(m, s, e)
  {
    var f, l := m[0], m[|m| - 1];
    CutSingle(f, s, e);
    if |m| == 1 {
      assert m == [f];
    } else {
      var mid := m[1..|m| - 1];
      assert m == [f] + (mid + [l]);
      CutAppend([f], mid + [l], s, e);
      CutAppend(mid, [l], s, e);
      AboveAppend([f], mid + [l], lo);
      AboveAppend(mid, [l], f.end);
      CutInside(mid, f.end, s, e);
      CutSingle(l, s, e);
      AboveOrder(mid, f.end);
    }
  }

  lemma CutLast(gaps: seq<Interval>, s: nat, e: nat)
    requires Canonical(gaps) && gaps != [] && s < e < LastEnd(-1, gaps)
    ensures Cut(gaps, s, e) != [] && LastEnd(-1, Cut(gaps, s, e)) == LastEnd(-1, gaps)
  {
    var l := gaps[|gaps| - 1];
    AboveAt(gaps, -1, |gaps| - 1);
    assert gaps == gaps[..|gaps| - 1] + [l];
    CutAppend(gaps[..|gaps| - 1], [l], s, e);
    CutSingle(l, s, e);
  }

  // ---------------------------------------------------------------- what was pushed

  /** Some push carried the byte at offset `x`. */
  ghost predicate Covered(log: seq<Segment>, x: int) {
    exists i :: 0 <= i < |log| && log[i].offset <= x < log[i].End()
  }

  /** Some push carried `b` at offset `x`. */
  ghost predicate Carried(log: seq<Segment>, x: int, b: byte) {
    exists i :: 0 <= i < |log| && log[i].offset <= x < log[i].End() && log[i].data[x - log[i].offset] == b
  }

  /** The end of the last push that carried a FIN. */
  ghost function FinalOffset(log: seq<Segment>): nat {
    if log == [] then MAX_BYTE_COUNT
    else if log[|log| - 1].fin then log[|log| - 1].End()
    else FinalOffset(log[..|log| - 1])
  }

  lemma LogGrows(log: seq<Segment>, seg: Segment)
    ensures forall x: int :: Covered(log + [seg], x) <==> (Covered(log, x) || seg.offset <= x < seg.End())
    ensures forall x: int, b: byte :: Carried(log, x, b) ==> Carried(log + [seg], x, b)
    ensures forall i :: 0 <= i < |seg.data| ==> Carried(log + [seg], seg.offset + i, seg.data[i])
    ensures FinalOffset(log + [seg]) == if seg.fin then seg.End() else FinalOffset(log)
  {
    var all := log + [seg];
    assert all[..|log|] == log;
    forall x: int
      ensures Covered(all, x) <==> (Covered(log, x) || seg.offset <= x < seg.End())
    {
      if Covered(log, x) {
        var i :| 0 <= i < |log| && log[i].offset <= x < log[i].End();
        assert all[i] == log[i];
      }
      if seg.offset <= x < seg.End() {
        assert all[|log|] == seg;
      }
    }
    forall x: int, b: byte | Carried(log, x, b)
      ensures Carried(all, x, b)
    {
      var i :| 0 <= i < |log| && log[i].offset <= x < log[i].End() && log[i].data[x - log[i].offset] == b;
      assert all[i] == log[i];
    }
    forall i | 0 <= i < |seg.data|
      ensures Carried(all, seg.offset + i, seg.data[i])
    {
      assert all[|log|] == seg;
    }
  }

  /** What an accepted push does for the reader. */
  ghost predicate PushStep(log: seq<Segment>, seg: Segment, log': seq<Segment>) {
    log' == log + [seg] && (seg.data != [] ==> seg.End() < MAX_BYTE_COUNT)
  }

  /** What a pop returns: data exactly when the byte at `pos` was pushed, and pushed bytes only. */
  ghost predicate PopStep(log: seq<Segment>, pos: nat, data: seq<byte>, fin: bool, pos': nat) {
    && (data != [] <==> Covered(log, pos))
    && (forall i :: 0 <= i < |data| ==> Carried(log, pos + i, data[i]))
    && pos' == pos + |data|
    && (fin <==> pos' >= FinalOffset(log))
  }

  // ---------------------------------------------------------------- chunks

  /** Chunks reached from `a` follow each other without hole or overlap up to `b`. */
  ghost predicate Tiles(queue: Chunks, a: nat, b: nat)
    decreases b - a
  {
    a == b
    || (a < b && a in queue && queue[a] != [] && a + |queue[a]| <= b && Tiles(queue, a + |queue[a]|, b))
  }

  lemma {:induction false} TilesFrame(q: Chunks, q': Chunks, a: nat, b: nat)
    requires Tiles(q, a, b)
    requires forall k :: a <= k < b && k in q ==> k in q' && q'[k] == q[k]
    ensures Tiles(q', a, b)
    decreases b - a
  {
    if a != b {
      TilesFrame(q, q', a + |q[a]|, b);
    }
  }

  lemma {:induction false} TilesJoin(q: Chunks, a: nat, b: nat, c: nat)
    requires Tiles(q, a, b) && Tiles(q, b, c)
    ensures Tiles(q, a, c)
    decreases b - a
  {
    if a != b {
      TilesJoin(q, a + |q[a]|, b, c);
    }
  }

  /** Starting at `pos`, the run before each gap is tiled. */
  ghost predicate Runs(queue: Chunks, pos: nat, gaps: seq<Interval>)
    decreases |gaps|
  {
    gaps == [] || (Tiles(queue, pos, gaps[0].start) && Runs(queue, gaps[0].end, gaps[1..]))
  }

  lemma {:induction false} RunsAppend(queue: Chunks, pos: nat, a: seq<Interval>, b: seq<Interval>)
    ensures Runs(queue, pos, a + b) <==> (Runs(queue, pos, a) && Runs(queue, LastEnd(pos, a), b))
    decreases |a|
  {
    if a == [] {
      assert a + b == b;
    } else {
      assert (a + b)[1..] == a[1..] + b;
      RunsAppend(queue, a[0].end, a[1..], b);
    }
  }

  /** Runs that end below `hi` do not depend on chunks outside `[pos, hi)`. */
  lemma {:induction false} RunsFrame(q: Chunks, q': Chunks, pos: nat, gaps: seq<Interval>, lo: int, hi: int)
    requires Above(gaps, lo) && Runs(q, pos, gaps) && LastEnd(lo, gaps) <= hi
    requires forall k :: pos <= k < hi && k in q ==> k in q' && q'[k] == q[k]
    ensures Runs(q', pos, gaps)
    decreases |gaps|
  {
    if gaps != [] {
      AboveOrder(gaps, lo);
      TilesFrame(q, q', pos, gaps[0].start);
      RunsFrame(q, q', gaps[0].end, gaps[1..], gaps[0].end, hi);
    }
  }

  // ---------------------------------------------------------------- the invariant

  /** The gaps are the canonical complement of everything pushed. */
  ghost predicate GapsInv(gaps: seq<Interval>, log: seq<Segment>) {
    && gaps != []
    && Canonical(gaps)
    && LastEnd(-1, gaps) == MAX_BYTE_COUNT
    && (forall x: int :: 0 <= x < MAX_BYTE_COUNT ==> (InGap(gaps, x) <==> !Covered(log, x)))
    && (forall i :: 0 <= i < |log| && log[i].data != [] ==> log[i].End() < MAX_BYTE_COUNT)
  }

  ghost predicate ChunkInv(k: nat, chunk: seq<byte>, log: seq<Segment>) {
    chunk != [] && forall i :: 0 <= i < |chunk| ==> Carried(log, k + i, chunk[i])
  }

  /** Every queued byte was carried by a push at its offset. */
  ghost predicate ChunksInv(queue: Chunks, log: seq<Segment>) {
    forall k :: k in queue ==> ChunkInv(k, queue[k], log)
  }

  /** Every received run at or after `readPos` is tiled by chunks. */
  ghost predicate RunsInv(queue: Chunks, readPos: nat, gaps: seq<Interval>) {
    gaps != [] && readPos <= gaps[0].start && Runs(queue, readPos, gaps)
  }

  ghost predicate Inv(queue: Chunks, readPos: nat, gaps: seq<Interval>, log: seq<Segment>) {
    && GapsInv(gaps, log)
    && ChunksInv(queue, log)
    && RunsInv(queue, readPos, gaps)
  }

  /** A queued offset holds received data, also when its chunk was superseded. */
  lemma QueuedIsReceived(queue: Chunks, gaps: seq<Interval>, log: seq<Segment>, k: nat, x: int)
    requires GapsInv(gaps, log) && ChunksInv(queue, log)
    requires k in queue && k <= x < k + |queue[k]|
    ensures Covered(log, x) && !InGap(gaps, x) && x + 1 < MAX_BYTE_COUNT
  {
    assert ChunkInv(k, queue[k], log);
    assert Carried(log, k + (x - k), queue[k][x - k]);
    var i :| 0 <= i < |log| && log[i].offset <= x < log[i].End();
    assert log[i].End() < MAX_BYTE_COUNT;
  }

  lemma ChunkIsReceived(queue: Chunks, gaps: seq<Interval>, log: seq<Segment>, k: nat)
    requires GapsInv(gaps, log) && ChunksInv(queue, log) && k in queue
    ensures queue[k] != [] && k + |queue[k]| < MAX_BYTE_COUNT
    ensures forall x: int :: k <= x < k + |queue[k]| ==> Covered(log, x)
  {
    assert ChunkInv(k, queue[k], log);
    forall x: int | k <= x < k + |queue[k]|
      ensures Covered(log, x) && x + 1 < MAX_BYTE_COUNT
    {
      QueuedIsReceived(queue, gaps, log, k, x);
    }
    QueuedIsReceived(queue, gaps, log, k, k + |queue[k]| - 1);
  }

  /** The chunk that starts a run is present. */
  lemma RunHeadQueued(queue: Chunks, readPos: nat, a: seq<Interval>, d: seq<Interval>)
    requires Canonical(a + d) && Runs(queue, readPos, a + d) && a != [] && d != []
    ensures a[|a| - 1].end in queue
  {
    RunsAppend(queue, readPos, a, d);
    AboveAppend(a, d, -1);
  }

  /** The runs after a fill, given the chunk `[s, e)` that closes the gaps in `m`. */
  lemma FilledRuns(q: Chunks, q': Chunks, readPos: nat, a: seq<Interval>, m: seq<Interval>, d: seq<Interval>,
                   s: nat, e: nat)
    requires m != [] && Canonical(a + (m + d)) && RunsInv(q, readPos, a + (m + d))
    requires m[0].start <= s < e <= m[|m| - 1].end && (d != [] || e < m[|m| - 1].end)
    requires s in q' && |q'[s]| == e - s
    requires forall k :: k in q && (k < m[0].start || m[|m| - 1].end <= k) ==> k in q' && q'[k] == q[k]
    ensures RunsInv(q', readPos, a + (Rest(m, s, e) + d))
  {
    OuterRuns(q, q', readPos, a, m, d);
    assert q'[s] != [] && Tiles(q', s + |q'[s]|, e);
    InnerRuns(q', LastEnd(readPos, a), m[0], m[|m| - 1], s, e, d);
    RunsAppend(q', readPos, a, Rest(m, s, e) + d);
    RestStart(a, m, d, s, e);
  }

  lemma RestStart(a: seq<Interval>, m: seq<Interval>, d: seq<Interval>, s: nat, e: nat)
    requires m != [] && Canonical(a + (m + d))
    requires m[0].start <= s < e <= m[|m| - 1].end && (d != [] || e < m[|m| - 1].end)
    ensures a + (Rest(m, s, e) + d) != [] && (a + (m + d))[0].start <= (a + (Rest(m, s, e) + d))[0].start
  {
    AboveAppend(a, m + d, -1);
    AboveAppend(m, d, LastEnd(-1, a));
    AboveOrder(m, LastEnd(-1, a));
  }

  /** Runs away from the filled gaps are not touched. */
  lemma OuterRuns(q: Chunks, q': Chunks, readPos: nat, a: seq<Interval>, m: seq<Interval>, d: seq<Interval>)
    requires m != [] && Canonical(a + (m + d)) && Runs(q, readPos, a + (m + d))
    requires forall k :: k in q && (k < m[0].start || m[|m| - 1].end <= k) ==> k in q' && q'[k] == q[k]
    ensures Runs(q', readPos, a)
    ensures Tiles(q', LastEnd(readPos, a), m[0].start)
    ensures Runs(q', m[|m| - 1].end, d)
  {
    AboveAppend(a, m + d, -1);
    AboveAppend(m, d, LastEnd(-1, a));
    RunsAppend(q, readPos, a, m + d);
    RunsAppend(q, LastEnd(readPos, a), m, d);
    TilesFrame(q, q', LastEnd(readPos, a), m[0].start);
    RunsFrame(q, q', readPos, a, -1, m[0].start);
    var l := m[|m| - 1].end;
    RunsFrame(q, q', l, d, l, LastEnd(l, d));
  }

  /** The new chunk joins the runs it touches. */
  lemma InnerRuns(q: Chunks, from: nat, f: Interval, l: Interval, s: nat, e: nat, d: seq<Interval>)
    requires Tiles(q, from, f.start) && Tiles(q, s, e) && Runs(q, l.end, d)
    requires f.start <= s < e <= l.end && (d != [] || e < l.end)
    ensures Runs(q, from, Left(f, s) + Right(l, e) + d)
  {
    var left, right := Left(f, s), Right(l, e);
    var p := LastEnd(from, left);
    if f.start == s {
      TilesJoin(q, from, s, e);
    } else {
      assert left[1..] == [];
    }
    if e == l.end {
      TilesJoin(q, p, e, d[0].start);
      assert right + d == d;
    } else {
      assert (right + d)[1..] == d;
    }
    RunsAppend(q, from, left, right + d);
    assert left + right + d == left + (right + d);
  }

  /** The queue after a fill: superseded run heads dropped, the new chunk added. */
  ghost predicate FilledQueue(q: Chunks, q': Chunks, m: seq<Interval>, seg: Segment, s: nat, e: nat)
    requires m != []
  {
    && seg.offset <= s < e <= seg.End()
    && s in q'
    && q'[s] == seg.data[s - seg.offset..e - seg.offset]
    && (forall k :: k in q' && k != s ==> k in q && q'[k] == q[k])
    && (forall k :: k in q && (k < m[0].start || m[|m| - 1].end <= k) ==> k in q' && q'[k] == q[k])
  }

  /** A successful fill re-establishes the whole invariant with the frame logged. */
  lemma FilledInv(q: Chunks, q': Chunks, readPos: nat, log: seq<Segment>, seg: Segment, start: nat,
                  a: seq<Interval>, m: seq<Interval>, d: seq<Interval>, s: nat, e: nat)
    requires Inv(q, readPos, a + (m + d), log)
    requires seg.offset <= start && seg.End() < MAX_BYTE_COUNT
    requires forall x: int :: seg.offset <= x < start ==> Covered(log, x)
    requires Meets(a, m, d, start, seg.End())
    requires s == Max(start, m[0].start) && e == Min(seg.End(), m[|m| - 1].end)
    requires FilledQueue(q, q', m, seg, s, e)
    ensures a + (Rest(m, s, e) + d) == Cut(a + (m + d), seg.offset, seg.End())
    ensures Inv(q', readPos, a + (Rest(m, s, e) + d), log + [seg])
  {
    var gaps := a + (m + d);
    CutParts(a, m, d, start, seg.End());
    assert Rest(m, s, e) == Rest(m, start, seg.End());
    CutSkipsReceived(gaps, log, seg.offset, start, seg.End());
    CutKeepsInv(gaps, log, seg);
    assert d == [] ==> LastEnd(-1, gaps) == m[|m| - 1].end;
    FilledRuns(q, q', readPos, a, m, d, s, e);
    FilledChunks(q, q', m, log, seg, s, e);
  }

  lemma FilledChunks(q: Chunks, q': Chunks, m: seq<Interval>, log: seq<Segment>, seg: Segment, s: nat, e: nat)
    requires m != [] && ChunksInv(q, log) && FilledQueue(q, q', m, seg, s, e)
    ensures ChunksInv(q', log + [seg])
  {
    LogGrows(log, seg);
    var n := s - seg.offset;
    forall k | k in q'
      ensures ChunkInv(k, q'[k], log + [seg])
    {
      if k == s {
        forall i | 0 <= i < |q'[s]|
          ensures Carried(log + [seg], s + i, q'[s][i])
        {
          assert Carried(log + [seg], seg.offset + (n + i), seg.data[n + i]);
        }
      } else {
        assert ChunkInv(k, q[k], log);
      }
    }
  }

  lemma CutSkipsReceived(gaps: seq<Interval>, log: seq<Segment>, offset: nat, start: nat, end: nat)
    requires GapsInv(gaps, log) && offset <= start < end <= MAX_BYTE_COUNT
    requires forall x: int :: offset <= x < start ==> Covered(log, x)
    ensures Cut(gaps, offset, end) == Cut(gaps, start, end)
  {
    CutAbove(gaps, -1, offset, end);
    CutAbove(gaps, -1, start, end);
    forall x: int
      ensures InGap(Cut(gaps, offset, end), x) <==> InGap(Cut(gaps, start, end), x)
    {
      CutMembers(gaps, offset, end, x);
      CutMembers(gaps, start, end, x);
      if offset <= x < start {
        assert Covered(log, x);
      }
    }
    CanonicalUnique(Cut(gaps, offset, end), Cut(gaps, start, end), -1);
  }

  lemma CutKeepsInv(gaps: seq<Interval>, log: seq<Segment>, seg: Segment)
    requires GapsInv(gaps, log) && seg.data != [] && seg.End() < MAX_BYTE_COUNT
    ensures GapsInv(Cut(gaps, seg.offset, seg.End()), log + [seg])
  {
    var cut := Cut(gaps, seg.offset, seg.End());
    CutAbove(gaps, -1, seg.offset, seg.End());
    LogGrows(log, seg);
    forall x: int
      ensures InGap(cut, x) <==> (InGap(gaps, x) && !(seg.offset <= x < seg.End()))
    {
      CutMembers(gaps, seg.offset, seg.End(), x);
    }
    CutLast(gaps, seg.offset, seg.End());
  }

  // ---------------------------------------------------------------- pushing

  /** The missing ranges after a push. */
  function Fill(gaps: seq<Interval>, seg: Segment): seq<Interval> {
    if seg.data == [] then gaps else Cut(gaps, seg.offset, seg.End())
  }

  /** What a push reports, by the missing ranges alone. */
  function Outcome(gaps: seq<Interval>, seg: Segment): PushResult {
    if seg.data == [] then Pushed
    else if seg.offset > MAX_BYTE_COUNT then BugNoGap
    else if seg.End() >= MAX_BYTE_COUNT then BugNoEndGap
    else if Fill(gaps, seg) == gaps then Duplicate
    else if |Fill(gaps, seg)| > MAX_SORTER_GAPS then TooManyGaps
    else Pushed
  }

  /** The canonical list of the offsets that no push of the log carried. */
  ghost predicate MissingFrom(g: seq<Interval>, log: seq<Segment>) {
    Canonical(g) && forall x: int :: InGap(g, x) <==> 0 <= x < MAX_BYTE_COUNT && !Covered(log, x)
  }

  /** All that the frame carries was received before. */
  ghost predicate NothingNew(log: seq<Segment>, seg: Segment) {
    forall x: int :: seg.offset <= x < seg.End() ==> Covered(log, x)
  }

  lemma GapsAreMissing(gaps: seq<Interval>, log: seq<Segment>)
    requires GapsInv(gaps, log)
    ensures MissingFrom(gaps, log)
  {
    forall x: int | InGap(gaps, x)
      ensures 0 <= x < MAX_BYTE_COUNT
    {
      InGapRange(gaps, -1, x);
    }
  }

  lemma DuplicateIff(gaps: seq<Interval>, log: seq<Segment>, seg: Segment)
    requires GapsInv(gaps, log) && seg.data != [] && seg.End() < MAX_BYTE_COUNT
    ensures Fill(gaps, seg) == gaps <==> NothingNew(log, seg)
  {
    forall x: int
      ensures InGap(Fill(gaps, seg), x) <==> (InGap(gaps, x) && !(seg.offset <= x < seg.End()))
    {
      CutMembers(gaps, seg.offset, seg.End(), x);
    }
    if NothingNew(log, seg) {
      CutAbove(gaps, -1, seg.offset, seg.End());
      CanonicalUnique(Fill(gaps, seg), gaps, -1);
    }
  }

  /**
   What a push of data reports, by the bytes received so far alone: one of the two bugs for a frame
   that reaches the largest offset; else nothing if it carries nothing new; else an error exactly if
   what is missing afterwards, `g`, is in too many pieces.
   */
  lemma OutcomeIff(gaps: seq<Interval>, log: seq<Segment>, seg: Segment, g: seq<Interval>)
    requires GapsInv(gaps, log) && seg.data != [] && MissingFrom(g, log + [seg])
    ensures match Outcome(gaps, seg)
      case BugNoGap => seg.offset > MAX_BYTE_COUNT
      case BugNoEndGap => seg.offset <= MAX_BYTE_COUNT <= seg.End()
      case Duplicate => seg.End() < MAX_BYTE_COUNT && NothingNew(log, seg)
      case TooManyGaps => seg.End() < MAX_BYTE_COUNT && !NothingNew(log, seg) && |g| > MAX_SORTER_GAPS
      case Pushed => seg.End() < MAX_BYTE_COUNT && !NothingNew(log, seg) && |g| <= MAX_SORTER_GAPS
  {
    if seg.End() < MAX_BYTE_COUNT {
      DuplicateIff(gaps, log, seg);
      CutKeepsInv(gaps, log, seg);
      GapsAreMissing(Fill(gaps, seg), log + [seg]);
      CanonicalUnique(Fill(gaps, seg), g, -1);
    }
  }

  lemma CutNothing(a: seq<Interval>, d: seq<Interval>, s: nat, e: nat)
    requires Canonical(a + d) && d != [] && LastEnd(-1, a) <= s < e <= d[0].start
    ensures Cut(a + d, s, e) == a + d
  {
    AboveAppend(a, d, -1);
    CutAppend(a, d, s, e);
    CutBefore(a, -1, s, e);
    CutAfter(d, e - 1, s, e);
  }

  /** A frame that carries only received bytes changes nothing but the log. */
  lemma DuplicateInv(q: Chunks, readPos: nat, gaps: seq<Interval>, log: seq<Segment>, seg: Segment, start: nat)
    requires Inv(q, readPos, gaps, log) && seg.data != []
    requires seg.offset <= start && seg.End() < MAX_BYTE_COUNT
    requires forall x: int :: seg.offset <= x < start ==> Covered(log, x)
    requires start < seg.End() ==> Cut(gaps, start, seg.End()) == gaps
    ensures Fill(gaps, seg) == gaps
    ensures Inv(q, readPos, gaps, log + [seg])
  {
    var end := seg.End();
    if start < end {
      CutSkipsReceived(gaps, log, seg.offset, start, end);
    } else {
      CutAbove(gaps, -1, seg.offset, end);
      forall x: int
        ensures InGap(Cut(gaps, seg.offset, end), x) <==> InGap(gaps, x)
      {
        CutMembers(gaps, seg.offset, end, x);
        if seg.offset <= x < end {
          assert Covered(log, x);
        }
      }
      CanonicalUnique(Cut(gaps, seg.offset, end), gaps, -1);
    }
    CutKeepsInv(gaps, log, seg);
    LoggedChunks(q, log, seg);
  }

  lemma LoggedChunks(q: Chunks, log: seq<Segment>, seg: Segment)
    requires ChunksInv(q, log)
    ensures ChunksInv(q, log + [seg])
  {
    LogGrows(log, seg);
    forall k | k in q
      ensures ChunkInv(k, q[k], log + [seg])
    {
      assert ChunkInv(k, q[k], log);
    }
  }

  /** A frame without data only moves the FIN. */
  lemma EmptyInv(q: Chunks, readPos: nat, gaps: seq<Interval>, log: seq<Segment>, seg: Segment)
    requires Inv(q, readPos, gaps, log) && seg.data == []
    ensures Inv(q, readPos, gaps, log + [seg])
  {
    LogGrows(log, seg);
    LoggedChunks(q, log, seg);
  }

  /** After skipping a chunk stored at its own offset, a frame never begins where a gap ends. */
  lemma StartsInsideARun(q: Chunks, readPos: nat, log: seq<Segment>, offset: nat, a: seq<Interval>, d: seq<Interval>)
    requires Inv(q, readPos, a + d, log) && a != []
    ensures var start := if offset in q then offset + |q[offset]| else offset;
            start == a[|a| - 1].end ==> start == MAX_BYTE_COUNT
  {
    var gap := a[|a| - 1];
    if offset in q {
      assert ChunkInv(offset, q[offset], log);
      QueuedIsReceived(q, a + d, log, offset, offset + |q[offset]| - 1);
      AboveAppend(a, d, -1);
      assert a == a[..|a| - 1] + [gap];
      AboveAppend(a[..|a| - 1], [gap], -1);
      InGapAppend(a[..|a| - 1], [gap], gap.end - 1);
      InGapAppend(a, d, gap.end - 1);
    } else if d != [] {
      RunHeadQueued(q, readPos, a, d);
    } else {
      assert a + d == a;
    }
  }

  lemma CutChanges(a: seq<Interval>, m: seq<Interval>, d: seq<Interval>, s: nat, e: nat)
    requires m != [] && m[0].start < m[0].end && s < e && s < m[0].end && m[0].start < e
    ensures Cut(a + (m + d), s, e) != a + (m + d)
  {
    var x := Max(s, m[0].start);
    InGapAppend(a, m + d, x);
    CutMembers(a + (m + d), s, e, x);
  }

  datatype Search = Hit | AllReceived | Beyond

  /**
   The first gap that ends at or after `start`, unless the frame ends before it. The list is
   returned as the gaps before that place and the gaps from there on.
   */
  method FindGap(gaps: seq<Interval>, start: nat, end: nat)
    returns (r: Search, before: seq<Interval>, after: seq<Interval>)
    ensures gaps == before + after && LastEnd(-1, before) < start
    ensures r.Hit? ==> after != [] && start <= after[0].end && after[0].start < end
    ensures r.AllReceived? ==> after != [] && end <= after[0].start
    ensures r.Beyond? ==> after == []
  {
    before, after := [], gaps;
    while after != []
      invariant gaps == before + after && LastEnd(-1, before) < start
    {
      var gap := after[0];
      if end <= gap.start {
        return AllReceived, before, after;
      }
      if end > gap.start && start <= gap.end {
        return Hit, before, after;
      }
      before, after := before + [gap], after[1..];
    }
    return Beyond, before, after;
  }

  /** Chunks are dropped, none changed, and only between `lo` and `hi`. */
  ghost predicate KeepsOutside(q: Chunks, q': Chunks, lo: nat, hi: nat) {
    && (forall k :: k in q' ==> k in q && q'[k] == q[k])
    && (forall k :: k in q && (k < lo || hi <= k) ==> k in q')
  }

  /**
   Walks from the gap where a frame starts to the last gap it meets, dropping the gaps in
   between and the first chunk of every run in between. `dropped` says that the last gap has
   left the list too, because the frame reaches its end and it is not the gap where it starts.
   */
  method CloseGaps(after: seq<Interval>, q0: Chunks, end: nat, ghost lo: int)
    returns (found: bool, endGap: Interval, same: bool, dropped: bool, tail: seq<Interval>, queue: Chunks,
             ghost met: seq<Interval>)
    requires after != [] && Above(after, lo) && after[0].start < end
    ensures found <==> end < LastEnd(lo, after)
    ensures found ==>
      && met != [] && after == met + tail
      && endGap == met[|met| - 1] && endGap.start < end && (tail != [] ==> end <= tail[0].start)
      && (same <==> |met| == 1)
      && (dropped <==> !same && end >= endGap.end)
      && KeepsOutside(q0, queue, after[0].start, endGap.end)
  {
    endGap, same, dropped, tail, queue := after[0], true, false, after[1..], q0;
    met := [endGap];
    assert after == met + tail;
    while end >= endGap.end
      invariant met != [] && after == met + tail && Above([endGap] + tail, lo)
      invariant endGap == met[|met| - 1] && after[0].start < endGap.end && endGap.start < end
      invariant same <==> |met| == 1
      invariant !dropped
      invariant KeepsOutside(q0, queue, after[0].start, endGap.end)
      decreases |tail|
    {
      assert ([endGap] + tail)[1..] == tail;
      if tail == [] {
        return false, endGap, same, dropped, tail, queue, met;
      }
      var next := tail[0];
      if !same {
        dropped := true;
      }
      if end <= next.start {
        AboveOrder(tail, endGap.end);
        return true, endGap, same, dropped, tail, queue, met;
      }
      queue := queue - {endGap.end};
      AboveWeaken(tail, endGap.end, lo);
      assert tail == [next] + tail[1..];
      endGap, same, dropped, tail := next, false, false, tail[1..];
      met := met + [next];
    }
    AboveOrder([endGap] + tail, lo);
    assert ([endGap] + tail)[1..] == tail;
    found := true;
  }

  /**
   Edits the two gaps at the ends of a frame that was cut to `[start, end)`. `same` says that
   they are one list element; `dropped` that `endGap` is no longer in the list.
   */
  method EditGaps(gap: Interval, endGap: Interval, same: bool, dropped: bool, start: nat, end: nat)
    returns (edited: seq<Interval>)
    requires gap.start <= start < gap.end && start < end <= endGap.end
    requires if same then gap == endGap && !dropped else gap.end < end && (dropped <==> end == endGap.end)
    ensures edited == Left(gap, start) + Right(endGap, end)
  {
    var first, second := [gap], if same || dropped then [] else [endGap];
    if start == gap.start {
      if end >= gap.end {
        first := [];
      }
      if end < endGap.end {
        if same {
          first := [Interval(end, gap.end)];
        } else {
          second := [Interval(end, endGap.end)];
        }
      }
    } else if end == endGap.end {
      first := [Interval(gap.start, start)];
    } else if same {
      first, second := [Interval(gap.start, start)], [Interval(end, gap.end)];
    } else {
      first, second := [Interval(gap.start, start)], [Interval(end, endGap.end)];
    }
    return first + second;
  }

  /** Finds the chunk that is new in a frame whose first new byte lies in or before the gap `after[0]`. */
  method Place(seg: Segment, rest: seq<byte>, from: nat, before: seq<Interval>, after: seq<Interval>, q0: Chunks,
               ghost readPos: nat, ghost log: seq<Segment>)
    returns (found: bool, gaps: seq<Interval>, queue: Chunks, start: nat, data: seq<byte>)
    requires Inv(q0, readPos, before + after, log)
    requires seg.offset <= from < seg.End() && rest == seg.data[from - seg.offset..]
    requires forall x: int :: seg.offset <= x < from ==> Covered(log, x)
    requires LastEnd(-1, before) < from && after != [] && from <= after[0].end && after[0].start < seg.End()
    requires from == after[0].end ==> from == MAX_BYTE_COUNT
    ensures found <==> seg.End() < MAX_BYTE_COUNT
    ensures found ==>
      && gaps == Cut(before + after, seg.offset, seg.End()) && gaps != before + after
      && Inv(queue[start := data], readPos, gaps, log + [seg])
  {
    AboveAppend(before, after, -1);
    data, start := rest, from;
    var end := seg.End();
    var gap := after[0];
    if start < gap.start {
      data := data[gap.start - start..];
      start := gap.start;
    }
    var endGap, same, dropped, tail;
    ghost var met;
    found, endGap, same, dropped, tail, queue, met := CloseGaps(after, q0, end, LastEnd(-1, before));
    gaps := [];
    if !found {
      return;
    }
    EndGapOrder(met, tail, LastEnd(-1, before));
    if end > endGap.end {
      data := data[..|data| - (end - endGap.end)];
      end := endGap.end;
    }
    var edited := EditGaps(gap, endGap, same, dropped, start, end);
    gaps := before + (edited + tail);
    assert data == seg.data[start - seg.offset..end - seg.offset];
    FilledInv(q0, queue[start := data], readPos, log, seg, from, before, met, tail, start, end);
    CutChanges(before, met, tail, seg.offset, seg.End());
  }

  /** A frame with data: what it reports, and the gaps and chunks after it. */
  method PushData(seg: Segment, gaps0: seq<Interval>, q0: Chunks, ghost readPos: nat, ghost log: seq<Segment>)
    returns (r: PushResult, gaps: seq<Interval>, queue: Chunks)
    requires Inv(q0, readPos, gaps0, log) && seg.data != []
    ensures r == Outcome(gaps0, seg)
    ensures r.Pushed? || r.Duplicate? ==> gaps == Fill(gaps0, seg) && Inv(queue, readPos, gaps, log + [seg])
  {
    var data, start, end := seg.data, seg.offset, seg.End();
    gaps, queue := gaps0, q0;
    if start in queue {
      var oldData := queue[start];
      ChunkIsReceived(queue, gaps, log, start);
      if |data| <= |oldData| {
        DuplicateInv(queue, readPos, gaps, log, seg, seg.offset + |oldData|);
        return Duplicate, gaps, queue;
      }
      data := data[|oldData|..];
      start := start + |oldData|;
    }

    var search, before, after := FindGap(gaps, start, end);
    match search {
      case AllReceived =>
        CutNothing(before, after, start, end);
        LastGap(before, after);
        DuplicateInv(queue, readPos, gaps, log, seg, start);
        return Duplicate, gaps, queue;
      case Beyond =>
        assert before + after == before;
        return BugNoGap, gaps, queue;
      case Hit =>
        assert before + after == (before + [after[0]]) + after[1..];
        StartsInsideARun(queue, readPos, log, seg.offset, before + [after[0]], after[1..]);
        LastGap(before, after);
        var found, filled, kept, offset, chunk := Place(seg, data, start, before, after, queue, readPos, log);
        if !found {
          return BugNoEndGap, gaps, queue;
        }
        if |filled| > MAX_SORTER_GAPS {
          return TooManyGaps, filled, kept;
        }
        return Pushed, filled, kept[offset := chunk];
    }
  }

  class Sorter {
    var queue: Chunks
    var readPos: nat
    var finalOffset: nat
    var gaps: seq<Interval>
    /** Every successful push, in order. */
    ghost var log: seq<Segment>

    ghost predicate Valid()
      reads this
    {
      Inv(queue, readPos, gaps, log) && finalOffset == FinalOffset(log) && |gaps| <= MAX_SORTER_GAPS
    }

    constructor ()
      ensures Valid() && log == [] && readPos == 0
    {
      queue := map[];
      readPos := 0;
      finalOffset := MAX_BYTE_COUNT;
      gaps := [Interval(0, MAX_BYTE_COUNT)];
      log := [];
      new;
      assert gaps[1..] == [];
    }

    /** Reports a frame that carries nothing new as a duplicate, and fails on too many gaps. */
    method PushImpl(seg: Segment) returns (r: PushResult)
      requires Valid()
      modifies this
      ensures r == Outcome(old(gaps), seg)
      ensures readPos == old(readPos) && log == old(log) + [seg]
      ensures r.Pushed? || r.Duplicate? ==> Valid() && gaps == Fill(old(gaps), seg)
    {
      ghost var log0 := log;
      LogGrows(log, seg);
      log := log + [seg];
      if seg.fin {
        finalOffset := seg.End();
      }
      if seg.data == [] {
        EmptyInv(queue, readPos, gaps, log0, seg);
        return Pushed;
      }

      r, gaps, queue := PushData(seg, gaps, queue, readPos, log0);
    }

    /** Adds a frame. A frame that carries nothing new is accepted silently. */
    method Push(seg: Segment) returns (r: PushResult)
      requires Valid()
      modifies this
      ensures r == (if Outcome(old(gaps), seg).Duplicate? then Pushed else Outcome(old(gaps), seg))
      ensures readPos == old(readPos)
      ensures r.Pushed? ==> Valid() && PushStep(old(log), seg, log) && gaps == Fill(old(gaps), seg)
    {
      r := PushImpl(seg);
      if r.Duplicate? {
        r := Pushed;
      }
    }

    /** Takes the next chunk in stream order, if it has arrived. */
    method Pop() returns (data: seq<byte>, fin: bool)
      requires Valid()
      modifies this
      ensures Valid() && log == old(log) && gaps == old(gaps)
      ensures PopStep(log, old(readPos), data, fin, readPos)
    {
      NextChunk(queue, readPos, gaps, log);
      if readPos !in queue {
        return [], readPos >= finalOffset;
      }
      data := queue[readPos];
      PoppedInv(queue, readPos, gaps, log);
      queue := queue - {readPos};
      readPos := readPos + |data|;
      fin := readPos >= finalOffset;
    }
  }

  lemma EndGapOrder(met: seq<Interval>, tail: seq<Interval>, lo: int)
    requires met != [] && Above(met + tail, lo)
    ensures met[0].start < met[0].end && met[|met| - 1].start < met[|met| - 1].end
    ensures |met| > 1 ==> met[0].end < met[|met| - 1].start
  {
    AboveAppend(met, tail, lo);
    AboveAt(met, lo, |met| - 1);
    if |met| > 1 {
      AboveAt(met[1..], met[0].end, |met| - 2);
    }
  }

  lemma LastGap(a: seq<Interval>, d: seq<Interval>)
    requires Canonical(a + d) && d != []
    ensures d[0].start < d[0].end <= LastEnd(-1, a + d)
  {
    AboveAppend(a, d, -1);
    AboveOrder(d, LastEnd(-1, a));
  }

  /** The chunk at the read position is there exactly when its first byte has arrived. */
  lemma NextChunk(queue: Chunks, readPos: nat, gaps: seq<Interval>, log: seq<Segment>)
    requires Inv(queue, readPos, gaps, log)
    ensures readPos in queue <==> Covered(log, readPos)
    ensures readPos in queue ==> ChunkInv(readPos, queue[readPos], log)
  {
    AboveOrder(gaps, -1);
    if readPos in queue {
      QueuedIsReceived(queue, gaps, log, readPos, readPos);
    } else {
      assert readPos == gaps[0].start;
      assert InGap(gaps, readPos);
    }
  }

  lemma PoppedInv(queue: Chunks, readPos: nat, gaps: seq<Interval>, log: seq<Segment>)
    requires Inv(queue, readPos, gaps, log) && readPos in queue
    ensures Inv(queue - {readPos}, readPos + |queue[readPos]|, gaps, log)
  {
    var q', p' := queue - {readPos}, readPos + |queue[readPos]|;
    QueuedIsReceived(queue, gaps, log, readPos, readPos);
    assert readPos < gaps[0].start by {
      assert readPos == gaps[0].start ==> InGap(gaps, readPos);
    }
    assert ChunkInv(readPos, queue[readPos], log);
    TilesFrame(queue, q', p', gaps[0].start);
    RunsFrame(queue, q', gaps[0].end, gaps[1..], gaps[0].end, LastEnd(gaps[0].end, gaps[1..]));
    forall k | k in q'
      ensures ChunkInv(k, q'[k], log)
    {
      assert ChunkInv(k, queue[k], log);
    }
  }
}
