/** ACK frames on the wire (section 19.3 of RFC 9000). */
module AckFrames {
  import opened Protocol
  import opened VarInt
  import opened AckRanges

  /** `delay` is in nanoseconds, a signed 64-bit number. */
  datatype AckFrame = AckFrame(ranges: seq<AckRange>, delay: int)

  const MAX_ACK_FRAME_SIZE: nat := 1000
  /** The unit of the delay on the wire: 2^3 microseconds. */
  const DELAY_UNIT: nat := 8000
  const TWO_63: int := 0x8000_0000_0000_0000

  /** The source divides towards zero and then reads the result as unsigned. */
  function EncodeDelay(delay: int): nat
    requires -TWO_63 <= delay < TWO_63
  {
    if delay >= 0 then delay / DELAY_UNIT
    else if -delay / DELAY_UNIT == 0 then 0
    else TWO_64 - -delay / DELAY_UNIT
  }

  /** Signed 64-bit arithmetic. */
  function Wrap(x: int): int {
    (x + TWO_63) % TWO_64 - TWO_63
  }

  function DecodeDelay(d: nat): int {
    Wrap(d * DELAY_UNIT)
  }

  /** A delay can be written exactly when it is less than one unit below zero; others panic. */
  lemma DelayFitsIff(delay: int)
    requires -TWO_63 <= delay < TWO_63
    ensures EncodeDelay(delay) <= MAX_BYTE_COUNT <==> delay > -8000
  {
  }

  /** Delays are rounded down to the unit; a small negative one becomes zero. */
  lemma DelayRoundTrip(delay: int)
    requires -8000 < delay < TWO_63
    ensures DecodeDelay(EncodeDelay(delay)) == if delay < 0 then 0 else delay / DELAY_UNIT * DELAY_UNIT
  {
  }

  /** What a frame must satisfy so that writing it does not panic. */
  ghost predicate Writable(f: AckFrame) {
    ValidRanges(f.ranges) && LargestAcked(f.ranges) <= MAX_BYTE_COUNT && -8000 < f.delay < TWO_63
  }

  // ---------------------------------------------------------------- ranges

  function Gap(rs: seq<AckRange>, i: nat): int
    requires 0 < i < |rs|
  {
    rs[i - 1].smallest - rs[i].largest - 2
  }

  function Len(rs: seq<AckRange>, i: nat): int
    requires i < |rs|
  {
    rs[i].largest - rs[i].smallest
  }

  /** The numbers of the ranges from `i` on can be written. */
  ghost predicate Encodes(rs: seq<AckRange>) {
    && rs != []
    && (forall i :: 0 < i < |rs| ==> 0 <= Gap(rs, i) <= MAX_BYTE_COUNT)
    && (forall i :: 0 <= i < |rs| ==> 0 <= Len(rs, i) <= MAX_BYTE_COUNT)
  }

  lemma ValidEncodes(rs: seq<AckRange>)
    requires ValidRanges(rs) && LargestAcked(rs) <= MAX_BYTE_COUNT
    ensures Encodes(rs)
  {
    forall i | 0 <= i < |rs|
      ensures rs[i].largest <= MAX_BYTE_COUNT
    {
      assert i > 0 ==> rs[i].largest + 1 < rs[0].smallest;
    }
  }

  function RangeSize(rs: seq<AckRange>, i: nat): (n: nat)
    requires Encodes(rs) && 0 < i < |rs|
    ensures 2 <= n <= 16
  {
    VarIntLen(Gap(rs, i)) + VarIntLen(Len(rs, i))
  }

  /** How many ranges are written, scanning from `i` with `length` bytes used. */
  function Encodable(rs: seq<AckRange>, i: nat, length: nat): nat
    requires Encodes(rs) && 0 < i <= |rs|
    decreases |rs| - i
  {
    if i == |rs| then |rs|
    else if length + RangeSize(rs, i) > MAX_ACK_FRAME_SIZE then i - 1
    else Encodable(rs, i + 1, length + RangeSize(rs, i))
  }

  function BaseSize(f: AckFrame): (n: nat)
    requires Encodes(f.ranges) && f.ranges[0].largest <= MAX_BYTE_COUNT && -8000 < f.delay < TWO_63
    ensures 5 <= n <= 19
  {
    DelayFitsIff(f.delay);
    1 + VarIntLen(LargestAcked(f.ranges)) + VarIntLen(EncodeDelay(f.delay)) + 2
  }

  method NumEncodableAckRanges(f: AckFrame) returns (n: nat)
    requires Encodes(f.ranges) && f.ranges[0].largest <= MAX_BYTE_COUNT && -8000 < f.delay < TWO_63
    ensures n == Encodable(f.ranges, 1, BaseSize(f))
  {
    var length: nat := BaseSize(f);
    var i := 1;
    while i < |f.ranges|
      invariant 0 < i <= |f.ranges|
      invariant Encodable(f.ranges, i, length) == Encodable(f.ranges, 1, BaseSize(f))
    {
      var rangeLen := RangeSize(f.ranges, i);
      if length + rangeLen > MAX_ACK_FRAME_SIZE {
        return i - 1;
      }
      length := length + rangeLen;
      i := i + 1;
    }
    return |f.ranges|;
  }

  /** The bytes of the ranges `i..n`. */
  function RangesSize(rs: seq<AckRange>, i: nat, n: nat): nat
    requires Encodes(rs) && 0 < i && n <= |rs|
    decreases n - i
  {
    if i >= n then 0 else RangeSize(rs, i) + RangesSize(rs, i + 1, n)
  }

  /** At least one range is written, and those that are fit the budget. */
  lemma {:induction false} EncodableFits(rs: seq<AckRange>, i: nat, length: nat)
    requires Encodes(rs) && 0 < i <= |rs|
    requires length <= MAX_ACK_FRAME_SIZE && (i == 1 ==> length + 16 <= MAX_ACK_FRAME_SIZE)
    ensures 1 <= Encodable(rs, i, length) <= |rs|
    ensures length + RangesSize(rs, i, Encodable(rs, i, length)) <= MAX_ACK_FRAME_SIZE
    decreases |rs| - i
  {
    if i < |rs| && length + RangeSize(rs, i) <= MAX_ACK_FRAME_SIZE {
      EncodableFits(rs, i + 1, length + RangeSize(rs, i));
    }
  }

  /** If ranges are dropped, the highest of them would still have fitted, and no more. */
  lemma {:induction false} OneRangeToSpare(rs: seq<AckRange>, i: nat, length: nat)
    requires Encodes(rs) && 0 < i <= |rs| && length <= MAX_ACK_FRAME_SIZE
    ensures var n := Encodable(rs, i, length);
      n < |rs| ==>
        && i <= n + 1 < |rs|
        && length + RangesSize(rs, i, n + 1) <= MAX_ACK_FRAME_SIZE < length + RangesSize(rs, i, n + 2)
    decreases |rs| - i
  {
    if i < |rs| && length + RangeSize(rs, i) <= MAX_ACK_FRAME_SIZE {
      OneRangeToSpare(rs, i + 1, length + RangeSize(rs, i));
    }
  }

  lemma {:induction false} RangesSizeAtLeast(rs: seq<AckRange>, i: nat, n: nat)
    requires Encodes(rs) && 0 < i <= n <= |rs|
    ensures RangesSize(rs, i, n) >= 2 * (n - i)
    decreases n - i
  {
    if i < n {
      RangesSizeAtLeast(rs, i + 1, n);
    }
  }

  // ---------------------------------------------------------------- writing

  /** The ranges `i..n` as written before the bytes `rest`. */
  function WriteRanges(c: Codec, rs: seq<AckRange>, i: nat, n: nat, rest: seq<byte>): seq<byte>
    requires Encodes(rs) && 0 < i && n <= |rs|
    decreases n - i
  {
    if i >= n then rest
    else c.write(Gap(rs, i)) + (c.write(Len(rs, i)) + WriteRanges(c, rs, i + 1, n, rest))
  }

  lemma {:induction false} WriteRangesSize(c: Codec, rs: seq<AckRange>, i: nat, n: nat, rest: seq<byte>)
    requires Lawful(c) && Encodes(rs) && 0 < i && n <= |rs|
    ensures |WriteRanges(c, rs, i, n, rest)| == RangesSize(rs, i, n) + |rest|
    decreases n - i
  {
    if i < n {
      WriteRangesSize(c, rs, i + 1, n, rest);
    }
  }

  /** The number of ranges a frame is written with. */
  ghost function Kept(f: AckFrame): (n: nat)
    requires Writable(f)
    ensures 1 <= n <= |f.ranges| && n <= 502
    ensures Encodes(f.ranges) && BaseSize(f) + RangesSize(f.ranges, 1, n) <= MAX_ACK_FRAME_SIZE
    ensures n == Encodable(f.ranges, 1, BaseSize(f))
  {
    ValidEncodes(f.ranges);
    EncodableFits(f.ranges, 1, BaseSize(f));
    RangesSizeAtLeast(f.ranges, 1, Encodable(f.ranges, 1, BaseSize(f)));
    Encodable(f.ranges, 1, BaseSize(f))
  }

  /** The frame as written before the bytes `rest`. */
  ghost function WriteAck(c: Codec, f: AckFrame, rest: seq<byte>): seq<byte>
    requires Writable(f)
  {
    var n := Kept(f);
    [2] + (c.write(LargestAcked(f.ranges)) + (c.write(EncodeDelay(f.delay)) + (c.write(n - 1)
      + (c.write(Len(f.ranges, 0)) + WriteRanges(c, f.ranges, 1, n, rest)))))
  }

  method WriteRangesLoop(c: Codec, b0: seq<byte>, rs: seq<AckRange>, n: nat) returns (b: seq<byte>)
    requires Encodes(rs) && 0 < n <= |rs|
    ensures b == b0 + WriteRanges(c, rs, 1, n, [])
  {
    b := b0;
    var i := 1;
    while i < n
      invariant 0 < i <= n
      invariant b + WriteRanges(c, rs, i, n, []) == b0 + WriteRanges(c, rs, 1, n, [])
    {
      Regroup(b, c.write(Gap(rs, i)), c.write(Len(rs, i)), WriteRanges(c, rs, i + 1, n, []));
      b := b + c.write(Gap(rs, i)) + c.write(Len(rs, i));
      i := i + 1;
    }
  }

  lemma Regroup(a: seq<byte>, b: seq<byte>, c: seq<byte>, d: seq<byte>)
    ensures (a + b + c) + d == a + (b + (c + d))
  {
  }

  lemma FlattenFrame(t: seq<byte>, a: seq<byte>, b: seq<byte>, c: seq<byte>, d: seq<byte>, e: seq<byte>)
    ensures t + (a + b) + (c + d) + e == t + (a + (b + (c + (d + e))))
  {
    Regroup(t, a + b, c + d, e);
    assert (a + b) + ((c + d) + e) == a + (b + (c + (d + e)));
  }

  /** Appends the frame to an empty buffer. */
  method Write(c: Codec, f: AckFrame) returns (b: seq<byte>)
    requires Writable(f)
    ensures b == WriteAck(c, f, [])
  {
    ghost var kept := Kept(f);
    var largest, delay := c.write(LargestAcked(f.ranges)), c.write(EncodeDelay(f.delay));
    b := [2] + (largest + delay);
    var n := NumEncodableAckRanges(f);
    var count, first := c.write(n - 1), c.write(Len(f.ranges, 0));
    b := b + (count + first);
    FlattenFrame([2], largest, delay, count, first, WriteRanges(c, f.ranges, 1, n, []));
    b := WriteRangesLoop(c, b, f.ranges, n);
  }

  /** The size of the frame, before it is written. */
  method Length(f: AckFrame) returns (length: nat)
    requires Writable(f)
    ensures length <= MAX_ACK_FRAME_SIZE + 8
    ensures forall c: Codec :: Lawful(c) ==> length == |WriteAck(c, f, [])|
  {
    ghost var kept := Kept(f);
    DelayFitsIff(f.delay);
    var n := NumEncodableAckRanges(f);
    length := 1 + VarIntLen(LargestAcked(f.ranges)) + VarIntLen(EncodeDelay(f.delay));
    length := length + VarIntLen(n - 1) + VarIntLen(Len(f.ranges, 0));
    ghost var head := length;
    var i := 1;
    while i < n
      invariant 0 < i <= n
      invariant length + RangesSize(f.ranges, i, n) == head + RangesSize(f.ranges, 1, n)
    {
      length := length + VarIntLen(Gap(f.ranges, i)) + VarIntLen(Len(f.ranges, i));
      i := i + 1;
    }
    forall c: Codec | Lawful(c)
      ensures length == |WriteAck(c, f, [])|
    {
      WriteRangesSize(c, f.ranges, 1, n, []);
    }
  }

  // ---------------------------------------------------------------- how far the limit is exceeded

  /** The two bytes set aside for the number of ranges and for the first range may not be enough. */
  lemma WrittenSize(c: Codec, f: AckFrame)
    requires Lawful(c) && Writable(f)
    ensures var n := Kept(f);
      |WriteAck(c, f, [])| == BaseSize(f) - 2 + VarIntLen(n - 1) + VarIntLen(Len(f.ranges, 0)) + RangesSize(f.ranges, 1, n)
  {
    DelayFitsIff(f.delay);
    WriteRangesSize(c, f.ranges, 1, Kept(f), []);
  }

  /** A frame exceeds the limit exactly if these two numbers need more than what the counted ranges leave. */
  lemma ExceedsIff(c: Codec, f: AckFrame)
    requires Lawful(c) && Writable(f)
    ensures var n := Kept(f);
      |WriteAck(c, f, [])| > MAX_ACK_FRAME_SIZE <==>
        VarIntLen(n - 1) + VarIntLen(Len(f.ranges, 0)) > 2 + (MAX_ACK_FRAME_SIZE - BaseSize(f) - RangesSize(f.ranges, 1, n))
  {
    WrittenSize(c, f);
  }

  lemma {:induction false} RangesSizeSnoc(rs: seq<AckRange>, i: nat, n: nat)
    requires Encodes(rs) && 0 < i <= n < |rs|
    ensures RangesSize(rs, i, n + 1) == RangesSize(rs, i, n) + RangeSize(rs, n)
    decreases n - i
  {
    if i < n {
      RangesSizeSnoc(rs, i + 1, n);
    }
  }

  /** That takes a first range of more than 64 packets, or more than 64 ranges none of which is dropped. */
  lemma ExceedsOnlyIf(c: Codec, f: AckFrame)
    requires Lawful(c) && Writable(f) && |WriteAck(c, f, [])| > MAX_ACK_FRAME_SIZE
    ensures Len(f.ranges, 0) >= 64 || Kept(f) == |f.ranges| > 64
  {
    var n := Kept(f);
    WrittenSize(c, f);
    OneRangeToSpare(f.ranges, 1, BaseSize(f));
    if n < |f.ranges| {
      RangesSizeSnoc(f.ranges, 1, n);
    }
  }

  /** A long first range and 494 single packets, every other one missing. */
  function ManyRanges(): (rs: seq<AckRange>)
    ensures |rs| == 495
  {
    seq(495, i requires 0 <= i < 495 =>
      if i == 0 then AckRange(10000, 10000 + 0x4000_0000) else AckRange(10000 - 2 * i, 10000 - 2 * i))
  }

  lemma ManyRangesAreValid(f: AckFrame)
    requires f == AckFrame(ManyRanges(), 0)
    ensures Writable(f) && Encodes(f.ranges) && BaseSize(f) == 12 && Len(f.ranges, 0) == 0x4000_0000
    ensures forall i :: 0 < i < 495 ==> RangeSize(f.ranges, i) == 2
  {
    assert ValidRanges(f.ranges);
    ValidEncodes(f.ranges);
    forall i | 0 < i < 495
      ensures RangeSize(f.ranges, i) == 2
    {
      assert Gap(f.ranges, i) == 0 && Len(f.ranges, i) == 0;
    }
  }

  lemma {:induction false} TwoBytesEach(rs: seq<AckRange>, i: nat)
    requires Encodes(rs) && 0 < i <= |rs| == 495 && forall k :: 0 < k < 495 ==> RangeSize(rs, k) == 2
    ensures Encodable(rs, i, 10 + 2 * i) == 495 && RangesSize(rs, i, 495) == 990 - 2 * i
    decreases 495 - i
  {
    if i < 495 {
      TwoBytesEach(rs, i + 1);
    }
  }

  /** The bound of 8 bytes above the limit is met. */
  lemma LimitIsExceeded(c: Codec, f: AckFrame)
    requires Lawful(c) && f == AckFrame(ManyRanges(), 0)
    ensures Writable(f) && |WriteAck(c, f, [])| == MAX_ACK_FRAME_SIZE + 8
  {
    ManyRangesAreValid(f);
    TwoBytesEach(f.ranges, 1);
    WrittenSize(c, f);
  }

  // ---------------------------------------------------------------- parsing

  /** Reads the next lower range, below a range that starts at `smallest`. */
  function ReadRange(c: Codec, b: seq<byte>, smallest: nat): (r: Parsed<AckRange>)
    ensures r.Ok? ==> r.value.smallest <= r.value.largest && r.value.largest + 1 < smallest
  {
    var (gap, b1) :- c.read(b);
    if smallest < gap + 2 then Bad(Invalid)
    else
      var largest := smallest - gap - 2;
      var (block, b2) :- c.read(b1);
      if block > largest then Bad(Invalid) else Ok(AckRange(largest - block, largest), b2)
  }

  /** Reads `count` more ranges below `rs`, whose last range starts at `smallest`. */
  function ParseRanges(c: Codec, b: seq<byte>, count: nat, rs: seq<AckRange>, smallest: nat): Parsed<seq<AckRange>>
    decreases count
  {
    if count == 0 then Ok(rs, b)
    else
      var (r, b1) :- ReadRange(c, b, smallest);
      ParseRanges(c, b1, count - 1, rs + [r], r.smallest)
  }

  /** Everything but the type byte, the check of the ranges and the ECN section. */
  function ParseBody(c: Codec, b: seq<byte>): Parsed<AckFrame> {
    var (largest, b1) :- c.read(b);
    var (delay, b2) :- c.read(b1);
    var (count, b3) :- c.read(b2);
    var (block, b4) :- c.read(b3);
    if block > largest then Bad(Invalid)
    else
      var (rs, b5) :- ParseRanges(c, b4, count, [AckRange(largest - block, largest)], largest - block);
      Ok(AckFrame(rs, DecodeDelay(delay)), b5)
  }

  function SkipNumbers(c: Codec, b: seq<byte>, n: nat): Parsed<()>
    decreases n
  {
    if n == 0 then Ok((), b)
    else
      var (_, b1) :- c.read(b);
      SkipNumbers(c, b1, n - 1)
  }

  ghost function ParseAck(c: Codec, b: seq<byte>): Parsed<AckFrame> {
    if b == [] then Bad(Eof)
    else
      var (f, b1) :- ParseBody(c, b[1..]);
      if !ValidRanges(f.ranges) then Bad(Invalid)
      else if b[0] % 2 == 1 then
        var (_, b2) :- SkipNumbers(c, b1, 3);
        Ok(f, b2)
      else Ok(f, b1)
  }

  method ParseRangesLoop(c: Codec, b: seq<byte>, count: nat, rs: seq<AckRange>, smallest: nat)
    returns (r: Parsed<seq<AckRange>>)
    ensures r == ParseRanges(c, b, count, rs, smallest)
  {
    var rest, got, low := b, rs, smallest;
    for i := 0 to count
      invariant ParseRanges(c, rest, count - i, got, low) == ParseRanges(c, b, count, rs, smallest)
    {
      var range := ReadRange(c, rest, low);
      if range.Bad? {
        return Bad(range.error);
      }
      rest, got, low := range.rest, got + [range.value], range.value.smallest;
    }
    return Ok(got, rest);
  }

  method Parse(c: Codec, b: seq<byte>) returns (r: Parsed<AckFrame>)
    ensures r == ParseAck(c, b)
  {
    if b == [] {
      return Bad(Eof);
    }
    var f := ParseFields(c, b[1..]);
    if f.Bad? {
      return Bad(f.error);
    }
    var valid := ValidateAckRanges(f.value.ranges);
    if !valid {
      return Bad(Invalid);
    }
    if b[0] % 2 == 1 {
      var ecn := SkipNumbers(c, f.rest, 3);
      return if ecn.Bad? then Bad(ecn.error) else Ok(f.value, ecn.rest);
    }
    return f;
  }

  method ParseFields(c: Codec, b: seq<byte>) returns (r: Parsed<AckFrame>)
    ensures r == ParseBody(c, b)
  {
    var largest := c.read(b);
    if largest.Bad? {
      return Bad(largest.error);
    }
    var delay := c.read(largest.rest);
    if delay.Bad? {
      return Bad(delay.error);
    }
    var count := c.read(delay.rest);
    if count.Bad? {
      return Bad(count.error);
    }
    var block := c.read(count.rest);
    if block.Bad? {
      return Bad(block.error);
    }
    if block.value > largest.value {
      return Bad(Invalid);
    }
    var smallest := largest.value - block.value;
    var rs := ParseRangesLoop(c, block.rest, count.value, [AckRange(smallest, largest.value)], smallest);
    return if rs.Bad? then Bad(rs.error) else Ok(AckFrame(rs.value, DecodeDelay(delay.value)), rs.rest);
  }

  lemma ValidAppend(rs: seq<AckRange>, r: AckRange)
    requires ValidRanges(rs) && r.smallest <= r.largest && r.largest + 1 < rs[|rs| - 1].smallest
    ensures ValidRanges(rs + [r])
  {
    forall i | 0 <= i < |rs|
      ensures r.largest + 1 < rs[i].smallest
    {
      assert i < |rs| - 1 ==> rs[|rs| - 1].largest + 1 < rs[i].smallest;
    }
  }

  /** The ranges that the parser builds are valid. */
  lemma {:induction false} ParsedRangesAreValid(c: Codec, b: seq<byte>, count: nat, rs: seq<AckRange>, smallest: nat)
    requires ValidRanges(rs) && rs[|rs| - 1].smallest == smallest && ParseRanges(c, b, count, rs, smallest).Ok?
    ensures ValidRanges(ParseRanges(c, b, count, rs, smallest).value)
    decreases count
  {
    if count > 0 {
      var r := ReadRange(c, b, smallest);
      ValidAppend(rs, r.value);
      ParsedRangesAreValid(c, r.rest, count - 1, rs + [r.value], r.value.smallest);
    }
  }

  /** The explicit check of the ranges never fails: whatever passed the arithmetic is valid. */
  lemma ParserCheckIsRedundant(c: Codec, b: seq<byte>)
    requires ParseBody(c, b).Ok?
    ensures ValidRanges(ParseBody(c, b).value.ranges)
  {
    var largest := c.read(b);
    var delay := c.read(largest.rest);
    var count := c.read(delay.rest);
    var block := c.read(count.rest);
    ParsedRangesAreValid(c, block.rest, count.value, [AckRange(largest.value - block.value, largest.value)],
                         largest.value - block.value);
  }

  lemma {:induction false} RangesGoForward(c: Codec, b: seq<byte>, count: nat, rs: seq<AckRange>, smallest: nat)
    requires Lawful(c) && ParseRanges(c, b, count, rs, smallest).Ok?
    ensures |ParseRanges(c, b, count, rs, smallest).rest| <= |b|
    decreases count
  {
    if count > 0 {
      var r := ReadRange(c, b, smallest);
      RangesGoForward(c, r.rest, count - 1, rs + [r.value], r.value.smallest);
    }
  }

  lemma {:induction false} NumbersGoForward(c: Codec, b: seq<byte>, n: nat)
    requires Lawful(c) && SkipNumbers(c, b, n).Ok?
    ensures |SkipNumbers(c, b, n).rest| <= |b|
    decreases n
  {
    if n > 0 {
      NumbersGoForward(c, c.read(b).rest, n - 1);
    }
  }

  lemma BodyGoesForward(c: Codec, b: seq<byte>)
    requires Lawful(c) && ParseBody(c, b).Ok?
    ensures |ParseBody(c, b).rest| <= |b|
  {
    var largest := c.read(b);
    var delay := c.read(largest.rest);
    var count := c.read(delay.rest);
    var block := c.read(count.rest);
    RangesGoForward(c, block.rest, count.value, [AckRange(largest.value - block.value, largest.value)],
                    largest.value - block.value);
  }

  lemma AckGoesForward(c: Codec, b: seq<byte>)
    requires Lawful(c) && ParseAck(c, b).Ok?
    ensures |ParseAck(c, b).rest| < |b|
  {
    BodyGoesForward(c, b[1..]);
    if b[0] % 2 == 1 {
      NumbersGoForward(c, ParseBody(c, b[1..]).rest, 3);
    }
  }

  // ---------------------------------------------------------------- round trip

  lemma {:induction false} RangesRoundTrip(c: Codec, rs: seq<AckRange>, i: nat, n: nat, rest: seq<byte>)
    requires Lawful(c) && Encodes(rs) && 0 < i <= n <= |rs|
    ensures ParseRanges(c, WriteRanges(c, rs, i, n, rest), n - i, rs[..i], rs[i - 1].smallest) == Ok(rs[..n], rest)
    decreases n - i
  {
    if i < n {
      var more := WriteRanges(c, rs, i + 1, n, rest);
      assert ReadRange(c, c.write(Gap(rs, i)) + (c.write(Len(rs, i)) + more), rs[i - 1].smallest) == Ok(rs[i], more);
      assert rs[..i] + [rs[i]] == rs[..i + 1];
      RangesRoundTrip(c, rs, i + 1, n, rest);
    }
  }

  /** `b` starts with the number `x`, and `b1` follows. */
  ghost predicate Starts(c: Codec, b: seq<byte>, x: nat, b1: seq<byte>) {
    c.read(b) == Ok(x, b1)
  }

  lemma BodyOf(c: Codec, b: seq<byte>, b1: seq<byte>, b2: seq<byte>, b3: seq<byte>, b4: seq<byte>,
               first: AckRange, delay: nat, count: nat, rs: seq<AckRange>, rest: seq<byte>)
    requires first.smallest <= first.largest
    requires Starts(c, b, first.largest, b1) && Starts(c, b1, delay, b2) && Starts(c, b2, count, b3)
    requires Starts(c, b3, first.largest - first.smallest, b4)
    requires ParseRanges(c, b4, count, [first], first.smallest) == Ok(rs, rest) && ValidRanges(rs)
    ensures ParseAck(c, [2] + b) == Ok(AckFrame(rs, DecodeDelay(delay)), rest)
  {
    assert ([2] + b)[1..] == b;
    assert AckRange(first.largest - (first.largest - first.smallest), first.largest) == first;
  }

  lemma WrittenParses(c: Codec, rs: seq<AckRange>, n: nat, delay: nat, rest: seq<byte>, b: seq<byte>)
    requires Lawful(c) && Encodes(rs) && rs[0].largest <= MAX_BYTE_COUNT && 0 < n <= |rs| && n <= MAX_BYTE_COUNT
    requires delay <= MAX_BYTE_COUNT && ValidRanges(rs[..n])
    requires b == c.write(rs[0].largest) + (c.write(delay) + (c.write(n - 1) + (c.write(Len(rs, 0)) + WriteRanges(c, rs, 1, n, rest))))
    ensures ParseAck(c, [2] + b) == Ok(AckFrame(rs[..n], DecodeDelay(delay)), rest)
  {
    RangesRoundTrip(c, rs, 1, n, rest);
    assert rs[..1] == [rs[0]];
    var b4 := WriteRanges(c, rs, 1, n, rest);
    var b3 := c.write(Len(rs, 0)) + b4;
    var b2 := c.write(n - 1) + b3;
    var b1 := c.write(delay) + b2;
    BodyOf(c, b, b1, b2, b3, b4, rs[0], delay, n - 1, rs[..n], rest);
  }

  lemma NormalizedIs(f: AckFrame, delay: int)
    requires Writable(f) && delay == EncodeDelay(f.delay)
    ensures 0 <= delay <= MAX_BYTE_COUNT && Normalized(f) == AckFrame(f.ranges[..Kept(f)], DecodeDelay(delay))
    ensures ValidRanges(f.ranges[..Kept(f)])
  {
    DelayFitsIff(f.delay);
    DelayRoundTrip(f.delay);
  }

  /** Parsing a written frame gives its highest ranges, at least one, and the rounded delay. */
  lemma AckRoundTrip(c: Codec, f: AckFrame, rest: seq<byte>)
    requires Lawful(c) && Writable(f)
    ensures ParseAck(c, WriteAck(c, f, rest)) == Ok(Normalized(f), rest)
  {
    var rs, n, delay := f.ranges, Kept(f), EncodeDelay(f.delay);
    NormalizedIs(f, delay);
    var b := c.write(rs[0].largest) + (c.write(delay) + (c.write(n - 1) + (c.write(Len(rs, 0)) + WriteRanges(c, rs, 1, n, rest))));
    WrittenParses(c, rs, n, delay, rest, b);
  }

  /** What the receiver sees of a frame. */
  ghost function Normalized(f: AckFrame): AckFrame
    requires Writable(f)
  {
    AckFrame(f.ranges[..Kept(f)], if f.delay < 0 then 0 else f.delay / DELAY_UNIT * DELAY_UNIT)
  }
}
