/** Packet numbers are truncated on the wire and inferred from the last one seen. */
module PacketNumbers {
  import opened Protocol
  import opened VarInt

  /** How many numbers a truncated packet number of 1, 2 or 4 bytes distinguishes. */
  function Window(len: nat): (w: nat)
    ensures w > 0
  {
    if len == 1 then 0x80 else if len == 2 then 0x4000 else 0x4000_0000
  }

  predicate ValidLen(len: nat) {
    len == 1 || len == 2 || len == 4
  }

  function Delta(a: nat, b: nat): nat {
    if a < b then b - a else a - b
  }

  function ClosestTo(target: nat, a: nat, b: nat): nat {
    if Delta(target, a) < Delta(target, b) then a else b
  }

  /** Addition and subtraction of unsigned 64-bit integers, which wrap around. */
  function Add64(a: nat, b: nat): nat
    requires a < TWO_64 && b < TWO_64
  {
    if a + b < TWO_64 then a + b else a + b - TWO_64
  }

  function Sub64(a: nat, b: nat): nat
    requires a < TWO_64 && b < TWO_64
  {
    if a >= b then a - b else a + TWO_64 - b
  }

  /** The number among those with the given low bits, in the epoch of `last` or a neighbour of it. */
  function Closest(w: nat, epoch: nat, target: nat, wire: nat): nat
    requires epoch < TWO_64 && w < TWO_64 && wire < TWO_64
  {
    ClosestTo(target,
              Add64(epoch, wire),
              ClosestTo(target, Add64(Sub64(epoch, w), wire), Add64(Add64(epoch, w), wire)))
  }

  function InferPacketNumber(len: nat, last: nat, wire: nat): nat
    requires last < TWO_64 && wire < TWO_64
  {
    Closest(Window(len), last - last % Window(len), last + 1, wire)
  }

  /**
   `pn` lies less than half a window from the number expected next; or exactly half a window
   away and not in the epoch of `last`; or further ahead but still in the very first epoch,
   where the candidate below it does not exist.
   */
  predicate Decodable(len: nat, last: nat, pn: nat) {
    var w := Window(len);
    NearEnough(w / 2, pn - (last + 1), pn / w == last / w, pn < w)
  }

  predicate NearEnough(half: nat, distance: int, sameEpoch: bool, firstEpoch: bool) {
    || 0 - half < distance < half
    || ((distance == half || distance == 0 - half) && !sameEpoch)
    || (distance >= half && firstEpoch)
  }

  /** Inference recovers a truncated packet number exactly under `Decodable`. */
  lemma InferIff(len: nat, last: nat, pn: nat)
    requires ValidLen(len) && last <= MAX_BYTE_COUNT && pn <= MAX_BYTE_COUNT
    ensures InferPacketNumber(len, last, pn % Window(len)) == pn <==> Decodable(len, last, pn)
  {
    InferParts(Window(len), Window(len) / 2, last, pn);
  }

  lemma InferParts(w: nat, half: nat, last: nat, pn: nat)
    requires 0 < w == 2 * half <= 0x4000_0000
    requires last <= MAX_BYTE_COUNT && pn <= MAX_BYTE_COUNT
    ensures 0 <= last - last % w
    ensures Closest(w, last - last % w, last + 1, pn % w) == pn <==>
      NearEnough(half, pn - (last + 1), pn / w == last / w, pn < w)
  {
    Epochs(w, last, pn);
    ClosestIff(w, half, last, last % w, pn, pn % w);
  }

  /** How the epochs of two packet numbers lie. */
  lemma Epochs(w: nat, last: nat, pn: nat)
    requires w > 0
    ensures last % w <= last && pn % w <= pn
    ensures Apart(w, last - last % w, pn - pn % w)
    ensures last == last % w || last - last % w >= w
    ensures pn - pn % w == last - last % w <==> pn / w == last / w
    ensures pn == pn % w <==> pn < w
  {
    DivMod(last, w);
    DivMod(pn, w);
    EpochsApart(w, last / w, pn / w);
    FirstEpoch(pn, w);
  }

  lemma FirstEpoch(pn: nat, w: nat)
    requires w > 0
    ensures pn < w <==> pn / w == 0
  {
    DivMod(pn, w);
    Gap(w, 0, pn / w);
  }

  lemma DivMod(x: nat, w: nat)
    requires w > 0
    ensures x == w * (x / w) + x % w && 0 <= w * (x / w) <= x
  {
  }

  /** `InferIff` for a window `w`, where the epoch of `last` begins at `last - r` and that of `pn` at `pn - x`. */
  lemma ClosestIff(w: nat, half: nat, last: nat, r: nat, pn: nat, x: nat)
    requires r < w && r <= last && x < w && x <= pn && 0 < w == 2 * half <= 0x4000_0000
    requires last <= MAX_BYTE_COUNT && pn <= MAX_BYTE_COUNT
    requires last == r || last - r >= w
    requires Apart(w, last - r, pn - x)
    ensures Closest(w, last - r, last + 1, x) == pn <==>
      NearEnough(half, pn - (last + 1), pn - x == last - r, pn == x)
  {
  }

  predicate Apart(w: nat, epoch: nat, start: nat) {
    || start == epoch
    || start == epoch + w
    || epoch == start + w
    || start >= epoch + 2 * w
    || epoch >= start + 2 * w
  }

  /** Two multiples of a window are equal, neighbours, or further apart. */
  lemma EpochsApart(w: nat, i: nat, j: nat)
    requires w > 0
    ensures w * i >= 0 && w * j >= 0 && Apart(w, w * i, w * j)
    ensures w * i == w * j <==> i == j
    ensures w * i == 0 || w * i >= w
    ensures w * j == 0 <==> j == 0
  {
    Gap(w, 0, i);
    Gap(w, 0, j);
    Gap(w, i, j);
    Gap(w, j, i);
  }

  lemma Gap(w: nat, i: nat, j: nat)
    requires w > 0
    ensures w * i >= 0
    ensures i < j ==> w * j == w * i + w || w * j >= w * i + 2 * w
    decreases j
  {
    if i < j {
      assert w * j == w * (j - 1) + w;
      Gap(w, i, j - 1);
    }
  }

  /** The length that the sender chooses, by the oldest number not acknowledged. */
  function LengthForHeader(pn: nat, leastUnacked: nat): (len: nat)
    requires pn < TWO_64 && leastUnacked < TWO_64
    ensures ValidLen(len)
  {
    if Sub64(pn, leastUnacked) < 0x2000 then 2 else 4
  }

  /**
   The chosen length is enough for every receiver that has seen the last acknowledged number
   and nothing newer than this packet, as long as fewer than 2^29 numbers are outstanding.
   */
  lemma ChosenLengthSuffices(pn: nat, leastUnacked: nat, last: nat)
    requires pn <= MAX_BYTE_COUNT && leastUnacked <= pn < leastUnacked + 0x2000_0000
    requires leastUnacked <= last + 1 && last <= pn
    ensures var len := LengthForHeader(pn, leastUnacked);
      InferPacketNumber(len, last, pn % Window(len)) == pn && (len == 2 <==> pn - leastUnacked < 0x2000)
  {
    InferIff(LengthForHeader(pn, leastUnacked), last, pn);
  }

  // ---------------------------------------------------------------- on the wire

  function WritePacketNumber(pn: nat, len: nat, rest: seq<byte>): seq<byte>
    requires ValidLen(len)
  {
    if len == 1 then [pn % 0x80] + rest
    else if len == 2 then [0x80 + pn / 0x100 % 0x40, pn % 0x100] + rest
    else [0xC0 + pn / 0x100_0000 % 0x40, pn / 0x1_0000 % 0x100, pn / 0x100 % 0x100, pn % 0x100] + rest
  }

  datatype Truncated = Truncated(number: nat, len: nat)

  function ReadPacketNumber(b: seq<byte>): Parsed<Truncated> {
    if b == [] then Bad(Eof)
    else if b[0] < 0x80 then Ok(Truncated(b[0], 1), b[1..])
    else if |b| < 2 then Bad(Eof)
    else if b[0] < 0xC0 then Ok(Truncated((b[0] - 0x80) as nat * 0x100 + b[1], 2), b[2..])
    else if |b| < 4 then Bad(Eof)
    else Ok(Truncated((((b[0] - 0xC0) as nat * 0x100 + b[1]) * 0x100 + b[2]) * 0x100 + b[3], 4), b[4..])
  }

  /** What is read back is the number modulo the window of its length. */
  lemma PacketNumberRoundTrip(pn: nat, len: nat, rest: seq<byte>)
    requires ValidLen(len)
    ensures ReadPacketNumber(WritePacketNumber(pn, len, rest)) == Ok(Truncated(pn % Window(len), len), rest)
    ensures |WritePacketNumber(pn, len, rest)| == len + |rest|
  {
    if len == 2 {
      LowBits(pn, 0x40);
    } else if len == 4 {
      LowBits(pn, 0x40_0000);
      LowBits(pn / 0x100, 0x4000);
      LowBits(pn / 0x1_0000, 0x40);
      assert pn / 0x100 / 0x100 == pn / 0x1_0000 && pn / 0x1_0000 / 0x100 == pn / 0x100_0000;
    }
  }

  /** The bits above the lowest byte, modulo a power of two, make up the number with that byte. */
  lemma LowBits(n: nat, m: nat)
    requires m in {0x40, 0x4000, 0x40_0000}
    ensures n % (m * 0x100) == n / 0x100 % m * 0x100 + n % 0x100
  {
    var q, r := n / 0x100 / m, n / 0x100 % m;
    DivMod(n / 0x100, m);
    assert m * 0x100 * q == m * q * 0x100;
    Remainder(n, m * 0x100, q, r * 0x100 + n % 0x100);
  }

  lemma Remainder(n: nat, d: nat, q: nat, r: nat)
    requires r < d && n == d * q + r
    ensures n % d == r
  {
    DivMod(n, d);
    Gap(d, q, n / d);
    Gap(d, n / d, q);
  }
}
