/** Variable-length integers (section 16 of RFC 9000) and big-endian numbers. */
module VarInt {
  import opened Protocol

  datatype WireError = Eof | Invalid

  /** A value read from the front of some bytes, together with the bytes after it. */
  datatype Parsed<+T> = Ok(value: T, rest: seq<byte>) | Bad(error: WireError) {
    predicate IsFailure() { Bad? }

    function PropagateFailure<U>(): Parsed<U>
      requires Bad?
    {
      Bad(error)
    }

    function Extract(): (T, seq<byte>)
      requires Ok?
    {
      (value, rest)
    }
  }

  // ---------------------------------------------------------------- big-endian numbers

  function Pow256(n: nat): nat {
    if n == 0 then 1 else 256 * Pow256(n - 1)
  }

  /** What is left of a number without its low `n` octets. */
  function Top(i: nat, n: nat): nat {
    if n == 0 then i else Top(i / 256, n - 1)
  }

  /** The low `n` octets of a number, most significant first. */
  function Octets(i: nat, n: nat): (b: seq<byte>)
    ensures |b| == n
  {
    if n == 0 then [] else Octets(i / 256, n - 1) + [i % 256]
  }

  /** Reads `n` more octets of the number `acc`. */
  function ReadOctets(b: seq<byte>, n: nat, acc: nat): (r: Parsed<nat>)
    ensures r.Ok? ==> |r.rest| + n == |b|
  {
    if n == 0 then Ok(acc, b)
    else if b == [] then Bad(Eof)
    else ReadOctets(b[1..], n - 1, acc * 256 + b[0])
  }

  lemma {:induction false} ReadAppend(a: seq<byte>, b: seq<byte>, n: nat, acc: nat)
    ensures ReadOctets(a + b, |a| + n, acc) ==
      (var r := ReadOctets(a, |a|, acc); if r.Ok? then ReadOctets(b, n, r.value) else Bad(Eof))
    ensures ReadOctets(a, |a|, acc).Ok?
  {
    if a == [] {
      assert a + b == b;
    } else {
      assert (a + b)[1..] == a[1..] + b;
      ReadAppend(a[1..], b, n, acc * 256 + a[0]);
    }
  }

  /** Reading the low octets after the rest of the number gives the number back. */
  lemma {:induction false} OctetsRoundTrip(i: nat, n: nat, rest: seq<byte>)
    ensures ReadOctets(Octets(i, n) + rest, n, Top(i, n)) == Ok(i, rest)
    decreases n
  {
    if n == 0 {
      assert Octets(i, 0) + rest == rest;
    } else {
      var high, low := Octets(i / 256, n - 1), [i % 256] + rest;
      assert Octets(i, n) + rest == high + low;
      ReadAppend(high, low, 1, Top(i, n));
      OctetsRoundTrip(i / 256, n - 1, low);
      ReadAppend(high, low, 0, Top(i, n));
      assert low[1..] == rest;
    }
  }

  lemma {:induction false} TopBound(i: nat, n: nat, t: nat)
    requires i < t * Pow256(n)
    ensures Top(i, n) < t
    decreases n
  {
    if n > 0 {
      assert t * Pow256(n) == 256 * (t * Pow256(n - 1));
      TopBound(i / 256, n - 1, t);
    }
  }

  lemma {:induction false} ReadBound(b: seq<byte>, n: nat, acc: nat, t: nat)
    requires acc < t && ReadOctets(b, n, acc).Ok?
    ensures ReadOctets(b, n, acc).value < t * Pow256(n)
    decreases n
  {
    if n > 0 {
      assert t * Pow256(n) == (256 * t) * Pow256(n - 1);
      ReadBound(b[1..], n - 1, acc * 256 + b[0], 256 * t);
    }
  }

  lemma Powers()
    ensures Pow256(0) == 1 && Pow256(1) == 0x100 && Pow256(2) == 0x1_0000 && Pow256(3) == 0x100_0000
    ensures Pow256(4) == 0x1_0000_0000 && Pow256(7) == 0x100_0000_0000_0000
  {
    assert Pow256(2) == 0x1_0000;
    assert Pow256(4) == 0x1_0000_0000;
    assert Pow256(6) == 0x1_0000_0000_0000;
  }

  /** A number of `n` octets is read back. */
  lemma UintRoundTrip(i: nat, n: nat, rest: seq<byte>)
    requires i < Pow256(n)
    ensures ReadOctets(Octets(i, n) + rest, n, 0) == Ok(i, rest)
  {
    TopBound(i, n, 1);
    OctetsRoundTrip(i, n, rest);
  }

  function ReadBytes(b: seq<byte>, n: nat): Parsed<seq<byte>> {
    if n <= |b| then Ok(b[..n], b[n..]) else Bad(Eof)
  }

  lemma BytesRoundTrip(a: seq<byte>, rest: seq<byte>)
    ensures ReadBytes(a + rest, |a|) == Ok(a, rest)
  {
  }

  // ---------------------------------------------------------------- variable-length integers

  /** The number of bytes a number takes; numbers above 2^62 - 1 make the source panic. */
  function VarIntLen(i: nat): (n: nat)
    requires i <= MAX_BYTE_COUNT
    ensures 1 <= n <= 8
  {
    if i <= 63 then 1 else if i <= 16383 then 2 else if i <= 1073741823 then 4 else 8
  }

  /** How many bytes follow the first, by its two top bits. */
  function Following(first: byte): (n: nat)
    ensures n < 8
  {
    if first < 64 then 0 else if first < 128 then 1 else if first < 192 then 3 else 7
  }

  /** The first byte: the length in the two top bits, then the six most significant bits. */
  function FirstByte(i: nat): byte
    requires i <= MAX_BYTE_COUNT
  {
    if i <= 63 then i
    else if i <= 16383 then 64 + i / 0x100
    else if i <= 1073741823 then 128 + i / 0x100_0000
    else 192 + i / 0x100_0000_0000_0000
  }

  lemma ShiftsCompose(i: nat)
    ensures i / 0x100 / 0x100 == i / 0x1_0000 && i / 0x1_0000 / 0x100 == i / 0x100_0000
    ensures i / 0x100_0000 / 0x100 == i / 0x1_0000_0000 && i / 0x1_0000_0000 / 0x100 == i / 0x100_0000_0000
    ensures i / 0x100_0000_0000 / 0x100 == i / 0x1_0000_0000_0000
    ensures i / 0x1_0000_0000_0000 / 0x100 == i / 0x100_0000_0000_0000
  {
  }

  lemma TopByShift(i: nat)
    ensures Top(i, 1) == i / 0x100 && Top(i, 3) == i / 0x100_0000 && Top(i, 7) == i / 0x100_0000_0000_0000
  {
    ShiftsCompose(i);
    assert Top(i, 1) == Top(i / 0x100, 0);
    assert Top(i, 3) == Top(i / 0x100, 2) == Top(i / 0x1_0000, 1) == Top(i / 0x100_0000, 0);
    assert Top(i, 7) == Top(i / 0x100, 6) == Top(i / 0x1_0000, 5) == Top(i / 0x100_0000, 4);
    assert Top(i / 0x100_0000, 4) == Top(i / 0x1_0000_0000, 3) == Top(i / 0x100_0000_0000, 2);
    assert Top(i / 0x100_0000_0000, 2) == Top(i / 0x1_0000_0000_0000, 1) == Top(i / 0x100_0000_0000_0000, 0);
  }

  lemma FirstByteIs(i: nat)
    requires i <= MAX_BYTE_COUNT
    ensures Following(FirstByte(i)) == VarIntLen(i) - 1 && FirstByte(i) % 64 == Top(i, VarIntLen(i) - 1)
  {
    TopByShift(i);
  }

  function WriteVarInt(i: nat): (b: seq<byte>)
    requires i <= MAX_BYTE_COUNT
    ensures |b| == VarIntLen(i)
  {
    [FirstByte(i)] + Octets(i, VarIntLen(i) - 1)
  }

  function ReadVarInt(b: seq<byte>): (r: Parsed<nat>)
    ensures r.Ok? ==> |r.rest| < |b|
  {
    if b == [] then Bad(Eof) else ReadOctets(b[1..], Following(b[0]), b[0] % 64)
  }

  /** Reading undoes writing, whatever follows. */
  lemma VarIntRoundTrip(i: nat, rest: seq<byte>)
    requires i <= MAX_BYTE_COUNT
    ensures ReadVarInt(WriteVarInt(i) + rest) == Ok(i, rest)
  {
    FirstByteIs(i);
    var n := VarIntLen(i) - 1;
    var b := WriteVarInt(i) + rest;
    assert b[1..] == Octets(i, n) + rest;
    OctetsRoundTrip(i, n, rest);
  }

  /** Whatever is read fits 62 bits. */
  lemma VarIntFits(b: seq<byte>)
    requires ReadVarInt(b).Ok?
    ensures ReadVarInt(b).value <= MAX_BYTE_COUNT
  {
    Powers();
    ReadBound(b[1..], Following(b[0]), b[0] % 64, 64);
  }

  // ---------------------------------------------------------------- as the frame formats use it

  /** How integers are written and read. The frame formats are defined over such a pair. */
  datatype Codec = Codec(write: nat -> seq<byte>, read: seq<byte> -> Parsed<nat>)

  /** All that the frame formats need: integers are read back, and take the expected space; reading goes forward. */
  ghost predicate Lawful(c: Codec) {
    && (forall b: seq<byte> :: c.read(b).Ok? ==> |c.read(b).rest| < |b|)
    && (forall i: nat, rest: seq<byte> :: i <= MAX_BYTE_COUNT ==> c.read(c.write(i) + rest) == Ok(i, rest))
    && (forall i: nat :: i <= MAX_BYTE_COUNT ==> |c.write(i)| == VarIntLen(i))
  }

  /** The codec of the source. Numbers that do not fit are never written. */
  const VARINT: Codec := Codec((i: nat) => if i <= MAX_BYTE_COUNT then WriteVarInt(i) else [], ReadVarInt)

  lemma VarIntIsLawful()
    ensures Lawful(VARINT)
  {
    forall i: nat, rest: seq<byte> | i <= MAX_BYTE_COUNT
      ensures VARINT.read(VARINT.write(i) + rest) == Ok(i, rest)
    {
      VarIntRoundTrip(i, rest);
    }
  }
}
