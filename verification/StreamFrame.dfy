/** STREAM frames: their size, and how they are cut to fit a packet. */
module StreamFrames {
  import opened Protocol
  import opened VarInt

  datatype StreamFrame = StreamFrame(id: nat, fin: bool, hasLen: bool, offset: nat, data: seq<byte>) {
    /** Its numbers can be written as variable-length integers. */
    predicate Encodable() {
      id <= MAX_BYTE_COUNT && offset + |data| <= MAX_BYTE_COUNT
    }

    function End(): nat { offset + |data| }
  }

  /** The bytes before the length field: type, stream ID and a non-zero offset. */
  function PrefixLen(f: StreamFrame): (n: nat)
    requires f.Encodable()
    ensures 2 <= n <= 17
  {
    1 + VarIntLen(f.id) + (if f.offset != 0 then VarIntLen(f.offset) else 0)
  }

  /** The size of the frame when it carries `n` bytes of data. */
  function SizeWith(f: StreamFrame, n: nat): nat
    requires f.Encodable() && n <= MAX_BYTE_COUNT
  {
    PrefixLen(f) + (if f.hasLen then VarIntLen(n) else 0) + n
  }

  function Length(f: StreamFrame): nat
    requires f.Encodable()
  {
    SizeWith(f, |f.data|)
  }

  /**
   How much data the frame may carry within `maxSize` bytes; 0 if none. No frame with more data
   fits. The frame with this much fits, unless its length field needs more than two bytes: the
   correction for the length field is a single byte.
   */
  function MaxDataLen(f: StreamFrame, maxSize: nat): (n: nat)
    requires f.Encodable() && maxSize <= MAX_BYTE_COUNT
    ensures n <= maxSize
    ensures n < MAX_BYTE_COUNT ==> SizeWith(f, n + 1) > maxSize
    ensures n > 0 ==> (SizeWith(f, n) <= maxSize <==> (f.hasLen ==> maxSize <= PrefixLen(f) + 1 + 16384))
  {
    // pretend that the length field takes one byte
    var headerLen := PrefixLen(f) + if f.hasLen then 1 else 0;
    if headerLen > maxSize then 0
    else
      var n := maxSize - headerLen;
      if f.hasLen && VarIntLen(n) != 1 then n - 1 else n
  }

  /** Above the bound the frame overruns its budget: here by two bytes. */
  lemma MaxDataLenOverrun()
    ensures var f := StreamFrame(0, false, true, 0, []);
            SizeWith(f, MaxDataLen(f, 20000)) == 20002
  {
  }

  datatype SplitResult = Whole | TooSmall | OutOfBounds | Pieces(piece: StreamFrame, rest: StreamFrame)

  /** `f` cut after `n` bytes. */
  function Cut(f: StreamFrame, n: nat): SplitResult
    requires n <= |f.data|
  {
    Pieces(f.(fin := false, data := f.data[..n]), f.(data := f.data[n..], offset := f.offset + n))
  }

  /**
   Cuts the front off a frame so that the front is at most `maxSize` bytes long. Slicing out of
   bounds stands for a budget that all data would fit, were it not for a long length field.
   */
  function MaybeSplitOffFrame(f: StreamFrame, maxSize: nat): (r: SplitResult)
    requires f.Encodable() && maxSize <= MAX_BYTE_COUNT
    ensures r.Whole? <==> maxSize >= Length(f)
    ensures r.TooSmall? <==> maxSize < Length(f) && maxSize <= PrefixLen(f) + (if f.hasLen then 1 else 0)
    ensures r.OutOfBounds? <==> f.hasLen && PrefixLen(f) + 2 + |f.data| < maxSize < Length(f)
  {
    if maxSize >= Length(f) then Whole
    else
      var n := MaxDataLen(f, maxSize);
      if n == 0 then TooSmall
      else if n > |f.data| then OutOfBounds
      else Cut(f, n)
  }

  /** `pieces` carry the bytes of `f` in order, contiguously, with the FIN only on the last. */
  ghost predicate Reassembles(pieces: seq<StreamFrame>, f: StreamFrame) {
    pieces != []
    && pieces[0].id == f.id && pieces[0].offset == f.offset
    && if |pieces| == 1 then pieces[0].data == f.data && pieces[0].fin == f.fin
       else
         && !pieces[0].fin
         && pieces[0].data <= f.data
         && pieces[0].data != []
         && Reassembles(pieces[1..], f.(data := f.data[|pieces[0].data|..], offset := f.offset + |pieces[0].data|))
  }

  lemma WholeReassembles(f: StreamFrame)
    ensures Reassembles([f], f)
  {
  }

  lemma PiecesReassemble(f: StreamFrame, n: nat)
    requires 0 < n <= |f.data|
    ensures Reassembles([Cut(f, n).piece, Cut(f, n).rest], f)
  {
    var piece, rest := Cut(f, n).piece, Cut(f, n).rest;
    WholeReassembles(rest);
    TwoReassemble(piece, rest, f);
  }

  lemma TwoReassemble(piece: StreamFrame, rest: StreamFrame, f: StreamFrame)
    requires piece.id == f.id && piece.offset == f.offset && !piece.fin && piece.data != [] && piece.data <= f.data
    requires Reassembles([rest], f.(data := f.data[|piece.data|..], offset := f.offset + |piece.data|))
    ensures Reassembles([piece, rest], f)
  {
    assert [piece, rest][1..] == [rest];
  }

  /** A split leaves data on both sides, and the front fits; without a length field it fits exactly. */
  lemma SplitFits(f: StreamFrame, maxSize: nat)
    requires f.Encodable() && maxSize <= MAX_BYTE_COUNT && MaybeSplitOffFrame(f, maxSize).Pieces?
    requires f.hasLen ==> maxSize <= PrefixLen(f) + 1 + 16384
    ensures var n := MaxDataLen(f, maxSize);
      && 0 < n < |f.data| && SizeWith(f, n) <= maxSize && (!f.hasLen ==> SizeWith(f, n) == maxSize)
      && MaybeSplitOffFrame(f, maxSize) == Cut(f, n)
  {
    assert SizeWith(f, |f.data|) > maxSize;
  }

  /** A split keeps every byte and the FIN. */
  lemma SplitReassembles(f: StreamFrame, maxSize: nat)
    requires f.Encodable() && maxSize <= MAX_BYTE_COUNT && MaybeSplitOffFrame(f, maxSize).Pieces?
    requires f.hasLen ==> maxSize <= PrefixLen(f) + 1 + 16384
    ensures var s := MaybeSplitOffFrame(f, maxSize);
      && Reassembles([s.piece, s.rest], f)
      && s.rest.data != []
      && s.piece.Encodable() && s.rest.Encodable()
      && Length(s.piece) == SizeWith(f, MaxDataLen(f, maxSize))
  {
    SplitFits(f, maxSize);
    var n := MaxDataLen(f, maxSize);
    PiecesReassemble(f, n);
    PieceSize(f, n);
  }

  lemma PieceSize(f: StreamFrame, n: nat)
    requires f.Encodable() && 0 < n < |f.data|
    ensures Cut(f, n).piece.Encodable() && Length(Cut(f, n).piece) == SizeWith(f, n)
    ensures Cut(f, n).rest.Encodable() && Cut(f, n).rest.data != []
  {
    assert PrefixLen(Cut(f, n).piece) == PrefixLen(f);
  }
}
