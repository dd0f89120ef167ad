/** The sending half of a stream: writes are cut into STREAM frames. */
module SendStreams {
  import opened Protocol
  import opened StreamFrames

  /** What a pop may produce, over everything that was ever written. */
  datatype SenderView = SenderView(written: seq<byte>, sent: nat, finished: bool, finSent: bool)

  ghost predicate SenderInv(v: SenderView) {
    && v.sent <= |v.written|
    && (v.finSent ==> v.finished && v.sent == |v.written|)
  }

  /** A frame takes the next bytes; the FIN goes with or after the last byte, and only once. */
  ghost predicate FramePopped(v: SenderView, f: StreamFrame, v': SenderView) {
    && f.offset == v.sent
    && v.sent + |f.data| <= |v.written|
    && f.data == v.written[v.sent..v.sent + |f.data|]
    && (f.fin <==> v.finished && !v.finSent && v.sent + |f.data| == |v.written|)
    && (f.data != [] || f.fin)
    && v' == v.(sent := v.sent + |f.data|, finSent := v.finSent || f.fin)
  }

  lemma FramePoppedKeepsInv(v: SenderView, f: StreamFrame, v': SenderView)
    requires SenderInv(v) && FramePopped(v, f, v')
    ensures SenderInv(v') && !v.finSent
  {
  }

  /** Replacing the end of `s` keeps all of `s` exactly if that end is a prefix of the new one. */
  lemma ReplacedIff(s: seq<byte>, n: nat, p: seq<byte>)
    requires n <= |s|
    ensures s <= s[..n] + p <==> s[n..] <= p
  {
    var r := s[..n] + p;
    assert s == s[..n] + s[n..];
    if s <= r {
      assert s[n..] == r[n..|s|];
      assert r[n..] == p;
    }
  }

  class SendStream {
    const id: nat
    var writeOffset: nat
    var finishedWriting: bool
    var finSent: bool
    /** `None` when nothing waits to be sent. */
    var dataForWriting: Option<seq<byte>>
    /** Every byte handed over by `Write`. */
    ghost var written: seq<byte>

    ghost function View(): SenderView
      reads this
    {
      SenderView(written, writeOffset, finishedWriting, finSent)
    }

    ghost predicate Valid()
      reads this
    {
      && SenderInv(View())
      && id <= MAX_BYTE_COUNT
      && |written| <= MAX_BYTE_COUNT
      && match dataForWriting
         case None => writeOffset == |written|
         case Some(d) => d != [] && d == written[writeOffset..] && !finSent
    }

    constructor (id: nat)
      requires id <= MAX_BYTE_COUNT
      ensures Valid() && View() == SenderView([], 0, false, false)
    {
      this.id := id;
      writeOffset, finishedWriting, finSent := 0, false, false;
      dataForWriting := None;
      written := [];
    }

    /**
     Hands data over for sending. `Write` returns when its data is gone; a second one that is called
     while data still waits replaces what waits.
     */
    method Write(p: seq<byte>) returns (ok: bool)
      requires Valid() && writeOffset + |p| <= MAX_BYTE_COUNT
      modifies this
      ensures Valid()
      ensures ok <==> !old(finishedWriting)
      ensures View() == if ok && p != [] then old(View()).(written := old(written)[..old(writeOffset)] + p) else old(View())
      ensures old(dataForWriting).None? && ok ==> written == old(written) + p
      ensures old(dataForWriting).Some? && ok && p != [] ==> (old(written) <= written <==> old(dataForWriting).value <= p)
    {
      if finishedWriting {
        return false;
      }
      if p == [] {
        return true;
      }
      ReplacedIff(written, writeOffset, p);
      dataForWriting := Some(p);
      written := written[..writeOffset] + p;
      return true;
    }

    method Close()
      requires Valid()
      modifies this
      ensures Valid() && View() == old(View()).(finished := true)
    {
      finishedWriting := true;
    }

    /** Takes at most `maxBytes` bytes, no more than flow control (`window`) allows. */
    method GetDataForWriting(maxBytes: nat, window: nat) returns (data: seq<byte>, fin: bool)
      requires Valid() && maxBytes > 0
      modifies this
      ensures finSent == old(finSent) && finishedWriting == old(finishedWriting) && written == old(written)
      ensures writeOffset == old(writeOffset) + |data| <= |written|
      ensures data == written[old(writeOffset)..writeOffset] && |data| <= maxBytes
      ensures |data| == Min(|written| - old(writeOffset), Min(maxBytes, window))
      ensures fin <==> finishedWriting && !finSent && writeOffset == |written|
      ensures dataForWriting == if writeOffset == |written| then None else Some(written[writeOffset..])
    {
      if dataForWriting.None? {
        return [], finishedWriting && !finSent;
      }
      var n := Min(maxBytes, window);
      if n == 0 {
        return [], false;
      }
      var d := dataForWriting.value;
      if |d| > n {
        data := d[..n];
        dataForWriting := Some(d[n..]);
      } else {
        data := d;
        dataForWriting := None;
      }
      writeOffset := writeOffset + |data|;
      fin := finishedWriting && dataForWriting.None? && !finSent;
    }

    /**
     The next STREAM frame, at most `maxBytes` long, or none. `newlyBlocked` is the flow
     controller's answer when data waits and no credit is left.
     */
    method PopStreamFrame(maxBytes: nat, window: nat, newlyBlocked: bool)
      returns (completed: bool, frame: Option<StreamFrame>, hasMore: bool)
      requires Valid() && maxBytes <= MAX_BYTE_COUNT
      modifies this
      ensures Valid()
      ensures match frame
              case None =>
                && !completed && View() == old(View())
                && (hasMore <==>
                      && writeOffset < |written|
                      && (MaxDataLen(StreamFrame(id, false, true, writeOffset, []), maxBytes) == 0 || !newlyBlocked))
              case Some(f) =>
                && f.id == id && f.hasLen && f.Encodable()
                && FramePopped(old(View()), f, View())
                && completed == f.fin
                && |f.data| == Min(|written| - old(writeOffset),
                                   Min(MaxDataLen(StreamFrame(id, false, true, old(writeOffset), []), maxBytes), window))
                && (maxBytes <= 16384 ==> Length(f) <= maxBytes)
                && (hasMore <==> writeOffset < |written|)
      ensures frame.None? <==>
        || MaxDataLen(StreamFrame(id, false, true, old(writeOffset), []), maxBytes) == 0
        || (if old(writeOffset) < |written| then window == 0 else !finishedWriting || old(finSent))
    {
      var empty := StreamFrame(id, false, true, writeOffset, []);
      var maxDataLen := MaxDataLen(empty, maxBytes);
      if maxDataLen == 0 {
        return false, None, dataForWriting.Some?;
      }
      var data, fin := GetDataForWriting(maxDataLen, window);
      if data == [] && !fin {
        if dataForWriting.None? {
          return false, None, false;
        }
        return false, None, !newlyBlocked;
      }
      if fin {
        finSent := true;
      }
      var f := empty.(data := data, fin := fin);
      return fin, Some(f), dataForWriting.Some?;
    }
  }
}
