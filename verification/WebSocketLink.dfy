/** The receive buffer, the loop that delivers frames out of it, and the frame writer. */
module WebSocketLink {
  import opened BitOps
  import opened Records
  import opened WebSocket
  import opened Words

  // ---------------------------------------------------------------------
  // The growing buffer.

  class Iobuf {
    var buf: array<byte>
    var len: nat

    ghost predicate Valid()
      reads this
    {
      len <= buf.Length
    }

    ghost function Contents(): (s: seq<byte>)
      requires Valid()
      reads this, buf
    {
      buf[..len]
    }

    constructor ()
      ensures Valid() && fresh(buf) && Contents() == []
    {
      buf := new byte[0];
      len := 0;
    }

    /** `iobuf_append`: in place when there is room, into a larger block otherwise.  Whether
        the address test finds an overflow and whether a larger block can be had are given. */
    method Append(data: seq<byte>, overflows: bool, granted: bool) returns (n: nat)
      requires Valid()
      modifies this, buf
      ensures Valid() && (buf == old(buf) || fresh(buf))
      ensures n == if overflows || (|data| > old(buf.Length) - old(len) && !granted) then 0 else |data|
      ensures Contents() == if n == 0 then old(Contents()) else old(Contents()) + data
    {
      n := |data|;
      if overflows { return 0; }
      if |data| > 0 {
        if len + |data| > buf.Length {
          if !granted { return 0; }
          var p := new byte[len + |data|](_ => 0);
          Copy(p, 0, buf[..len]);
          buf := p;
        }
        assert buf[..len] == old(Contents());
        Copy(buf, len, data);
        len := len + |data|;
      }
    }

    /** `iobuf_remove`: the rest moves to the front of the same block. */
    method Remove(n: nat)
      requires Valid()
      modifies this`len, buf
      ensures Valid()
      ensures Contents() == if 0 < n <= old(len) then old(Contents())[n..] else old(Contents())
    {
      if 0 < n <= len {
        MoveDown(buf, n, len);
        len := len - n;
      }
    }
  }

  /** `memmove` of the octets from `n` to `end` to the front. */
  method MoveDown(buf: array<byte>, n: nat, end: nat)
    requires 0 < n <= end <= buf.Length
    modifies buf
    ensures buf[..end - n] == old(buf[..end])[n..]
  {
    var i := 0;
    while i < end - n
      invariant 0 <= i <= end - n
      invariant forall k :: 0 <= k < i ==> buf[k] == old(buf[k + n])
      invariant forall k :: i <= k < buf.Length ==> buf[k] == old(buf[k])
    {
      buf[i] := buf[i + n];
      i := i + 1;
    }
    SameMoved(buf[..], old(buf[..]), n, end);
    assert old(buf[..])[..end] == old(buf[..end]) && buf[..][..end - n] == buf[..end - n];
  }

  lemma SameMoved(t: seq<byte>, s: seq<byte>, n: nat, end: nat)
    requires n <= end <= |s| == |t| && forall k :: 0 <= k < end - n ==> t[k] == s[k + n]
    ensures t[..end - n] == s[..end][n..]
  {
  }

  /** The block `b` with the `n` octets after the header unmasked. */
  ghost function Unmasked(b: seq<byte>, header: nat, n: nat): (r: seq<byte>)
    requires 4 <= header && header + n <= |b|
  {
    b[..header] + Masked(b[header..header + n], b[header - 4..header]) + b[header + n..]
  }

  /** The unmasking loop, in place. */
  method Unmask(buf: array<byte>, header: nat, n: nat)
    requires 4 <= header && header + n <= buf.Length
    modifies buf
    ensures buf[..] == Unmasked(old(buf[..]), header, n)
  {
    hide Xor;
    for i := 0 to n
      invariant forall k :: 0 <= k < i ==>
                  buf[header + k] == Xor(old(buf[header + k]), old(buf[header - 4 + k % 4]))
      invariant forall k :: 0 <= k < buf.Length && !(header <= k < header + i) ==> buf[k] == old(buf[k])
    {
      buf[i + header] := Xor(buf[i + header], buf[header - 4 + i % 4]);
    }
  }

  /** Where the frame at the front of the first `len` octets of a block stands once unmasked. */
  lemma OpenedFront(b: seq<byte>, len: nat)
    requires len <= |b| && Buffered(b[..len])
    ensures var s := b[..len];
            var h, n := Announced(s).headerLen, FrameLen(s);
            && 2 + MaskLen(s) <= h <= n <= len
            && var t := if MaskLen(s) > 0 then Unmasked(b, h, n - h) else b;
            && |t| == |b|
            && Front(s) == Delivery(t[0], t[h..n])
            && t[..len][n..] == s[n..]
  {
    var s := b[..len];
    HeaderBounds(s);
    hide Announced, Masked, MaskLen;
    var h, n := Announced(s).headerLen, FrameLen(s);
    Slices(b, len, h, n);
    if MaskLen(s) > 0 {
      Slices(b, len, h - 4, h);
      var data := Masked(b[h..n], b[h - 4..h]);
      Replaced(b, len, h, n, data);
      assert Unmasked(b, h, n - h) == b[..h] + data + b[n..];
    }
  }

  lemma Slices(s: seq<byte>, len: nat, lo: nat, hi: nat)
    requires lo <= hi <= len <= |s|
    ensures s[..len][lo..hi] == s[lo..hi]
  {
  }

  lemma Replaced(b: seq<byte>, len: nat, lo: nat, hi: nat, data: seq<byte>)
    requires 0 < lo <= hi <= len <= |b| && |data| == hi - lo
    ensures var t := b[..lo] + data + b[hi..];
            |t| == |b| && t[0] == b[0] && t[lo..hi] == data && t[..len][hi..] == b[..len][hi..]
  {
  }

  // ---------------------------------------------------------------------
  // The receiver.

  /** Some frame among `ds` made the handler ask for the end of the connection. */
  ghost predicate Refuses(handler: Delivery -> bool, ds: seq<Delivery>) {
    exists d :: d in ds && !handler(d)
  }

  class Receiver {
    const io: Iobuf
    const handler: Delivery -> bool
    var delivered: seq<Delivery>
    var finished: bool

    constructor (handler: Delivery -> bool)
      ensures fresh(io) && fresh(io.buf) && io.Valid() && io.Contents() == []
      ensures this.handler == handler && delivered == [] && !finished
    {
      io := new Iobuf();
      this.handler := handler;
      delivered, finished := [], false;
    }

    /** The header part of `deliver_websocket_frame`. */
    method ReadHeader() returns (maskLen: nat, headerLen: nat, dataLen: nat)
      requires io.Valid()
      ensures Announced(io.Contents()) == Announcement(headerLen, dataLen)
      ensures io.len >= 2 ==> maskLen == MaskLen(io.Contents())
    {
      hide BigEndian, LowBits, HighBit, Wide;
      var buf, bufLen := io.buf, io.len;
      maskLen, headerLen, dataLen := 0, 0, 0;
      ghost var s := io.Contents();
      if bufLen >= 2 {
        var len := LowBits(buf[1]);
        maskLen := if HighBit(buf[1]) != 0 then 4 else 0;
        if len < 126 && bufLen >= maskLen {
          dataLen := len;
          headerLen := 2 + maskLen;
        } else if len == 126 && bufLen >= 4 + maskLen {
          headerLen := 4 + maskLen;
          dataLen := Wide(buf[2], buf[3]);
        } else if bufLen >= 10 + maskLen {
          headerLen := 10 + maskLen;
          assert buf[2..6] == s[2..6] && buf[6..10] == s[6..10];
          dataLen := BigEndian(buf[2..6]) * TWO32 + BigEndian(buf[6..10]);
        }
      }
    }

    /** The frame at the front is unmasked where it stands. */
    method Open(maskLen: nat, headerLen: nat, dataLen: nat) returns (d: Delivery)
      requires io.Valid() && Buffered(io.Contents()) && maskLen == MaskLen(io.Contents())
      requires Announced(io.Contents()) == Announcement(headerLen, dataLen)
      modifies io.buf
      ensures io.Contents()[headerLen + dataLen..] == old(io.Contents())[headerLen + dataLen..]
      ensures d == old(Front(io.Contents()))
    {
      hide Announced, Masked, MaskLen, Front, Unmasked, Buffered;
      var buf := io.buf;
      assert io.Contents() == buf[..][..io.len];
      OpenedFront(buf[..], io.len);
      if maskLen > 0 { Unmask(buf, headerLen, dataLen); }
      assert io.Contents() == buf[..][..io.len];
      assert buf[headerLen..headerLen + dataLen] == buf[..][headerLen..headerLen + dataLen];
      d := Delivery(buf[0], buf[headerLen..headerLen + dataLen]);
    }

    /** `deliver_websocket_frame`. */
    method DeliverFrame() returns (buffered: bool)
      requires io.Valid() && FrameLen(io.Contents()) < TWO64
      modifies this`delivered, this`finished, io`len, io.buf
      ensures io.Valid() && buffered == Buffered(old(io.Contents()))
      ensures !buffered ==>
        io.Contents() == old(io.Contents()) && delivered == old(delivered) && finished == old(finished)
      ensures buffered ==>
        var s := old(io.Contents());
        && io.Contents() == s[FrameLen(s)..]
        && delivered == old(delivered) + [Front(s)]
        && finished == (old(finished) || !handler(Front(s)))
    {
      hide Announced, MaskLen, Front;
      var maskLen, headerLen, dataLen := ReadHeader();
      var frameLen := (headerLen + dataLen) % TWO64;
      buffered := 0 < frameLen <= io.len;
      if buffered {
        HeaderBounds(io.Contents());
        assert frameLen == FrameLen(io.Contents()) == headerLen + dataLen;
        hide FrameLen;
        var d := Open(maskLen, headerLen, dataLen);
        delivered := delivered + [d];
        if !handler(d) { finished := true; }
        io.Remove(frameLen);
      }
    }

    /** The loop that delivers every complete frame in the buffer. */
    method DeliverAll()
      requires io.Valid() && Fits(io.Contents())
      modifies this`delivered, this`finished, io`len, io.buf
      ensures io.Valid()
      ensures var d := Drain(old(io.Contents()));
              && io.Contents() == d.rest
              && delivered == old(delivered) + d.deliveries
              && finished == (old(finished) || Refuses(handler, d.deliveries))
    {
      hide Front, FrameLen, Drain;
      ghost var done: seq<Delivery> := [];
      ghost var all := io.Contents();
      assert [] + Drain(all).deliveries == Drain(all).deliveries;
      var more := true;
      while more
        invariant io.Valid() && Fits(io.Contents())
        invariant delivered == old(delivered) + done
        invariant finished == (old(finished) || Refuses(handler, done))
        invariant Remains(all, done, io.Contents())
        invariant !more ==> !Buffered(io.Contents())
        decreases |io.Contents()|, more
      {
        ghost var s := io.Contents();
        more := DeliverFrame();
        hide Refuses, Remains;
        if more {
          RefusesSnoc(handler, done, Front(s));
          RemainsAfter(all, done, s);
          done := done + [Front(s)];
        }
      }
      RemainsNone(all, done, io.Contents());
    }

    /** One read from the socket. */
    method Receive(chunk: seq<byte>)
      requires io.Valid() && Fits(io.Contents() + chunk)
      modifies this`delivered, this`finished, io, io.buf
      ensures io.Valid() && (io.buf == old(io.buf) || fresh(io.buf))
      ensures var d := Drain(old(io.Contents()) + chunk);
              && io.Contents() == d.rest
              && delivered == old(delivered) + d.deliveries
              && finished == (old(finished) || Refuses(handler, d.deliveries))
    {
      var n := io.Append(chunk, false, true);
      assert old(io.Contents()) + [] == old(io.Contents());
      DeliverAll();
    }

    /** The state after `received` has come in since the start. */
    ghost predicate Holds(received: seq<byte>)
      reads this, io, io.buf
    {
      && io.Valid()
      && delivered == Drain(received).deliveries
      && io.Contents() == Drain(received).rest
      && (finished <==> Refuses(handler, delivered))
    }

    /** One more read leaves the state of the longer stream. */
    method ReceiveNext(chunk: seq<byte>, ghost received: seq<byte>)
      requires Holds(received) && Fits(Drain(received).rest + chunk)
      modifies this`delivered, this`finished, io, io.buf
      ensures Holds(received + chunk) && (io.buf == old(io.buf) || fresh(io.buf))
    {
      hide Drain, Fits, Refuses;
      DrainConcat(received, chunk);
      RefusesConcat(handler, delivered, Drain(Drain(received).rest + chunk).deliveries);
      Receive(chunk);
    }

    /** A whole connection: however the stream `fs` of frames is cut into reads, and
        wherever it stops, exactly the frames that arrived complete have been delivered. */
    method ReceiveStream(chunks: seq<seq<byte>>, ghost fs: seq<Frame>)
      requires io.Valid() && io.Contents() == [] && delivered == [] && !finished
      requires forall f :: f in fs ==> Sized(f)
      requires Concat(chunks) <= EncodeAll(fs)
      modifies this`delivered, this`finished, io, io.buf
      ensures io.Valid()
      ensures delivered == Payloads(fs[..Complete(fs, |Concat(chunks)|)])
      ensures finished <==> Refuses(handler, delivered)
    {
      StreamPrefix(fs, Concat(chunks));
      DrainNothing();
      assert chunks[..|chunks|] == chunks && Concat(chunks[..0]) == [];
      hide Sized, Drain, Fits, Complete, EncodeAll, Payloads, Concat;
      for i := 0 to |chunks|
        invariant Holds(Concat(chunks[..i])) && (io.buf == old(io.buf) || fresh(io.buf))
      {
        NextChunk(chunks, i);
        ReceiveNext(chunks[i], Concat(chunks[..i]));
      }
    }
  }

  lemma NextChunk(chunks: seq<seq<byte>>, i: nat)
    requires i < |chunks| && Fits(Concat(chunks))
    ensures Concat(chunks[..i + 1]) == Concat(chunks[..i]) + chunks[i]
    ensures Fits(Drain(Concat(chunks[..i])).rest + chunks[i])
  {
    hide Fits, Drain, Concat;
    ConcatNext(chunks, i);
    ConcatPrefix(chunks, i + 1);
    var all, upTo := Concat(chunks), Concat(chunks[..i + 1]);
    assert all == upTo + all[|upTo|..];
    FitsPrefix(upTo, all[|upTo|..]);
    FitsPrefix(Concat(chunks[..i]), chunks[i]);
  }

  lemma ConcatNext(chunks: seq<seq<byte>>, i: nat)
    requires i < |chunks|
    ensures Concat(chunks[..i + 1]) == Concat(chunks[..i]) + chunks[i]
  {
    assert chunks[..i + 1][..i] == chunks[..i];
  }

  lemma {:induction false} ConcatPrefix(chunks: seq<seq<byte>>, i: nat)
    requires i <= |chunks|
    ensures Concat(chunks[..i]) <= Concat(chunks)
  {
    if i == |chunks| {
      assert chunks[..i] == chunks;
    } else {
      var n := |chunks| - 1;
      ConcatPrefix(chunks[..n], i);
      assert chunks[..n][..i] == chunks[..i];
    }
  }

  lemma RefusesConcat(handler: Delivery -> bool, a: seq<Delivery>, b: seq<Delivery>)
    ensures Refuses(handler, a + b) <==> Refuses(handler, a) || Refuses(handler, b)
  {
    forall d ensures d in a + b <==> d in a || d in b { }
  }

  lemma RefusesSnoc(handler: Delivery -> bool, a: seq<Delivery>, d: Delivery)
    ensures Refuses(handler, a + [d]) <==> Refuses(handler, a) || !handler(d)
  {
    assert d in a + [d];
    forall e ensures e in a + [d] <==> e in a || e == d { }
  }

  // ---------------------------------------------------------------------
  // The writer.

  datatype Outgoing = Outgoing(opcode: int, data: seq<byte>)

  /** What the writer means to send: one final, unmasked frame in the shortest length form. */
  function Meant(m: Outgoing): (f: Frame)
    ensures f.first >= 128 && f.first % 16 == m.opcode % 16 && f.payload == m.data && f.mask == None
  {
    var n := |m.data|;
    Frame(0x80 + m.opcode % 16, if n < 126 then Short else if n <= 0xFFFF then Medium else Long, None, m.data)
  }

  /** `mg_websocket_write`. */
  method WriteFrame(m: Outgoing) returns (sent: seq<byte>, closing: bool)
    requires |m.data| < TWO64
    ensures sent == if Sized(Meant(m)) then EncodeFrame(Meant(m)) else []
    ensures closing <==> Sized(Meant(m)) && m.opcode == 8
  {
    hide BeBytes, EncodeFrame;
    MeantOctets(m);
    var n := |m.data|;
    if n > TWO64 - 1 - 10 { return [], false; }
    var copy := new byte[if n + 10 > 4192 then n + 10 else 4192](_ => 0);
    var copyLen := 0;
    copy[0] := 0x80 + m.opcode % 16;
    if n < 126 {
      copy[1] := n;
      copyLen := FillAfter(copy, m.data);
    } else if n <= 0xFFFF {
      copy[1] := 126;
      copyLen := FillAfter(copy, Be16(n) + m.data);
    } else {
      copy[1] := 127;
      copyLen := FillAfter(copy, BeBytes(n / TWO32) + BeBytes(n % TWO32) + m.data);
    }
    sent := copy[..copyLen];
    closing := m.opcode == 8;
  }

  /** The writes behind the first two octets, and the length of the whole. */
  method FillAfter(copy: array<byte>, tail: seq<byte>) returns (len: nat)
    requires 2 + |tail| <= copy.Length
    modifies copy
    ensures len == 2 + |tail| && copy[..len] == [old(copy[0]), old(copy[1])] + tail
  {
    Copy(copy, 2, tail);
    len := 2 + |tail|;
  }

  /** The octets of the frame that is meant. */
  function Laid(m: Outgoing): (b: seq<byte>)
    requires |m.data| < TWO64
  {
    var n, first := |m.data|, 0x80 + m.opcode % 16;
    if n < 126 then [first, n] + m.data
    else if n <= 0xFFFF then [first, 126] + (Be16(n) + m.data)
    else [first, 127] + (BeBytes(n / TWO32) + BeBytes(n % TWO32) + m.data)
  }

  lemma MeantOctets(m: Outgoing)
    requires |m.data| < TWO64
    ensures Sized(Meant(m)) <==> |m.data| <= TWO64 - 1 - 10
    ensures Sized(Meant(m)) ==> EncodeFrame(Meant(m)) == Laid(m)
  {
    hide BeBytes, Be16;
  }

  /** Everything written is read back by a receiver: same opcodes, same data, same order. */
  method WriteAll(ms: seq<Outgoing>) returns (sent: seq<byte>)
    requires forall m :: m in ms ==> Sized(Meant(m))
    ensures Fits(sent)
    ensures var d := Drain(sent);
            && d.rest == [] && |d.deliveries| == |ms|
            && forall i :: 0 <= i < |ms| ==> d.deliveries[i] == Delivery(0x80 + ms[i].opcode % 16, ms[i].data)
  {
    hide Sized, Drain, Fits, EncodeFrame;
    sent := [];
    ghost var fs: seq<Frame> := [];
    for i := 0 to |ms|
      invariant |fs| == i && forall k :: 0 <= k < i ==> fs[k] == Meant(ms[k])
      invariant forall f :: f in fs ==> Sized(f)
      invariant sent == EncodeAll(fs)
    {
      SizedData(ms[i]);
      var frame, closing := WriteFrame(ms[i]);
      EncodeAllSnoc(fs, Meant(ms[i]));
      sent := sent + frame;
      fs := fs + [Meant(ms[i])];
    }
    DrainAll(fs);
    FitsAll(fs);
  }

  lemma SizedData(m: Outgoing)
    requires Sized(Meant(m))
    ensures |m.data| < TWO64
  {
  }

  lemma {:induction false} EncodeAllSnoc(fs: seq<Frame>, f: Frame)
    requires (forall g :: g in fs ==> Sized(g)) && Sized(f)
    ensures EncodeAll(fs + [f]) == EncodeAll(fs) + EncodeFrame(f)
  {
    hide Sized, EncodeFrame;
    if fs == [] {
      assert EncodeAll([f]) == EncodeFrame(f) + EncodeAll([]);
    } else {
      assert (fs + [f])[1..] == fs[1..] + [f];
      EncodeAllSnoc(fs[1..], f);
    }
  }
}
