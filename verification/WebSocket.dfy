/** WebSocket framing: section 5.2 of RFC 6455, the receive loop over an in-place
    buffer, and the writer. */
module WebSocket {
  import opened BitOps
  import opened Words
  import Records

  // ---------------------------------------------------------------------
  // Masking.

  lemma OctetIsEightBits()
    ensures Pow2(8) == 0x100
  {
  }

  /** Exclusive or of two octets. */
  function Xor(a: byte, b: byte): (r: byte) {
    OctetIsEightBits();
    XorBits(a, b, 8)
  }

  lemma XorTwice(a: byte, k: byte)
    ensures Xor(Xor(a, k), k) == a
  {
    OctetIsEightBits();
    XorBitsTwice(a, k, 8);
  }

  type Mask = m: seq<byte> | |m| == 4 witness [0, 0, 0, 0]

  function Masked(data: seq<byte>, mask: Mask): (r: seq<byte>)
    ensures |r| == |data|
  {
    seq(|data|, i requires 0 <= i < |data| => Xor(data[i], mask[i % 4]))
  }

  lemma MaskedTwice(data: seq<byte>, mask: Mask)
    ensures Masked(Masked(data, mask), mask) == data
  {
    hide Xor;
    forall i | 0 <= i < |data| ensures Masked(Masked(data, mask), mask)[i] == data[i] {
      XorTwice(data[i], mask[i % 4]);
    }
  }

  // ---------------------------------------------------------------------
  // Frames as RFC 6455 lays them out.

  /** Which of the three length forms a frame uses. */
  datatype Form = Short | Medium | Long

  datatype Frame = Frame(first: byte, form: Form, mask: Records.Option<Mask>, payload: seq<byte>)

  /** The payload fits its length form, and the whole frame a 64-bit size. */
  predicate Sized(f: Frame) {
    match f.form
    case Short => |f.payload| < 126
    case Medium => |f.payload| <= 0xFFFF
    case Long => |f.payload| + (if f.mask.Some? then 14 else 10) < TWO64
  }

  function Be16(n: nat): (b: seq<byte>)
    requires n <= 0xFFFF
    ensures |b| == 2
  {
    [n / 0x100, n % 0x100]
  }

  function Be64(n: nat): (b: seq<byte>)
    requires n < TWO64
    ensures |b| == 8
  {
    BeBytes(n / TWO32) + BeBytes(n % TWO32)
  }

  function Header(f: Frame): (h: seq<byte>)
    requires Sized(f)
    ensures |h| >= 2
  {
    var flag := if f.mask.Some? then 128 else 0;
    var n := |f.payload|;
    var lengths := match f.form
      case Short => [f.first, flag + n]
      case Medium => [f.first, flag + 126] + Be16(n)
      case Long => [f.first, flag + 127] + Be64(n);
    lengths + if f.mask.Some? then f.mask.value else []
  }

  function EncodeFrame(f: Frame): (b: seq<byte>)
    requires Sized(f)
  {
    Header(f) + if f.mask.Some? then Masked(f.payload, f.mask.value) else f.payload
  }

  // ---------------------------------------------------------------------
  // What the receiver reads off the front of its buffer.

  datatype Announcement = Announcement(headerLen: nat, dataLen: nat)

  function MaskLen(buf: seq<byte>): (n: nat)
    requires |buf| >= 2
    ensures n == 0 || n == 4
  {
    if buf[1] >= 128 then 4 else 0
  }

  /** The header and data lengths; zero and zero while too little has arrived. */
  function Announced(buf: seq<byte>): (a: Announcement) {
    if |buf| < 2 then Announcement(0, 0)
    else
      var len, m := buf[1] % 128, MaskLen(buf);
      if len < 126 && |buf| >= m then Announcement(2 + m, len)
      else if len == 126 && |buf| >= 4 + m then Announcement(4 + m, buf[2] as int * 0x100 + buf[3] as int)
      else if |buf| >= 10 + m then
        Announcement(10 + m, BigEndian(buf[2..6]) * TWO32 + BigEndian(buf[6..10]))
      else Announcement(0, 0)
  }

  /** The announced frame length, which the source keeps in 64 bits. */
  function FrameLen(buf: seq<byte>): (n: nat) {
    Announced(buf).headerLen + Announced(buf).dataLen
  }

  predicate Buffered(buf: seq<byte>) { 0 < FrameLen(buf) <= |buf| }

  datatype Delivery = Delivery(bits: byte, content: seq<byte>)

  /** The frame at the front of the buffer, unmasked. */
  function Front(buf: seq<byte>): (d: Delivery)
    requires Buffered(buf)
  {
    var h := Announced(buf).headerLen;
    var data := buf[h..FrameLen(buf)];
    Delivery(buf[0], if MaskLen(buf) > 0 then Masked(data, buf[h - 4..h]) else data)
  }

  // ---------------------------------------------------------------------
  // Reading a frame that was laid out as above.

  /** Once the header has arrived it announces exactly the frame, whatever follows. */
  lemma AnnouncedOf(f: Frame, buf: seq<byte>)
    requires Sized(f) && Header(f) <= buf
    ensures Announced(buf) == Announcement(|Header(f)|, |f.payload|)
    ensures MaskLen(buf) == if f.mask.Some? then 4 else 0
  {
    match f.form {
      case Short => AnnouncedShort(f, buf);
      case Medium => AnnouncedMedium(f, buf);
      case Long => AnnouncedLong(f, buf);
    }
  }

  lemma AnnouncedShort(f: Frame, buf: seq<byte>)
    requires Sized(f) && Header(f) <= buf && f.form == Short
    ensures Announced(buf) == Announcement(|Header(f)|, |f.payload|)
    ensures MaskLen(buf) == if f.mask.Some? then 4 else 0
  {
    hide BeBytes, BigEndian;
    assert buf[1] == Header(f)[1];
  }

  lemma AnnouncedMedium(f: Frame, buf: seq<byte>)
    requires Sized(f) && Header(f) <= buf && f.form == Medium
    ensures Announced(buf) == Announcement(|Header(f)|, |f.payload|)
    ensures MaskLen(buf) == if f.mask.Some? then 4 else 0
  {
    hide BeBytes, BigEndian;
    var h, n := Header(f), |f.payload|;
    assert buf[1] == h[1] && buf[2] == h[2] && buf[3] == h[3];
    assert h[2] == Be16(n)[0] && h[3] == Be16(n)[1];
  }

  lemma AnnouncedLong(f: Frame, buf: seq<byte>)
    requires Sized(f) && Header(f) <= buf && f.form == Long
    ensures Announced(buf) == Announcement(|Header(f)|, |f.payload|)
    ensures MaskLen(buf) == if f.mask.Some? then 4 else 0
  {
    hide BeBytes, BigEndian;
    var h, n := Header(f), |f.payload|;
    var flag := if f.mask.Some? then 128 else 0;
    var front := [f.first, flag + 127] + Be64(n);
    assert h == front + if f.mask.Some? then f.mask.value else [];
    assert front <= h && front <= buf;
    assert buf[1] == front[1];
    LongLength(f.first, flag + 127, n, front);
    assert buf[2..6] == front[2..6] && buf[6..10] == front[6..10];
  }

  lemma LongLength(first: byte, second: byte, n: nat, front: seq<byte>)
    requires n < TWO64 && front == [first, second] + Be64(n)
    ensures BigEndian(front[2..6]) * TWO32 + BigEndian(front[6..10]) == n
  {
    hide BeBytes, BigEndian;
    assert front[2..6] == BeBytes(n / TWO32) && front[6..10] == BeBytes(n % TWO32);
    BeRoundTrip(n / TWO32);
    BeRoundTrip(n % TWO32);
  }

  lemma BeRoundTrip(w: uint32)
    ensures BigEndian(BeBytes(w)) == w
  {
    WordRoundTrips(w);
  }

  /** A complete frame is read whole and unmasked, whatever follows it. */
  lemma FrontOf(f: Frame, rest: seq<byte>)
    requires Sized(f)
    ensures var buf := EncodeFrame(f) + rest;
            && FrameLen(buf) == |EncodeFrame(f)|
            && Buffered(buf)
            && Front(buf) == Delivery(f.first, f.payload)
            && buf[FrameLen(buf)..] == rest
  {
    hide Masked, Announced, MaskLen, Header;
    var head, body := Header(f), if f.mask.Some? then Masked(f.payload, f.mask.value) else f.payload;
    var buf, h := head + body + rest, |head|;
    assert EncodeFrame(f) + rest == buf;
    AnnouncedOf(f, buf);
    HeaderEnds(f);
    Parts(head, body, rest);
    if f.mask.Some? { MaskedTwice(f.payload, f.mask.value); }
  }

  lemma Parts(head: seq<byte>, body: seq<byte>, rest: seq<byte>)
    requires |head| >= 2
    ensures var buf, h := head + body + rest, |head|;
            && buf[0] == head[0] && buf[h..h + |body|] == body && buf[h + |body|..] == rest
            && (h >= 4 ==> buf[h - 4..h] == head[h - 4..]) && head <= buf
  {
  }

  lemma HeaderEnds(f: Frame)
    requires Sized(f)
    ensures var h := Header(f);
            h[0] == f.first && (f.mask.Some? ==> |h| >= 6 && h[|h| - 4..] == f.mask.value)
  {
    hide Be16, Be64;
  }

  /** No proper prefix of a frame is taken for a frame. */
  lemma PartialFrame(f: Frame, k: nat)
    requires Sized(f) && k < |EncodeFrame(f)|
    ensures !Buffered(EncodeFrame(f)[..k])
    ensures FrameLen(EncodeFrame(f)[..k]) < TWO64
  {
    hide Masked, BeBytes, BigEndian;
    var buf, h := EncodeFrame(f)[..k], Header(f);
    if k >= |h| {
      assert buf[..|h|] == h;
      AnnouncedOf(f, buf);
    } else if k >= 2 {
      assert buf[1] == h[1];
    }
  }

  /** What has been announced stays announced when more arrives. */
  lemma AnnouncedIsStable(a: seq<byte>, b: seq<byte>)
    requires Announced(a).headerLen > 0
    ensures Announced(a + b) == Announced(a) && MaskLen(a + b) == MaskLen(a)
  {
    hide BigEndian;
    var ab := a + b;
    assert ab[0] == a[0] && ab[1] == a[1];
    if |a| >= 10 { assert ab[2..6] == a[2..6] && ab[6..10] == a[6..10]; }
  }

  /** What has been read stays read when more arrives. */
  lemma FrontIsStable(a: seq<byte>, b: seq<byte>)
    requires Buffered(a)
    ensures FrameLen(a + b) == FrameLen(a) && Buffered(a + b) && Front(a + b) == Front(a)
    ensures (a + b)[FrameLen(a)..] == a[FrameLen(a)..] + b
  {
    HeaderBounds(a);
    AnnouncedIsStable(a, b);
    hide Masked, Announced, MaskLen;
    var h, n := Announced(a).headerLen, FrameLen(a);
    KeepSlice(a, b, h, n);
    if MaskLen(a) > 0 { KeepSlice(a, b, h - 4, h); }
  }

  lemma KeepSlice(a: seq<byte>, b: seq<byte>, lo: nat, hi: nat)
    requires lo <= hi <= |a| && 0 < hi
    ensures (a + b)[0] == a[0] && (a + b)[lo..hi] == a[lo..hi] && (a + b)[hi..] == a[hi..] + b
  {
  }

  lemma HeaderBounds(a: seq<byte>)
    requires Buffered(a)
    ensures |a| >= 2 && 2 + MaskLen(a) <= Announced(a).headerLen <= FrameLen(a)
  {
    hide BigEndian;
  }

  // ---------------------------------------------------------------------
  // Streams.

  datatype Drained = Drained(deliveries: seq<Delivery>, rest: seq<byte>)

  /** All frames at the front of a buffer, and what remains. */
  function Drain(buf: seq<byte>): (d: Drained)
    decreases |buf|
  {
    if Buffered(buf) then
      var d := Drain(buf[FrameLen(buf)..]);
      Drained([Front(buf)] + d.deliveries, d.rest)
    else Drained([], buf)
  }

  /** Draining can be cut at any point of the stream. */
  lemma {:induction false} DrainConcat(a: seq<byte>, b: seq<byte>)
    ensures var d, e := Drain(a), Drain(Drain(a).rest + b);
            Drain(a + b) == Drained(d.deliveries + e.deliveries, e.rest)
    decreases |a|
  {
    hide Front, FrameLen;
    if Buffered(a) {
      FrontIsStable(a, b);
      var tail := a[FrameLen(a)..];
      DrainConcat(tail, b);
      var d, e := Drain(tail), Drain(Drain(tail).rest + b);
      assert [Front(a)] + (d.deliveries + e.deliveries) == ([Front(a)] + d.deliveries) + e.deliveries;
    } else {
      assert [] + Drain(a + b).deliveries == Drain(a + b).deliveries;
    }
  }

  /** With `done` already delivered from `all`, the octets `s` are what is left to read. */
  ghost predicate Remains(all: seq<byte>, done: seq<Delivery>, s: seq<byte>) {
    Drain(all) == Drained(done + Drain(s).deliveries, Drain(s).rest)
  }

  lemma RemainsAfter(all: seq<byte>, done: seq<Delivery>, s: seq<byte>)
    requires Remains(all, done, s) && Buffered(s)
    ensures Remains(all, done + [Front(s)], s[FrameLen(s)..])
  {
    hide Front, FrameLen;
    var d := Drain(s[FrameLen(s)..]);
    assert done + ([Front(s)] + d.deliveries) == (done + [Front(s)]) + d.deliveries;
  }

  lemma RemainsNone(all: seq<byte>, done: seq<Delivery>, s: seq<byte>)
    requires Remains(all, done, s) && !Buffered(s)
    ensures Drain(all) == Drained(done, s)
  {
    assert done + [] == done;
  }

  function EncodeAll(fs: seq<Frame>): (b: seq<byte>)
    requires forall f :: f in fs ==> Sized(f)
  {
    if fs == [] then [] else EncodeFrame(fs[0]) + EncodeAll(fs[1..])
  }

  function Payloads(fs: seq<Frame>): (ds: seq<Delivery>)
    ensures |ds| == |fs|
  {
    seq(|fs|, i requires 0 <= i < |fs| => Delivery(fs[i].first, fs[i].payload))
  }

  /** How many frames are complete within the first `k` octets. */
  function Complete(fs: seq<Frame>, k: nat): (n: nat)
    requires forall f :: f in fs ==> Sized(f)
    ensures n <= |fs|
  {
    if fs == [] || k < |EncodeFrame(fs[0])| then 0
    else 1 + Complete(fs[1..], k - |EncodeFrame(fs[0])|)
  }

  lemma DrainFirst(f: Frame, tail: seq<byte>)
    requires Sized(f)
    ensures var d := Drain(tail);
            Drain(EncodeFrame(f) + tail) == Drained([Delivery(f.first, f.payload)] + d.deliveries, d.rest)
  {
    hide EncodeFrame, Front, FrameLen, Sized;
    FrontOf(f, tail);
  }

  lemma DrainPartial(f: Frame, k: nat)
    requires Sized(f) && k < |EncodeFrame(f)|
    ensures Drain(EncodeFrame(f)[..k]) == Drained([], EncodeFrame(f)[..k])
  {
    hide EncodeFrame, Sized;
    PartialFrame(f, k);
  }

  lemma DrainNothing()
    ensures Drain([]) == Drained([], [])
  {
    NothingBuffered();
  }

  /** After any first part of a stream of frames, exactly the complete frames have been
      read, in order, and the octets of the partial one remain. */
  lemma {:induction false} DrainPrefix(fs: seq<Frame>, k: nat)
    requires (forall f :: f in fs ==> Sized(f)) && k <= |EncodeAll(fs)|
    ensures var n, d := Complete(fs, k), Drain(EncodeAll(fs)[..k]);
            && d.deliveries == Payloads(fs[..n])
            && EncodeAll(fs[..n]) + d.rest == EncodeAll(fs)[..k]
  {
    hide EncodeFrame, Sized, Payloads, Drain;
    var buf := EncodeAll(fs)[..k];
    if fs == [] {
      DrainNothing();
    } else if k < |EncodeFrame(fs[0])| {
      assert buf == EncodeFrame(fs[0])[..k];
      DrainPartial(fs[0], k);
      assert fs[..0] == [] && Payloads([]) == [];
    } else {
      var first := EncodeFrame(fs[0]);
      var n := k - |first|;
      var tail, c := EncodeAll(fs[1..])[..n], Complete(fs[1..], n);
      assert buf == first + tail;
      DrainFirst(fs[0], tail);
      DrainPrefix(fs[1..], n);
      TakeOne(fs, c);
      hide EncodeAll, Complete;
      var done, rest := EncodeAll(fs[1..][..c]), Drain(tail).rest;
      assert first + (done + rest) == (first + done) + rest;
    }
  }

  lemma TakeOne(fs: seq<Frame>, c: nat)
    requires (forall f :: f in fs ==> Sized(f)) && c < |fs|
    ensures EncodeAll(fs[..1 + c]) == EncodeFrame(fs[0]) + EncodeAll(fs[1..][..c])
    ensures Payloads(fs[..1 + c]) == [Delivery(fs[0].first, fs[0].payload)] + Payloads(fs[1..][..c])
  {
    hide EncodeFrame, Sized;
    assert fs[..1 + c][1..] == fs[1..][..c];
  }

  lemma NothingBuffered()
    ensures FrameLen([]) == 0 && !Buffered([])
  {
  }

  /** A whole stream is read whole: every payload, in order, and nothing left over. */
  lemma DrainAll(fs: seq<Frame>)
    requires forall f :: f in fs ==> Sized(f)
    ensures Drain(EncodeAll(fs)) == Drained(Payloads(fs), [])
  {
    hide EncodeFrame, Drain, Sized;
    var all := EncodeAll(fs);
    DrainPrefix(fs, |all|);
    CompleteAll(fs);
    assert all[..|all|] == all && fs[..|fs|] == fs;
  }

  lemma {:induction false} CompleteAll(fs: seq<Frame>)
    requires forall f :: f in fs ==> Sized(f)
    ensures Complete(fs, |EncodeAll(fs)|) == |fs|
  {
    hide EncodeFrame, Sized;
    if fs != [] { CompleteAll(fs[1..]); }
  }

  /** Every frame of the stream announces a size that 64 bits can hold. */
  predicate Fits(buf: seq<byte>)
    decreases |buf|
  {
    FrameLen(buf) < TWO64 && (Buffered(buf) ==> Fits(buf[FrameLen(buf)..]))
  }

  lemma {:induction false} FitsPrefix(a: seq<byte>, b: seq<byte>)
    requires Fits(a + b)
    ensures Fits(a) && Fits(Drain(a).rest + b)
    decreases |a|
  {
    hide Front, Announced;
    if Buffered(a) {
      FrontIsStable(a, b);
      FitsPrefix(a[FrameLen(a)..], b);
    } else {
      NotAnnounced(a);
      if Announced(a).headerLen > 0 { AnnouncedIsStable(a, b); }
    }
  }

  lemma NotAnnounced(a: seq<byte>)
    ensures Announced(a).headerLen == 0 ==> FrameLen(a) == 0
  {
  }

  lemma {:induction false} FitsAll(fs: seq<Frame>)
    requires forall f :: f in fs ==> Sized(f)
    ensures Fits(EncodeAll(fs))
  {
    hide EncodeFrame, Front, Sized, Announced;
    if fs == [] {
      NothingBuffered();
    } else {
      FrontOf(fs[0], EncodeAll(fs[1..]));
      FrameSize(fs[0]);
      FitsAll(fs[1..]);
    }
  }

  lemma FrameSize(f: Frame)
    requires Sized(f)
    ensures |EncodeFrame(f)| < TWO64
  {
  }

  /** What a peer that sends frames has sent so far always fits, and shows exactly the
      complete frames. */
  lemma StreamPrefix(fs: seq<Frame>, received: seq<byte>)
    requires (forall f :: f in fs ==> Sized(f)) && received <= EncodeAll(fs)
    ensures Fits(received)
    ensures Drain(received).deliveries == Payloads(fs[..Complete(fs, |received|)])
  {
    hide Sized, Drain, Fits, EncodeFrame;
    var all := EncodeAll(fs);
    FitsAll(fs);
    assert all == received + all[|received|..];
    FitsPrefix(received, all[|received|..]);
    assert all[..|received|] == received;
    DrainPrefix(fs, |received|);
  }
}
