/** Responses in chunks: section 4.1 of RFC 7230. */
module Chunked {
  import opened Percent
  import opened Words
  import Headers

  const CRLF: seq<byte> := [13, 10]
  const LAST: seq<byte> := [48, 13, 10, 13, 10]

  // ---------------------------------------------------------------------
  // Chunks, and a decoder for them.

  /** A number as `%X` prints it. */
  function HexText(n: nat): (s: seq<byte>)
    ensures |s| > 0
  {
    if n < 16 then [UpperHex(n)] else HexText(n / 16) + [UpperHex(n % 16)]
  }

  function Chunk(d: seq<byte>): (s: seq<byte>) { HexText(|d|) + CRLF + d + CRLF }

  function Chunks(ds: seq<seq<byte>>): (s: seq<byte>) {
    if ds == [] then [] else Chunk(ds[0]) + Chunks(ds[1..])
  }

  function Flat(ds: seq<seq<byte>>): (s: seq<byte>) {
    if ds == [] then [] else ds[0] + Flat(ds[1..])
  }

  function HexRun(s: seq<byte>): (n: nat)
    ensures n <= |s| && (n < |s| ==> !IsHexDigit(s[n])) && forall k :: 0 <= k < n ==> IsHexDigit(s[k])
  {
    if s == [] || !IsHexDigit(s[0]) then 0 else 1 + HexRun(s[1..])
  }

  function HexNumber(s: seq<byte>): (n: nat)
    requires forall k :: 0 <= k < |s| ==> IsHexDigit(s[k])
  {
    if s == [] then 0 else 16 * HexNumber(s[..|s| - 1]) + HexValue(s[|s| - 1])
  }

  datatype Body = Malformed | Body(content: seq<byte>, rest: seq<byte>)

  /** A body in chunks, without extensions or trailer fields, and what follows it. */
  function Dechunk(s: seq<byte>): (b: Body)
    decreases |s|
  {
    var h := HexRun(s);
    if h == 0 || |s| < h + 2 || s[h..h + 2] != CRLF then Malformed
    else
      var n, t := HexNumber(s[..h]), s[h + 2..];
      if |t| < n + 2 || t[n..n + 2] != CRLF then Malformed
      else if n == 0 then Body([], t[2..])
      else match Dechunk(t[n + 2..])
        case Malformed => Malformed
        case Body(content, rest) => Body(t[..n] + content, rest)
  }

  lemma UpperHexReads(d: int)
    requires 0 <= d < 16
    ensures IsHexDigit(UpperHex(d)) && HexValue(UpperHex(d)) == d
  {
  }

  lemma {:induction false} HexTextReads(n: nat)
    ensures forall k :: 0 <= k < |HexText(n)| ==> IsHexDigit(HexText(n)[k])
    ensures HexNumber(HexText(n)) == n
  {
    hide IsHexDigit, HexValue, UpperHex;
    UpperHexReads(n % 16);
    var s := HexText(n);
    if n < 16 {
      assert s[..0] == [];
    } else {
      HexTextReads(n / 16);
      assert s[..|s| - 1] == HexText(n / 16);
    }
  }

  lemma {:induction false} HexRunOf(a: seq<byte>, b: seq<byte>)
    requires forall k :: 0 <= k < |a| ==> IsHexDigit(a[k])
    requires b != [] && !IsHexDigit(b[0])
    ensures HexRun(a + b) == |a|
  {
    var s := a + b;
    if a == [] {
      assert s == b;
    } else {
      assert s[0] == a[0] && s[1..] == a[1..] + b;
      HexRunOf(a[1..], b);
    }
  }

  lemma DechunkChunk(d: seq<byte>, rest: seq<byte>)
    ensures Dechunk(Chunk(d) + rest) ==
            if d == [] then Body([], rest)
            else match Dechunk(rest)
              case Malformed => Malformed
              case Body(content, after) => Body(d + content, after)
  {
    hide IsHexDigit, HexText, HexNumber, HexRun;
    var size, t := HexText(|d|), d + CRLF + rest;
    var h := |size|;
    var s := Chunk(d) + rest;
    HexTextReads(|d|);
    EndOfSize();
    assert s == size + (CRLF + t);
    HexRunOf(size, CRLF + t);
    hide CRLF;
    assert s[..h] == size && s[h..h + 2] == CRLF && s[h + 2..] == t;
    assert t[..|d|] == d && t[|d|..|d| + 2] == CRLF && t[|d| + 2..] == rest;
  }

  lemma EndOfSize()
    ensures |CRLF| == 2 && !IsHexDigit(CRLF[0])
  {
  }

  /** An empty chunk is the last chunk. */
  lemma EmptyChunkIsLast()
    ensures Chunk([]) == LAST
  {
  }

  predicate NoneEmpty(ds: seq<seq<byte>>) { forall i :: 0 <= i < |ds| ==> ds[i] != [] }

  /** What the chunks and the last chunk decode to: the data up to the first empty chunk, with
      the rest of the output left over. */
  lemma {:induction false} DechunkUpTo(ds: seq<seq<byte>>, k: nat)
    requires k <= |ds| && NoneEmpty(ds[..k]) && (k < |ds| ==> ds[k] == [])
    ensures Dechunk(Chunks(ds) + LAST) ==
            Body(Flat(ds[..k]), if k < |ds| then Chunks(ds[k + 1..]) + LAST else [])
    decreases |ds|
  {
    hide Chunk, Dechunk;
    if ds == [] {
      EmptyChunkIsLast();
      DechunkChunk([], []);
      assert [] + LAST == LAST && LAST + [] == LAST;
    } else {
      var tail := Chunks(ds[1..]) + LAST;
      assert Chunks(ds) + LAST == Chunk(ds[0]) + tail;
      DechunkChunk(ds[0], tail);
      if k > 0 {
        NoneEmptyTail(ds[..k]);
        assert ds[..k][1..] == ds[1..][..k - 1];
        DechunkUpTo(ds[1..], k - 1);
        assert k < |ds| ==> ds[1..][k..] == ds[k + 1..];
      }
    }
  }

  lemma NoneEmptyTail(ds: seq<seq<byte>>)
    requires ds != [] && NoneEmpty(ds)
    ensures ds[0] != [] && NoneEmpty(ds[1..])
  {
  }

  /** The decoder recovers the data, with exactly one terminator and nothing after it, exactly
      when no empty data was sent. */
  lemma BodyRoundTrip(ds: seq<seq<byte>>)
    ensures Dechunk(Chunks(ds) + LAST) == Body(Flat(ds), []) <==> NoneEmpty(ds)
  {
    hide Chunks, Dechunk, Flat;
    if NoneEmpty(ds) {
      assert ds[..|ds|] == ds;
      DechunkUpTo(ds, |ds|);
    } else {
      var k := FirstEmpty(ds);
      DechunkUpTo(ds, k);
    }
  }

  lemma {:induction false} FirstEmpty(ds: seq<seq<byte>>) returns (k: nat)
    requires !NoneEmpty(ds)
    ensures k < |ds| && ds[k] == [] && NoneEmpty(ds[..k])
  {
    if ds[0] == [] {
      k := 0;
    } else {
      assert !NoneEmpty(ds[1..]) by {
        var i :| 0 <= i < |ds| && ds[i] == [];
        assert ds[1..][i - 1] == [];
      }
      var j := FirstEmpty(ds[1..]);
      k := j + 1;
      assert forall i :: 0 < i < k ==> ds[..k][i] == ds[1..][..j][i - 1];
    }
  }

  // ---------------------------------------------------------------------
  // The state of a response and what each call does to it.

  /** The status code given so far (0 if none), the two flags, and the octets sent. */
  datatype Wire = Wire(code: int, chunked: bool, sent: bool, out: seq<byte>)

  const START := Wire(0, false, false, [])

  datatype Call = Status(code: int) | Header(name: seq<byte>, value: seq<byte>)

  function Line(text: seq<byte>): (s: seq<byte>) { text + CRLF }

  function HeaderText(name: seq<byte>, value: seq<byte>): (s: seq<byte>) { name + Octets(": ") + value }

  const TRANSFER := HeaderText(Octets("Transfer-Encoding"), Octets("chunked"))

  /** A status line, from the text `status` gives for a code, is sent while none was set. */
  function Lead(w: Wire, code: int, status: int -> seq<byte>): (v: Wire) {
    if w.code == 0 then w.(code := code, out := w.out + Line(status(code))) else w
  }

  function After(w: Wire, c: Call, status: int -> seq<byte>): (v: Wire) {
    match c
    case Status(code) => Lead(w, code, status).(chunked := true)
    case Header(name, value) =>
      var v := Lead(w, 200, status);
      v.(out := v.out + Line(HeaderText(name, value)), chunked := true)
  }

  function AfterAll(w: Wire, cs: seq<Call>, status: int -> seq<byte>): (v: Wire)
    decreases |cs|
  {
    if cs == [] then w else AfterAll(After(w, cs[0], status), cs[1..], status)
  }

  function Terminate(w: Wire, status: int -> seq<byte>): (v: Wire) {
    if w.sent then w
    else
      var v := After(w, Header(Octets("Transfer-Encoding"), Octets("chunked")), status);
      v.(out := v.out + CRLF, sent := true)
  }

  function AfterData(w: Wire, d: seq<byte>, status: int -> seq<byte>): (v: Wire) {
    var v := Terminate(w, status);
    v.(out := v.out + Chunk(d))
  }

  function AfterAllData(w: Wire, ds: seq<seq<byte>>, status: int -> seq<byte>): (v: Wire)
    decreases |ds|
  {
    if ds == [] then w else AfterAllData(AfterData(w, ds[0], status), ds[1..], status)
  }

  function Finish(w: Wire, status: int -> seq<byte>): (v: Wire) {
    if w.chunked then
      var v := Terminate(w, status);
      v.(out := v.out + LAST)
    else w
  }

  // ---------------------------------------------------------------------
  // What a whole run sends.

  /** The codes for which a status line is sent: leading zeros, then the first other one, or
      200 if a header or the end comes first. */
  function Codes(cs: seq<Call>): (codes: seq<int>)
    ensures |codes| == 1 <==> cs == [] || cs[0] != Status(0)
  {
    if cs == [] || cs[0].Header? then [200]
    else if cs[0].code == 0 then [0] + Codes(cs[1..])
    else [cs[0].code]
  }

  function HeaderTexts(cs: seq<Call>): (ts: seq<seq<byte>>) {
    if cs == [] then []
    else (if cs[0].Header? then [HeaderText(cs[0].name, cs[0].value)] else []) + HeaderTexts(cs[1..])
  }

  function StatusTexts(codes: seq<int>, status: int -> seq<byte>): (ts: seq<seq<byte>>)
    ensures |ts| == |codes| && forall i :: 0 <= i < |ts| ==> ts[i] == status(codes[i])
  {
    if codes == [] then [] else [status(codes[0])] + StatusTexts(codes[1..], status)
  }

  function Lines(ts: seq<seq<byte>>): (s: seq<byte>) {
    if ts == [] then [] else Line(ts[0]) + Lines(ts[1..])
  }

  /** The lines of the head: status, headers, and the transfer encoding. */
  function HeadLines(cs: seq<Call>, status: int -> seq<byte>): (ts: seq<seq<byte>>) {
    StatusTexts(Codes(cs), status) + HeaderTexts(cs) + [TRANSFER]
  }

  function Head(cs: seq<Call>, status: int -> seq<byte>): (s: seq<byte>) {
    Lines(HeadLines(cs, status)) + CRLF
  }

  lemma {:induction false} LinesConcat(a: seq<seq<byte>>, b: seq<seq<byte>>)
    ensures Lines(a + b) == Lines(a) + Lines(b)
  {
    hide Line;
    if a == [] {
      assert a + b == b;
    } else {
      assert (a + b)[1..] == a[1..] + b;
      LinesConcat(a[1..], b);
    }
  }

  lemma LinesOne(t: seq<byte>, ts: seq<seq<byte>>)
    ensures Lines([t] + ts) == Line(t) + Lines(ts) && Lines([t]) == Line(t)
  {
    assert ([t] + ts)[1..] == ts && [t][1..] == [];
  }

  /** Once a status line is out, calls only add header lines. */
  lemma {:induction false} AfterLead(w: Wire, cs: seq<Call>, status: int -> seq<byte>)
    requires w.code != 0
    ensures AfterAll(w, cs, status) ==
            w.(out := w.out + Lines(HeaderTexts(cs)), chunked := w.chunked || cs != [])
    decreases |cs|
  {
    hide Line, HeaderText;
    if cs == [] {
      assert w.out + [] == w.out;
    } else {
      var v := After(w, cs[0], status);
      AfterLead(v, cs[1..], status);
      if cs[0].Header? {
        var t := HeaderText(cs[0].name, cs[0].value);
        LinesOne(t, HeaderTexts(cs[1..]));
        assert w.out + (Line(t) + Lines(HeaderTexts(cs[1..]))) == (w.out + Line(t)) + Lines(HeaderTexts(cs[1..]));
      } else {
        assert HeaderTexts(cs) == HeaderTexts(cs[1..]);
      }
    }
  }

  lemma LinesOfHead(t: seq<byte>, hs: seq<seq<byte>>)
    ensures Lines([t] + hs + [TRANSFER]) == Line(t) + Lines(hs) + Line(TRANSFER)
  {
    hide Line, TRANSFER;
    LinesConcat([t] + hs, [TRANSFER]);
    LinesOne(t, hs);
    LinesOne(TRANSFER, []);
  }

  lemma TerminateAfterLead(w: Wire, status: int -> seq<byte>)
    requires w.code != 0 && !w.sent
    ensures Terminate(w, status) == w.(out := w.out + Line(TRANSFER) + CRLF, sent := true, chunked := true)
  {
  }

  /** The first call that is not a zero status settles the status line. */
  lemma FirstLead(w: Wire, cs: seq<Call>, status: int -> seq<byte>)
    requires w.code == 0 && !w.sent && cs != [] && cs[0] != Status(0)
    ensures var code := Codes(cs)[0];
            && code != 0
            && AfterAll(w, cs, status) ==
               Wire(code, true, false, w.out + Line(status(code)) + Lines(HeaderTexts(cs)))
  {
    hide Line, HeaderText;
    var v := After(w, cs[0], status);
    AfterLead(v, cs[1..], status);
    if cs[0].Header? {
      var t := HeaderText(cs[0].name, cs[0].value);
      LinesOne(t, HeaderTexts(cs[1..]));
      assert w.out + Line(status(200)) + (Line(t) + Lines(HeaderTexts(cs[1..])))
          == (w.out + Line(status(200)) + Line(t)) + Lines(HeaderTexts(cs[1..]));
    } else {
      assert HeaderTexts(cs) == HeaderTexts(cs[1..]);
    }
  }

  lemma HeadAfterZero(cs: seq<Call>, status: int -> seq<byte>)
    requires cs != [] && cs[0] == Status(0)
    ensures Head(cs, status) == Line(status(0)) + Head(cs[1..], status)
  {
    hide Line, TRANSFER, Lines;
    var rest, codes, hs := HeadLines(cs[1..], status), Codes(cs[1..]), HeaderTexts(cs[1..]);
    assert ([0] + codes)[1..] == codes;
    assert StatusTexts(Codes(cs), status) == [status(0)] + StatusTexts(codes, status);
    assert HeaderTexts(cs) == hs;
    assert HeadLines(cs, status) == [status(0)] + rest;
    LinesOne(status(0), rest);
    assert Line(status(0)) + Lines(rest) + CRLF == Line(status(0)) + (Lines(rest) + CRLF);
  }

  lemma HeadOfOne(cs: seq<Call>, status: int -> seq<byte>)
    requires cs == [] || cs[0] != Status(0)
    ensures Head(cs, status) == Line(status(Codes(cs)[0])) + Lines(HeaderTexts(cs)) + Line(TRANSFER) + CRLF
  {
    hide Line, TRANSFER, HeaderTexts;
    var t := status(Codes(cs)[0]);
    assert StatusTexts(Codes(cs), status) == [t];
    LinesOfHead(t, HeaderTexts(cs));
  }

  /** After any status and header calls, ending the head gives the status lines, the headers,
      the transfer encoding and one blank line. */
  lemma {:induction false} HeadIs(w: Wire, cs: seq<Call>, status: int -> seq<byte>)
    requires w.code == 0 && !w.sent
    ensures var v := Terminate(AfterAll(w, cs, status), status);
            v.out == w.out + Head(cs, status) && v.sent && v.chunked
    decreases |cs|
  {
    hide Line, HeaderText, TRANSFER, Head, Lines, Terminate;
    if cs == [] {
      HeadOfOne(cs, status);
      TerminateFresh(w, status);
    } else if cs[0] == Status(0) {
      HeadIs(After(w, cs[0], status), cs[1..], status);
      HeadAfterZero(cs, status);
    } else {
      HeadOfOne(cs, status);
      FirstLead(w, cs, status);
      TerminateAfterLead(AfterAll(w, cs, status), status);
      var a, b, c := Line(status(Codes(cs)[0])), Lines(HeaderTexts(cs)), Line(TRANSFER);
      assert w.out + a + b + c + CRLF == w.out + (a + b + c + CRLF);
    }
  }

  lemma TerminateFresh(w: Wire, status: int -> seq<byte>)
    requires w.code == 0 && !w.sent
    ensures var v := Terminate(w, status);
            v.sent && v.chunked && v.out == w.out + (Line(status(200)) + Lines([]) + Line(TRANSFER) + CRLF)
  {
  }

  /** Once the head has ended, data only adds chunks. */
  lemma {:induction false} DataIs(w: Wire, ds: seq<seq<byte>>, status: int -> seq<byte>)
    requires w.sent
    ensures AfterAllData(w, ds, status) == w.(out := w.out + Chunks(ds))
    decreases |ds|
  {
    hide Chunk;
    if ds == [] {
      assert w.out + [] == w.out;
    } else {
      DataIs(AfterData(w, ds[0], status), ds[1..], status);
      assert w.out + (Chunk(ds[0]) + Chunks(ds[1..])) == (w.out + Chunk(ds[0])) + Chunks(ds[1..]);
    }
  }

  /** A run: status and header calls, then data, then the end of the request. */
  function Run(cs: seq<Call>, ds: seq<seq<byte>>, status: int -> seq<byte>): (out: seq<byte>) {
    Finish(AfterAllData(AfterAll(START, cs, status), ds, status), status).out
  }

  /** Every run that makes a call sends one head and one body in chunks with one last chunk;
      a run that makes none sends nothing. */
  lemma RunIs(cs: seq<Call>, ds: seq<seq<byte>>, status: int -> seq<byte>)
    ensures Run(cs, ds, status) == if cs == [] && ds == [] then [] else Head(cs, status) + (Chunks(ds) + LAST)
  {
    hide Head, AfterAll, AfterAllData, Finish, Chunks;
    if ds != [] {
      RunWithData(cs, ds, status);
    } else if cs != [] {
      RunWithoutData(cs, status);
    } else {
      NoCalls(status);
    }
  }

  lemma RunWithoutData(cs: seq<Call>, status: int -> seq<byte>)
    requires cs != []
    ensures Run(cs, [], status) == Head(cs, status) + (Chunks([]) + LAST)
  {
    hide Head, AfterAll, Terminate;
    HeadIs(START, cs, status);
    ChunkedAfter(START, cs, status);
    var head := Head(cs, status);
    assert [] + head == head;
    assert head + ([] + LAST) == head + LAST;
  }

  lemma RunWithData(cs: seq<Call>, ds: seq<seq<byte>>, status: int -> seq<byte>)
    requires ds != []
    ensures Run(cs, ds, status) == Head(cs, status) + (Chunks(ds) + LAST)
  {
    hide Head, AfterAll, Terminate, Chunk, Chunks;
    var w, head := AfterAll(START, cs, status), Head(cs, status);
    var v := Terminate(w, status);
    HeadIs(START, cs, status);
    assert [] + head == head;
    TerminateTwice(w, status);
    DataIs(v, ds, status);
    assert AfterData(w, ds[0], status) == AfterData(v, ds[0], status);
    var all := AfterAllData(w, ds, status);
    assert all == AfterAllData(v, ds, status);
    hide AfterAllData, AfterData;
    SentStays(all, status);
    assert head + Chunks(ds) + LAST == head + (Chunks(ds) + LAST);
  }

  lemma NoCalls(status: int -> seq<byte>)
    ensures Run([], [], status) == []
  {
  }

  lemma TerminateTwice(w: Wire, status: int -> seq<byte>)
    ensures Terminate(Terminate(w, status), status) == Terminate(w, status)
  {
  }

  lemma SentStays(w: Wire, status: int -> seq<byte>)
    requires w.sent
    ensures Terminate(w, status) == w
  {
  }

  lemma {:induction false} ChunkedAfter(w: Wire, cs: seq<Call>, status: int -> seq<byte>)
    ensures AfterAll(w, cs, status).chunked == (w.chunked || cs != [])
    decreases |cs|
  {
    if cs != [] { ChunkedAfter(After(w, cs[0], status), cs[1..], status); }
  }

  // ---------------------------------------------------------------------
  // Reading a response back: the header scanner finds the head, the decoder the data.

  predicate Plain(t: seq<byte>) {
    forall i :: 0 <= i < |t| ==> !Headers.Forbidden(t[i]) && t[i] != Headers.CR && t[i] != Headers.LF
  }

  predicate PlainLines(ts: seq<seq<byte>>) {
    forall i :: 0 <= i < |ts| ==> ts[i] != [] && Plain(ts[i])
  }

  lemma {:induction false} ScanShift(a: seq<byte>, b: seq<byte>, i: nat)
    requires i <= |b|
    ensures Headers.Scan(a + b, |a| + i) == var r := Headers.Scan(b, i); if r > 0 then |a| + r else r
    decreases |b| - i
  {
    var ab := a + b;
    if i < |b| {
      ScanShift(a, b, i + 1);
      Headers.ScanBounds(b, i + 1);
      assert ab[|a| + i] == b[i];
      assert i + 1 < |b| ==> ab[|a| + i + 1] == b[i + 1];
      assert i + 2 < |b| ==> ab[|a| + i + 2] == b[i + 2];
    }
  }

  /** The scanner passes over a line, unless the line after it is blank. */
  lemma ScanLine(t: seq<byte>, r: seq<byte>)
    requires Plain(t) && r != []
    ensures r[0] != Headers.CR && r[0] != Headers.LF && Headers.Scan(r, 0) > 0 ==>
      Headers.Scan(Line(t) + r, 0) == |t| + 2 + Headers.Scan(r, 0)
    ensures CRLF <= r ==> Headers.Scan(Line(t) + r, 0) == |t| + 4
  {
    var s := Line(t) + r;
    ScanPlain(t, CRLF + r, 0);
    assert s == t + (CRLF + r) && s == (t + CRLF) + r;
    assert s[|t|] == Headers.CR && s[|t| + 1] == Headers.LF && s[|t| + 2] == r[0];
    assert |r| > 1 ==> s[|t| + 3] == r[1];
    assert Headers.Scan(s, |t|) == Headers.Scan(s, |t| + 1);
    ScanShift(t + CRLF, r, 0);
  }

  lemma {:induction false} ScanPlain(t: seq<byte>, r: seq<byte>, i: nat)
    requires Plain(t) && i <= |t|
    ensures Headers.Scan(t + r, i) == Headers.Scan(t + r, |t|)
    decreases |t| - i
  {
    if i < |t| {
      assert (t + r)[i] == t[i];
      ScanPlain(t, r, i + 1);
    }
  }

  lemma {:induction false} ScanLines(ts: seq<seq<byte>>, body: seq<byte>)
    requires ts != [] && PlainLines(ts)
    ensures Headers.Scan(Lines(ts) + CRLF + body, 0) == |Lines(ts)| + 2
    decreases |ts|
  {
    hide Plain, Headers.Scan;
    var r := Lines(ts[1..]) + CRLF + body;
    assert Lines(ts) + CRLF + body == Line(ts[0]) + r;
    ScanLine(ts[0], r);
    if |ts| > 1 {
      ScanLines(ts[1..], body);
      PlainFirst(ts[1]);
      assert r[0] == ts[1][0];
    }
  }

  lemma PlainFirst(t: seq<byte>)
    requires Plain(t) && t != []
    ensures t[0] != Headers.CR && t[0] != Headers.LF
  {
  }

  /** The calls and status texts hold no control octets. */
  predicate PlainCalls(cs: seq<Call>) {
    forall i :: 0 <= i < |cs| && cs[i].Header? ==> Plain(cs[i].name) && Plain(cs[i].value)
  }

  lemma TransferIsPlain()
    ensures Plain(TRANSFER) && TRANSFER != []
  {
    OctetsPlain("Transfer-Encoding");
    OctetsPlain("chunked");
    HeaderIsPlain(Octets("Transfer-Encoding"), Octets("chunked"));
  }

  lemma OctetsPlain(s: string)
    requires forall i :: 0 <= i < |s| ==> ' ' <= s[i] <= '~'
    ensures Plain(Octets(s))
  {
  }

  lemma HeaderIsPlain(name: seq<byte>, value: seq<byte>)
    requires Plain(name) && Plain(value)
    ensures Plain(HeaderText(name, value)) && HeaderText(name, value) != []
  {
    OctetsPlain(": ");
  }

  lemma {:induction false} HeaderTextsPlain(cs: seq<Call>)
    requires PlainCalls(cs)
    ensures PlainLines(HeaderTexts(cs))
  {
    hide Plain, HeaderText;
    if cs != [] {
      assert forall i :: 0 <= i < |cs[1..]| ==> cs[1..][i] == cs[i + 1];
      HeaderTextsPlain(cs[1..]);
      if cs[0].Header? { HeaderIsPlain(cs[0].name, cs[0].value); }
    }
  }

  lemma PlainConcat(a: seq<seq<byte>>, b: seq<seq<byte>>)
    requires PlainLines(a) && PlainLines(b)
    ensures PlainLines(a + b)
  {
  }

  /** A client that looks for the end of the headers and decodes what follows gets back
      exactly the data sent, for every run without empty data and with plain header texts. */
  lemma ResponseRoundTrip(cs: seq<Call>, ds: seq<seq<byte>>, status: int -> seq<byte>)
    requires (cs != [] || ds != []) && NoneEmpty(ds) && PlainCalls(cs)
    requires forall code :: Plain(status(code)) && status(code) != []
    ensures var out := Run(cs, ds, status);
            var n := Headers.Scan(out, 0);
            0 <= n <= |out| && out[..n] == Head(cs, status) && Dechunk(out[n..]) == Body(Flat(ds), [])
  {
    hide Plain, Run, Chunks, Flat, Dechunk, HeaderTexts, Codes, TRANSFER, Lines, NoneEmpty, PlainCalls;
    RunIs(cs, ds, status);
    BodyRoundTrip(ds);
    TransferIsPlain();
    HeaderTextsPlain(cs);
    var ts, first := HeadLines(cs, status), StatusTexts(Codes(cs), status);
    forall i | 0 <= i < |first| ensures first[i] != [] && Plain(first[i]) {
      var code := Codes(cs)[i];
      assert first[i] == status(code);
    }
    PlainConcat(first, HeaderTexts(cs));
    PlainConcat(first + HeaderTexts(cs), [TRANSFER]);
    ScanLines(ts, Chunks(ds) + LAST);
    var out := Run(cs, ds, status);
    assert out == Lines(ts) + CRLF + (Chunks(ds) + LAST);
  }

  // ---------------------------------------------------------------------
  // The connection.

  class Response {
    const status: int -> seq<byte>
    var statusCode: int
    var usingChunked: bool
    var headersSent: bool
    var output: seq<byte>

    ghost function View(): (w: Wire)
      reads this
    {
      Wire(statusCode, usingChunked, headersSent, output)
    }

    constructor (status: int -> seq<byte>)
      ensures View() == START && this.status == status
    {
      this.status := status;
      statusCode, usingChunked, headersSent, output := 0, false, false, [];
    }

    /** `mg_send_status`. */
    method SendStatus(code: int)
      modifies this
      ensures View() == After(old(View()), Status(code), status)
    {
      if statusCode == 0 {
        statusCode := code;
        output := output + Line(status(code));
      }
      usingChunked := true;
    }

    /** `mg_send_header`. */
    method SendHeader(name: seq<byte>, value: seq<byte>)
      modifies this
      ensures View() == After(old(View()), Header(name, value), status)
    {
      if statusCode == 0 {
        statusCode := 200;
        output := output + Line(status(200));
      }
      output := output + Line(HeaderText(name, value));
      usingChunked := true;
    }

    /** `terminate_headers`. */
    method TerminateHeaders()
      modifies this
      ensures View() == Terminate(old(View()), status)
    {
      if !headersSent {
        SendHeader(Octets("Transfer-Encoding"), Octets("chunked"));
        output := output + CRLF;
        headersSent := true;
      }
    }

    /** `mg_send_data`, with the three writes of `write_chunk`. */
    method SendData(data: seq<byte>)
      modifies this
      ensures View() == AfterData(old(View()), data, status)
    {
      TerminateHeaders();
      output := output + (HexText(|data|) + CRLF);
      output := output + data;
      output := output + CRLF;
      assert output == Terminate(old(View()), status).out + Chunk(data);
    }

    /** The end of `call_request_handler`. */
    method Complete()
      modifies this
      ensures View() == Finish(old(View()), status)
    {
      if usingChunked {
        TerminateHeaders();
        output := output + LAST;
      }
    }

    /** A whole request: its output is what `RunIs` and `ResponseRoundTrip` speak of. */
    method Answer(calls: seq<Call>, data: seq<seq<byte>>)
      requires View() == START
      modifies this
      ensures output == if calls == [] && data == [] then [] else Head(calls, status) + (Chunks(data) + LAST)
    {
      hide After, AfterData, Finish, Head, Chunks;
      RunIs(calls, data, status);
      for i := 0 to |calls|
        invariant AfterAll(View(), calls[i..], status) == AfterAll(START, calls, status)
      {
        match calls[i] {
          case Status(code) => SendStatus(code);
          case Header(name, value) => SendHeader(name, value);
        }
        assert calls[i..][1..] == calls[i + 1..];
      }
      ghost var w := View();
      for i := 0 to |data|
        invariant AfterAllData(View(), data[i..], status) == AfterAllData(w, data, status)
      {
        SendData(data[i]);
        assert data[i..][1..] == data[i + 1..];
      }
      Complete();
    }
  }
}
