/** The end-of-headers scanner `get_request_len`. */
module Headers {
  import opened Words

  const LF := 10
  const CR := 13

  /** Control octets other than the line ends; octets from 128 on are allowed. */
  predicate Forbidden(c: byte) { (c < 32 && c != CR && c != LF) || c == 127 }

  /** The width of the blank line that starts with the newline at `i`, zero if there is none. */
  function Blank(buf: seq<byte>, i: nat): (w: nat)
    requires i < |buf|
    ensures w == 0 || (2 <= w <= 3 && i + w <= |buf|)
  {
    if buf[i] == LF && i + 1 < |buf| && buf[i + 1] == LF then 2
    else if buf[i] == LF && i + 2 < |buf| && buf[i + 1] == CR && buf[i + 2] == LF then 3
    else 0
  }

  /** The scan from position `i` on. */
  function Scan(buf: seq<byte>, i: nat): (r: int)
    decreases |buf| - i
  {
    if i >= |buf| then 0
    else if Forbidden(buf[i]) then -1
    else if Blank(buf, i) > 0 then i + Blank(buf, i)
    else Scan(buf, i + 1)
  }

  // ---------------------------------------------------------------------
  // What the answers mean.

  /** Nothing before `i` ends the scan. */
  predicate Open(buf: seq<byte>, i: nat)
    requires i <= |buf|
  {
    forall k :: 0 <= k < i ==> !Forbidden(buf[k]) && Blank(buf, k) == 0
  }

  /** The scan ends at `i`, with the first blank line or the first forbidden octet. */
  predicate EndsAt(buf: seq<byte>, i: nat) {
    i < |buf| && Open(buf, i) && (Forbidden(buf[i]) || Blank(buf, i) > 0)
  }

  /** What is answered there: -1, or the end of the blank line. */
  function Verdict(buf: seq<byte>, i: nat): (r: int)
    requires i < |buf|
  {
    if Forbidden(buf[i]) then -1 else i + Blank(buf, i)
  }

  lemma {:induction false} ScanFrom(buf: seq<byte>, i: nat)
    requires i <= |buf| && Open(buf, i)
    ensures Scan(buf, i) == 0 ==> Open(buf, |buf|)
    ensures Scan(buf, i) != 0 ==> exists k: nat :: EndsAt(buf, k) && Scan(buf, i) == Verdict(buf, k)
    decreases |buf| - i
  {
    hide Forbidden, Blank;
    if i < |buf| {
      if Forbidden(buf[i]) || Blank(buf, i) > 0 {
        assert EndsAt(buf, i);
      } else {
        ScanFrom(buf, i + 1);
      }
    }
  }

  lemma {:induction false} ScanTo(buf: seq<byte>, i: nat, k: nat)
    requires i <= k <= |buf| && Open(buf, k)
    ensures Scan(buf, i) == Scan(buf, k)
    decreases k - i
  {
    hide Forbidden, Blank;
    if i < k { ScanTo(buf, i + 1, k); }
  }

  /** A positive answer is the end of the earliest blank line, with no forbidden octet at or
      before its first newline; -1 is a forbidden octet with no blank line started before it;
      zero is neither. */
  lemma ScanMeans(buf: seq<byte>, r: int)
    requires r != 0
    ensures Scan(buf, 0) == r <==> exists i: nat :: EndsAt(buf, i) && r == Verdict(buf, i)
    ensures Scan(buf, 0) == 0 <==> Open(buf, |buf|)
  {
    hide Forbidden, Blank;
    ScanFrom(buf, 0);
    if i: nat :| EndsAt(buf, i) && r == Verdict(buf, i) {
      ScanTo(buf, 0, i);
    }
    if Open(buf, |buf|) { ScanTo(buf, 0, |buf|); }
  }

  // ---------------------------------------------------------------------
  // The scan does not depend on how the octets arrive.

  lemma {:induction false} ScanStays(a: seq<byte>, b: seq<byte>, i: nat)
    requires i <= |a| && Scan(a, i) != 0
    ensures Scan(a + b, i) == Scan(a, i)
    decreases |a| - i
  {
    var ab := a + b;
    if i < |a| {
      assert ab[i] == a[i] && (i + 1 < |a| ==> ab[i + 1] == a[i + 1]) && (i + 2 < |a| ==> ab[i + 2] == a[i + 2]);
      if !Forbidden(a[i]) && Blank(a, i) == 0 {
        ScanStays(a, b, i + 1);
        NextToLast(a, i);
      }
    }
  }

  /** A newline that is not yet the start of a blank line cannot become one when the scan of
      what follows it has already ended. */
  lemma NextToLast(a: seq<byte>, i: nat)
    requires i < |a| && Blank(a, i) == 0 && Scan(a, i + 1) != 0
    ensures i + 1 < |a|
    ensures i + 2 == |a| ==> a[i + 1] != CR
  {
    if i + 2 == |a| { assert Scan(a, i + 2) == 0; }
  }

  /** Once the scanner answers -1 or a length, it gives the same answer however much more
      arrives. */
  lemma AnswerIsStable(a: seq<byte>, b: seq<byte>)
    requires Scan(a, 0) != 0
    ensures Scan(a + b, 0) == Scan(a, 0)
  {
    ScanStays(a, b, 0);
  }

  lemma {:induction false} ScanBounds(buf: seq<byte>, i: nat)
    ensures -1 <= Scan(buf, i) <= |buf|
    ensures Scan(buf, i) > 0 ==> Scan(buf, i) >= i + 2
    decreases |buf| - i
  {
    if i < |buf| { ScanBounds(buf, i + 1); }
  }

  lemma {:induction false} ScanNeedsNoMore(buf: seq<byte>, n: nat, i: nat)
    requires i <= n <= |buf| && Scan(buf, i) == n && n > 0
    ensures Scan(buf[..n], i) == n
    decreases |buf| - i
  {
    ScanBounds(buf, i);
    if Blank(buf, i) == 0 {
      ScanBounds(buf, i + 1);
      ScanNeedsNoMore(buf, n, i + 1);
    }
  }

  /** A length is answered exactly from the moment the last octet of the blank line is there. */
  lemma AnswerIsPrompt(buf: seq<byte>, k: nat)
    requires k <= |buf| && Scan(buf, 0) > 0
    ensures Scan(buf[..k], 0) == if k >= Scan(buf, 0) then Scan(buf, 0) else 0
  {
    var n := Scan(buf, 0);
    ScanBounds(buf, 0);
    ScanBounds(buf[..k], 0);
    assert buf == buf[..k] + buf[k..];
    if Scan(buf[..k], 0) != 0 { AnswerIsStable(buf[..k], buf[k..]); }
    if k >= n {
      ScanNeedsNoMore(buf, n, 0);
      assert buf[..k] == buf[..n] + buf[n..k];
      AnswerIsStable(buf[..n], buf[n..k]);
    }
  }

  /** `get_request_len`. */
  method RequestLen(buf: array<byte>, len: nat) returns (r: int)
    requires len <= buf.Length
    ensures r == Scan(buf[..len], 0)
  {
    hide Blank;
    ghost var s := buf[..len];
    for i := 0 to len
      invariant Scan(s, 0) == Scan(s, i)
    {
      BlankAt(s, i);
      if (buf[i] < 32 || buf[i] > 126) && buf[i] != CR && buf[i] != LF && buf[i] < 128 {
        return -1;
      } else if buf[i] == LF && i + 1 < len && buf[i + 1] == LF {
        return i + 2;
      } else if buf[i] == LF && i + 2 < len && buf[i + 1] == CR && buf[i + 2] == LF {
        return i + 3;
      }
    }
    r := 0;
  }

  lemma BlankAt(s: seq<byte>, i: nat)
    requires i < |s|
    ensures s[i] == LF && i + 1 < |s| && s[i + 1] == LF ==> Blank(s, i) == 2
    ensures s[i] == LF && i + 2 < |s| && s[i + 1] == CR && s[i + 2] == LF ==> Blank(s, i) == 3
    ensures s[i] != LF ==> Blank(s, i) == 0
    ensures i + 1 >= |s| || (s[i + 1] != LF && !(i + 2 < |s| && s[i + 1] == CR && s[i + 2] == LF)) ==> Blank(s, i) == 0
  {
  }
}
