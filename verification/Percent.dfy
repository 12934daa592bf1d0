/** Percent-encoding: section 2.1 of RFC 3986, with the form variant that writes a space as
    a plus sign. */
module Percent {
  import opened Words

  const PERCENT := 37
  const PLUS := 43
  const SPACE := 32

  // ---------------------------------------------------------------------
  // Characters of the C locale.

  predicate IsDigit(c: byte) { 48 <= c <= 57 }
  predicate IsLetter(c: byte) { 65 <= c <= 90 || 97 <= c <= 122 }
  predicate IsHexDigit(c: byte) { IsDigit(c) || 65 <= c <= 70 || 97 <= c <= 102 }

  function Lower(c: byte): (r: byte)
    ensures r == c || (IsLetter(c) && IsLetter(r))
  {
    if 65 <= c <= 90 then c + 32 else c
  }

  function HexValue(c: byte): (v: int)
    requires IsHexDigit(c)
    ensures 0 <= v < 16
  {
    if IsDigit(c) then c - 48 else Lower(c) - 87
  }

  function HexOctet(d: int): (c: byte)
    requires 0 <= d < 16
    ensures IsHexDigit(c) && HexValue(c) == d
  {
    if d < 10 then 48 + d else 87 + d
  }

  /** Octets the encoder leaves alone.  The search for an octet in a C string also finds the
      terminator, so zero is one of them. */
  predicate Kept(c: byte) {
    IsDigit(c) || IsLetter(c) || c in {46, 95, 45, 36, 44, 59, 126, 40, 41, 0}
  }

  // ---------------------------------------------------------------------
  // The code.

  predicate Escaped(s: seq<byte>) {
    |s| >= 3 && s[0] == PERCENT && IsHexDigit(s[1]) && IsHexDigit(s[2])
  }

  /** The octet written at the front of `s`, and how many octets write it. */
  function Octet(s: seq<byte>, form: bool): (c: byte)
    requires s != []
  {
    if Escaped(s) then HexValue(s[1]) * 16 + HexValue(s[2])
    else if form && s[0] == PLUS then SPACE
    else s[0]
  }

  function Width(s: seq<byte>): (w: nat)
    requires s != []
    ensures 1 <= w <= |s|
  {
    if Escaped(s) then 3 else 1
  }

  function Decode(s: seq<byte>, form: bool): (r: seq<byte>)
    ensures |r| <= |s|
    ensures s != [] ==> r != []
  {
    if s == [] then [] else [Octet(s, form)] + Decode(s[Width(s)..], form)
  }

  function Code(c: byte): (r: seq<byte>)
    ensures 1 <= |r| <= 3
  {
    if Kept(c) then [c] else [PERCENT, HexOctet(c / 16), HexOctet(c % 16)]
  }

  function Encode(s: seq<byte>): (r: seq<byte>) {
    if s == [] then [] else Code(s[0]) + Encode(s[1..])
  }

  lemma DecodeCode(c: byte, rest: seq<byte>, form: bool)
    ensures Decode(Code(c) + rest, form) == [c] + Decode(rest, form)
  {
    var s := Code(c) + rest;
    if Kept(c) {
      assert s[0] == c && s[1..] == rest;
    } else {
      assert s[0] == PERCENT && s[1] == HexOctet(c / 16) && s[2] == HexOctet(c % 16);
      assert s[3..] == rest;
    }
  }

  /** Decoding, in either mode, inverts encoding. */
  lemma {:induction false} RoundTrip(s: seq<byte>, form: bool)
    ensures Decode(Encode(s), form) == s
  {
    hide Code;
    if s != [] {
      DecodeCode(s[0], Encode(s[1..]), form);
      RoundTrip(s[1..], form);
    }
  }

  lemma {:induction false} EncodeConcat(a: seq<byte>, b: seq<byte>)
    ensures Encode(a + b) == Encode(a) + Encode(b)
  {
    hide Code;
    if a == [] {
      assert a + b == b;
    } else {
      assert (a + b)[1..] == a[1..] + b;
      EncodeConcat(a[1..], b);
      assert Code(a[0]) + (Encode(a[1..]) + Encode(b)) == (Code(a[0]) + Encode(a[1..])) + Encode(b);
    }
  }

  lemma {:induction false} EncodeSize(s: seq<byte>)
    ensures |s| <= |Encode(s)| <= 3 * |s|
  {
    hide Code;
    if s != [] { EncodeSize(s[1..]); }
  }

  // ---------------------------------------------------------------------
  // The C functions.

  /** `mg_url_encode`: it stops at the end of the source, or as soon as fewer than four
      octets are left in the destination. */
  method EncodeInto(src: seq<byte>, dst: array<byte>) returns (j: nat)
    requires dst.Length > 0
    modifies dst
    ensures j < dst.Length && dst[j] == 0
    ensures exists k :: 0 <= k <= |src| && dst[..j] == Encode(src[..k])
                     && (k == |src| || j + 3 >= dst.Length)
                     && (k > 0 ==> |Encode(src[..k - 1])| + 3 < dst.Length)
    ensures forall form :: Decode(dst[..j], form) <= src
    ensures dst.Length > 3 * |src| ==> dst[..j] == Encode(src) && forall form :: Decode(dst[..j], form) == src
  {
    hide Code, Encode, Decode;
    var i := 0;
    j := 0;
    EncodeNothing();
    while i < |src| && j + 2 < dst.Length - 1
      invariant 0 <= i <= |src| && j < dst.Length
      invariant dst[..j] == Encode(src[..i])
      invariant i > 0 ==> |Encode(src[..i - 1])| + 3 < dst.Length
    {
      EncodeNext(src, i);
      j := WriteCode(src[i], dst, j);
      i := i + 1;
    }
    dst[j] := 0;
    assert dst[..j] == Encode(src[..i]);
    EncodeSize(src[..i]);
    RoundTrip(src[..i], false);
    RoundTrip(src[..i], true);
    assert i == |src| ==> src[..i] == src;
  }

  lemma EncodeNothing()
    ensures Encode([]) == []
  {
  }

  lemma EncodeNext(src: seq<byte>, i: nat)
    requires i < |src|
    ensures Encode(src[..i + 1]) == Encode(src[..i]) + Code(src[i])
  {
    hide Code;
    assert src[..i + 1] == src[..i] + [src[i]];
    EncodeConcat(src[..i], [src[i]]);
    assert Encode([src[i]]) == Code(src[i]) + Encode([]);
  }

  method WriteCode(c: byte, dst: array<byte>, at: nat) returns (j: nat)
    requires at + 3 < dst.Length
    modifies dst
    ensures j == at + |Code(c)| && dst[..j] == old(dst[..at]) + Code(c)
  {
    hide HexOctet;
    if Kept(c) {
      dst[at] := c;
      j := at + 1;
    } else {
      dst[at] := PERCENT;
      dst[at + 1] := HexOctet(c / 16);
      dst[at + 2] := HexOctet(c % 16);
      j := at + 3;
    }
  }

  /** `mg_url_decode`.  The destination may be the very block the source is read from: the
      write index never passes the read index, so the result is still the decoding of what
      the source was. */
  method DecodeInto(src: array<byte>, at: nat, n: nat, dst: array<byte>, dstLen: nat, form: bool) returns (r: int)
    requires at + n <= src.Length && 0 < dstLen <= dst.Length
    modifies dst
    ensures var text := Decode(old(src[at..at + n]), form);
            var m := if |text| < dstLen then |text| else dstLen - 1;
            && r == (if |text| < dstLen then |text| else -1)
            && dst[..m] == text[..m] && dst[m] == 0
            && forall k :: m < k < dst.Length ==> dst[k] == old(dst[k])
  {
    hide Decode;
    ghost var text := Decode(src[at..at + n], form);
    var i, j := DecodeLoop(src, at, n, dst, dstLen, form);
    dst[j] := 0;
    r := if i >= n then j else -1;
    SameStart(dst[..], text, j);
  }

  lemma SameStart(d: seq<byte>, text: seq<byte>, j: nat)
    requires j <= |d| && j <= |text| && forall k :: 0 <= k < j ==> d[k] == text[k]
    ensures d[..j] == text[..j]
  {
  }

  /** The decoding loop: it stops at the end of the text or of the room. */
  method DecodeLoop(src: array<byte>, at: nat, n: nat, dst: array<byte>, dstLen: nat, form: bool)
    returns (i: nat, j: nat)
    requires at + n <= src.Length && 0 < dstLen <= dst.Length
    modifies dst
    ensures var text := Decode(old(src[at..at + n]), form);
            && j <= |text| && j < dstLen
            && (i >= n <==> j == |text|) && (i < n ==> j == dstLen - 1)
            && (forall k :: 0 <= k < j ==> dst[k] == text[k])
            && forall k :: j <= k < dst.Length ==> dst[k] == old(dst[k])
  {
    hide Decode, Octet, Width;
    ghost var s := src[at..at + n];
    ghost var text := Decode(s, form);
    i, j := 0, 0;
    assert s[0..] == s && text[0..] == text;
    while i < n && j < dstLen - 1
      invariant i <= n && j <= i && j <= |text| && j < dstLen
      invariant text[j..] == Decode(s[i..], form)
      invariant forall k :: 0 <= k < j ==> dst[k] == text[k]
      invariant forall k :: j <= k < dst.Length ==> dst[k] == old(dst[k])
    {
      assert forall k :: at + i <= k < at + n ==> src[k] == old(src[k]) == s[k - at];
      var w := DecodeOne(src, at, n, dst, form, s, i, text, j);
      i, j := i + w, j + 1;
    }
    assert |text[j..]| == |text| - j;
    assert i == n ==> s[i..] == [];
  }

  /** One turn of the loop, reading at `at + i` and writing at `j`. */
  method DecodeOne(src: array<byte>, at: nat, n: nat, dst: array<byte>, form: bool,
                   ghost s: seq<byte>, i: nat, ghost text: seq<byte>, j: nat) returns (w: nat)
    requires i < n == |s| && at + n <= src.Length && j < dst.Length && j <= |text|
    requires text[j..] == Decode(s[i..], form)
    requires forall k :: at + i <= k < at + n ==> src[k] == s[k - at]
    modifies dst
    ensures 1 <= w && i + w <= n && j < |text|
    ensures text[j + 1..] == Decode(s[i + w..], form)
    ensures dst[j] == text[j] && forall k :: 0 <= k < dst.Length && k != j ==> dst[k] == old(dst[k])
  {
    hide Decode, Octet, Width;
    DecodeNext(s, i, text, j, form);
    assert src[at + i..at + n] == s[i..];
    var c;
    c, w := ReadOctet(src, at + i, at + n, form);
    dst[j] := c;
  }

  lemma DecodeNext(s: seq<byte>, i: nat, text: seq<byte>, j: nat, form: bool)
    requires i < |s| && j <= |text| && text[j..] == Decode(s[i..], form)
    ensures j < |text| && i + Width(s[i..]) <= |s|
    ensures text[j] == Octet(s[i..], form)
    ensures text[j + 1..] == Decode(s[i + Width(s[i..])..], form)
  {
    hide Octet, Width;
    var w := Width(s[i..]);
    assert s[i..][w..] == s[i + w..];
    assert text[j] == text[j..][0] && text[j + 1..] == text[j..][1..];
  }

  /** The body of the decoding loop. */
  method ReadOctet(src: array<byte>, p: nat, end: nat, form: bool) returns (c: byte, w: nat)
    requires p < end <= src.Length
    ensures c == Octet(src[p..end], form) && w == Width(src[p..end])
  {
    hide HexValue, IsHexDigit;
    ghost var s := src[p..end];
    assert s[0] == src[p] && (p + 2 < end ==> s[1] == src[p + 1] && s[2] == src[p + 2]);
    if src[p] == PERCENT && p + 2 < end && IsHexDigit(src[p + 1]) && IsHexDigit(src[p + 2]) {
      c, w := HexValue(src[p + 1]) * 16 + HexValue(src[p + 2]), 3;
    } else if form && src[p] == PLUS {
      c, w := SPACE, 1;
    } else {
      c, w := src[p], 1;
    }
  }

  /** The request path is decoded where it stands, with room for itself and its terminator. */
  method DecodeInPlace(uri: array<byte>, n: nat) returns (r: nat)
    requires n < uri.Length
    modifies uri
    ensures r <= n && uri[..r] == Decode(old(uri[..n]), false) && uri[r] == 0
    ensures forall k :: r < k < uri.Length ==> uri[k] == old(uri[k])
  {
    r := DecodeInto(uri, 0, n, uri, n + 1, false);
  }
}
