/** The two MD5 implementations agree, and their digests are usable as identifiers. */
module Md5Agreement {
  import opened Words
  import opened BlockStream
  import opened Rfc1321
  import Md5Class
  import Md5Context
  import Records

  ghost predicate Sizes(parts: seq<seq<byte>>, limit: nat) {
    forall i :: 0 <= i < |parts| ==> |parts[i]| <= limit
  }

  /** The C++ class over any chunks. */
  method ClassDigest(parts: seq<seq<byte>>) returns (digest: seq<byte>)
    requires Sizes(parts, 0xFFFF_FFBF)
    ensures digest == Digest(Concat(parts))
  {
    hide Digest, Absorbed, Counts, Compress;
    var md5 := new Md5Class.MD5();
    for i := 0 to |parts|
      invariant md5.Valid() && fresh(md5) && fresh(md5.buffer) && !md5.finalized
      invariant md5.message == Concat(parts[..i])
    {
      assert parts[..i + 1][..i] == parts[..i];
      md5.Update(parts[i]);
    }
    assert parts[..|parts|] == parts;
    md5.Finalize();
    digest := md5.digest;
  }

  /** The C context over any chunks, on a machine of either byte order. */
  method ContextDigest(bigEndian: bool, parts: seq<seq<byte>>) returns (digest: seq<byte>)
    requires Sizes(parts, 0xFFFF_FFFF)
    ensures digest == Digest(Concat(parts))
  {
    hide Digest, Absorbed, Counts, Compress;
    var ctx := new Md5Context.Context(bigEndian);
    for i := 0 to |parts|
      invariant ctx.Valid() && fresh(ctx) && fresh(ctx.input)
      invariant ctx.message == Concat(parts[..i])
    {
      assert parts[..i + 1][..i] == parts[..i];
      ctx.Update(parts[i]);
    }
    assert parts[..|parts|] == parts;
    digest := ctx.Final();
  }

  /** Both implementations return the same sixteen octets for the same message, however
      each of them gets it cut up. */
  method SameDigest(bigEndian: bool, ps: seq<seq<byte>>, qs: seq<seq<byte>>)
    returns (x: seq<byte>, y: seq<byte>)
    requires Sizes(ps, 0xFFFF_FFBF) && Sizes(qs, 0xFFFF_FFFF) && Concat(ps) == Concat(qs)
    ensures x == y && |x| == 16
  {
    x := ClassDigest(ps);
    y := ContextDigest(bigEndian, qs);
  }

  /** `mg_md5` of a list of strings is `md5` of their concatenation. */
  method SameHex(bigEndian: bool, parts: seq<seq<byte>>) returns (x: string, y: string)
    requires |Concat(parts)| <= 0xFFFF_FFBF && Sizes(parts, 0xFFFF_FFFF)
    ensures x == y && Records.IsDigest(x)
  {
    hide Digest;
    x := Md5Class.Md5(Concat(parts));
    y := Md5Context.MgMd5(bigEndian, parts);
    HexIsDigest(Digest(Concat(parts)));
  }

  lemma {:induction false} HexIsHex(b: seq<byte>)
    ensures forall i :: 0 <= i < |Hex(b)| ==> Records.IsLowerHex(Hex(b)[i])
  {
    if b != [] {
      var n := |b| - 1;
      HexIsHex(b[..n]);
      DigitIsHex(b[n] / 16);
      DigitIsHex(b[n] % 16);
    }
  }

  lemma DigitIsHex(d: int)
    requires 0 <= d < 16
    ensures Records.IsLowerHex(HexDigit(d))
  {
  }

  /** A hex digest holds neither the list separator nor the pair separator. */
  lemma HexIsDigest(b: seq<byte>)
    requires |b| == 16
    ensures Records.IsDigest(Hex(b))
  {
    HexIsHex(b);
  }
}
