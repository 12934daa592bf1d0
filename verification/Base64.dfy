/** `base64_encode` and a decoder for section 4 of RFC 4648. */
module Base64 {
  import opened BitOps
  import opened Words
  import Records

  /** Table 1 of RFC 4648, the string `b64` of the source. */
  function Symbol(v: int): (c: char)
    requires 0 <= v < 64
  {
    if v < 26 then 'A' + v as char
    else if v < 52 then 'a' + (v - 26) as char
    else if v < 62 then '0' + (v - 52) as char
    else if v == 62 then '+'
    else '/'
  }

  /** The value of a symbol, or 64 for any other character. */
  function Value(c: char): (v: int)
    ensures 0 <= v <= 64
  {
    if 'A' <= c <= 'Z' then c as int - 'A' as int
    else if 'a' <= c <= 'z' then c as int - 'a' as int + 26
    else if '0' <= c <= '9' then c as int - '0' as int + 52
    else if c == '+' then 62
    else if c == '/' then 63
    else 64
  }

  lemma ValueOfSymbol(v: int)
    requires 0 <= v < 64
    ensures Value(Symbol(v)) == v
  {
  }

  /** The octets of four symbols: three, or fewer when the end is padded. */
  function DecodeGroup(w: char, x: char, y: char, z: char): (r: Records.Option<seq<byte>>) {
    var a, b, c, d := Value(w), Value(x), Value(y), Value(z);
    if a == 64 || b == 64 then Records.None
    else if y == '=' && z == '=' then Records.Some([a * 4 + b / 16])
    else if c == 64 then Records.None
    else if z == '=' then Records.Some([a * 4 + b / 16, b % 16 * 16 + c / 4])
    else if d == 64 then Records.None
    else Records.Some([a * 4 + b / 16, b % 16 * 16 + c / 4, c % 4 * 64 + d])
  }

  /** The whole text; a padded group must be the last. */
  function Decode(s: string): (r: Records.Option<seq<byte>>) {
    if s == "" then Records.Some([])
    else if |s| < 4 then Records.None
    else
      var head, tail := DecodeGroup(s[0], s[1], s[2], s[3]), Decode(s[4..]);
      if head.None? || tail.None? || (s[3] == '=' && |s| > 4) then Records.None
      else Records.Some(head.value + tail.value)
  }

  /** The text for one round of the encoding loop and its padding. */
  function EncodeGroup(g: seq<byte>): (s: string)
    requires 1 <= |g| <= 3
    ensures |s| == 4
  {
    var a := g[0];
    var b := if |g| > 1 then g[1] else 0;
    var c := if |g| > 2 then g[2] else 0;
    [Symbol(a / 4), Symbol(a % 4 * 16 + b / 16),
     if |g| > 1 then Symbol(b % 16 * 4 + c / 64) else '=',
     if |g| > 2 then Symbol(c % 64) else '=']
  }

  function Encode(src: seq<byte>): (s: string) {
    if src == [] then ""
    else
      var n := if |src| < 3 then |src| else 3;
      EncodeGroup(src[..n]) + Encode(src[n..])
  }

  lemma GroupRoundTrip(g: seq<byte>)
    requires 1 <= |g| <= 3
    ensures var s := EncodeGroup(g);
            DecodeGroup(s[0], s[1], s[2], s[3]) == Records.Some(g) && (s[3] == '=' <==> |g| < 3)
  {
    hide Symbol, Value;
    var a := g[0];
    var b := if |g| > 1 then g[1] else 0;
    var c := if |g| > 2 then g[2] else 0;
    NotPadding(a / 4);
    NotPadding(a % 4 * 16 + b / 16);
    NotPadding(b % 16 * 4 + c / 64);
    NotPadding(c % 64);
    PadValue();
    Regroup(a, b, c);
    assert g == if |g| == 1 then [a] else if |g| == 2 then [a, b] else [a, b, c];
  }

  /** Six-bit groups put together again. */
  lemma Regroup(a: int, b: int, c: int)
    requires 0 <= a < 256 && 0 <= b < 256 && 0 <= c < 256
    ensures a / 4 * 4 + (a % 4 * 16 + b / 16) / 16 == a
    ensures (a % 4 * 16 + b / 16) % 16 * 16 + (b % 16 * 4 + c / 64) / 4 == b
    ensures (b % 16 * 4 + c / 64) % 4 * 64 + c % 64 == c
  {
  }

  lemma NotPadding(v: int)
    requires 0 <= v < 64
    ensures Symbol(v) != '=' && Value(Symbol(v)) == v
  {
    ValueOfSymbol(v);
  }

  lemma PadValue()
    ensures Value('=') == 64
  {
  }

  lemma DecodeCons(g: string, t: string)
    requires |g| == 4 && DecodeGroup(g[0], g[1], g[2], g[3]).Some? && Decode(t).Some?
    requires g[3] == '=' ==> t == ""
    ensures Decode(g + t) == Records.Some(DecodeGroup(g[0], g[1], g[2], g[3]).value + Decode(t).value)
  {
    hide DecodeGroup;
    assert (g + t)[4..] == t;
  }

  /** Decoding recovers every input, and the length is four symbols for each three octets begun. */
  lemma {:induction false} RoundTrip(src: seq<byte>)
    ensures Decode(Encode(src)) == Records.Some(src)
    ensures |Encode(src)| == 4 * ((|src| + 2) / 3)
  {
    hide EncodeGroup, DecodeGroup, Decode;
    EncodeLength(src);
    if src == [] {
      DecodeNothing();
    } else {
      var n := if |src| < 3 then |src| else 3;
      GroupRoundTrip(src[..n]);
      RoundTrip(src[n..]);
      assert n < 3 ==> src[n..] == [];
      DecodeCons(EncodeGroup(src[..n]), Encode(src[n..]));
      assert src[..n] + src[n..] == src;
    }
  }

  lemma {:induction false} EncodeLength(src: seq<byte>)
    ensures |Encode(src)| == 4 * ((|src| + 2) / 3)
  {
    hide EncodeGroup;
    if src != [] {
      var n := if |src| < 3 then |src| else 3;
      EncodeLength(src[n..]);
      assert (|src| + 2) / 3 == 1 + (|src| - n + 2) / 3;
    }
  }

  lemma DecodeNothing()
    ensures Decode("") == Records.Some([])
  {
  }

  lemma {:induction false} EncodeAppends(p: seq<byte>, q: seq<byte>)
    requires |p| % 3 == 0
    ensures Encode(p + q) == Encode(p) + Encode(q)
  {
    hide EncodeGroup;
    if p == [] {
      assert p + q == q;
    } else {
      assert (p + q)[..3] == p[..3] && (p + q)[3..] == p[3..] + q;
      EncodeAppends(p[3..], q);
    }
  }

  /** The four symbols of the text that round `q` and the padding write. */
  lemma RoundOf(src: seq<byte>, q: nat)
    requires 3 * q < |src|
    ensures var end := if 3 * q + 3 <= |src| then 3 * q + 3 else |src|;
            && 4 * q + 4 <= |Encode(src)|
            && Encode(src)[4 * q..4 * q + 4] == EncodeGroup(src[3 * q..end])
            && (3 * q + 3 >= |src| ==> |Encode(src)| == 4 * q + 4)
  {
    hide EncodeGroup;
    var i := 3 * q;
    var rest := src[i..];
    assert src == src[..i] + rest;
    EncodeAppends(src[..i], rest);
    EncodeLength(src[..i]);
    EncodeLength(rest);
    var end := if i + 3 <= |src| then i + 3 else |src|;
    assert src[i..end] == rest[..end - i];
    assert Encode(rest)[..4] == EncodeGroup(src[i..end]);
    hide Encode;
    assert |Encode(src[..i])| == 4 * q;
    SliceBehind(Encode(src[..i]), Encode(rest));
  }

  lemma SliceBehind(a: string, b: string)
    requires |b| >= 4
    ensures (a + b)[|a|..|a| + 4] == b[..4]
  {
  }

  /** Where the loop ends inside the last group, padding follows. */
  lemma PaddedFrom(src: seq<byte>, j: nat)
    requires |src| % 3 != 0
    requires |Encode(src)| - (3 - |src| % 3) <= j < |Encode(src)|
    ensures Encode(src)[j] == '='
  {
    hide Symbol, Encode;
    var q := |src| / 3;
    RoundOf(src, q);
    var k, g := 4 * q, src[3 * q..|src|];
    assert Encode(src)[j] == Encode(src)[k..k + 4][j - k] == EncodeGroup(g)[j - k];
    assert |g| == |src| % 3 && j - k > |g|;
  }

  /** `base64_encode`: the symbols of each group in turn, padding, and a terminating NUL. */
  method EncodeInto(src: seq<byte>, dst: array<char>)
    requires dst.Length > 4 * ((|src| + 2) / 3)
    modifies dst
    ensures var n := 4 * ((|src| + 2) / 3);
            dst[..n] == Encode(src) && dst[n] == '\0' && Decode(dst[..n]) == Records.Some(src)
  {
    hide Encode, Decode, Symbol;
    RoundTrip(src);
    ghost var text := Encode(src);
    var i, j := 0, 0;
    ghost var q := 0;
    while i < |src|
      invariant 0 <= j <= |text| && dst[..j] == text[..j]
      invariant i == 3 * q < |src| + 3
      invariant j == if i <= |src| then 4 * q else |text| - (i - |src|)
      invariant i >= |src| ==> |text| == 4 * q
    {
      RoundOf(src, q);
      j := EncodeRound(src, i, dst, j, text);
      i := i + 3;
      q := q + 1;
    }
    EndOfRounds(|src|, q);
    j := PadFrom(src, dst, j);
    dst[j] := '\0';
    assert dst[..|text|] == text;
  }

  lemma EndOfRounds(n: nat, q: nat)
    requires n <= 3 * q < n + 3
    ensures 3 * q - n == if n % 3 == 0 then 0 else 3 - n % 3
    ensures 4 * q % 4 == 0
  {
  }

  /** The padding loop. */
  method PadFrom(src: seq<byte>, dst: array<char>, at: nat) returns (j: nat)
    requires dst.Length > |Encode(src)| && |Encode(src)| % 4 == 0
    requires at <= |Encode(src)| && dst[..at] == Encode(src)[..at]
    requires |Encode(src)| - at <= if |src| % 3 == 0 then 0 else 3 - |src| % 3
    modifies dst
    ensures j == |Encode(src)| && dst[..j] == Encode(src)
  {
    hide Encode;
    ghost var text := Encode(src);
    j := at;
    while j % 4 != 0
      invariant at <= j <= |text| && dst[..j] == text[..j]
      decreases |text| - j
    {
      PaddedFrom(src, j);
      dst[j] := '=';
      j := j + 1;
    }
  }

  /** The four indices cut out of three octets with shifts, masks and ors. */
  method Sextets(a: byte, b: byte, c: byte) returns (p: nat, q: nat, r: nat, s: nat)
    ensures p == a / 4 && q == a % 4 * 16 + b / 16 && r == b % 16 * 4 + c / 64 && s == c % 64
  {
    RightShifts(a);
    Mask6(c);
    hide Shr, SecondSextet, ThirdSextet, AndBits, Pow2;
    p, q, r, s := Shr(a, 2), SecondSextet(a, b), ThirdSextet(b, c), AndBits(c, 63, 32);
  }

  /** One turn of the encoding loop. */
  method EncodeRound(src: seq<byte>, i: nat, dst: array<char>, at: nat, ghost text: string) returns (j: nat)
    requires i < |src| && at + 4 <= |text| < dst.Length && dst[..at] == text[..at]
    requires text[at..at + 4] == EncodeGroup(src[i..if i + 3 <= |src| then i + 3 else |src|])
    modifies dst
    ensures j == at + 2 + (if i + 1 < |src| then 1 else 0) + (if i + 2 < |src| then 1 else 0)
    ensures dst[..j] == text[..j]
  {
    hide Symbol;
    j := at;
    var a := src[i];
    var b := if i + 1 >= |src| then 0 else src[i + 1];
    var c := if i + 2 >= |src| then 0 else src[i + 2];
    ghost var g := text[at..at + 4];
    assert text[at] == g[0] && text[at + 1] == g[1] && text[at + 2] == g[2] && text[at + 3] == g[3];
    var p, q, r, s := Sextets(a, b, c);
    dst[j] := Symbol(p);
    j := j + 1;
    dst[j] := Symbol(q);
    j := j + 1;
    assert dst[..j] == text[..j];
    if i + 1 < |src| {
      dst[j] := Symbol(r);
      j := j + 1;
      assert dst[..j] == text[..j];
    }
    if i + 2 < |src| {
      dst[j] := Symbol(s);
      j := j + 1;
      assert dst[..j] == text[..j];
    }
  }
}
