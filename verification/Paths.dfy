/** The request path: cleaning it of empty, `.` and `..` segments where it stands. */
module Paths {
  import opened Percent
  import opened Words

  const SLASH := 47
  const BACKSLASH := 92
  const DOT := 46

  predicate Slash(c: byte) { c == SLASH || c == BACKSLASH }

  // ---------------------------------------------------------------------
  // The cleaner on values.

  /** What may not follow a slash: another slash, `./`, `../` or a final `..`. */
  predicate Bad(t: seq<byte>) {
    || (|t| >= 1 && Slash(t[0]))
    || (|t| >= 2 && t[0] == DOT && Slash(t[1]))
    || (|t| >= 3 && t[0] == DOT && t[1] == DOT && Slash(t[2]))
    || t == [DOT, DOT]
  }

  /** How much of a bad text the inner loop steps over at once. */
  function Stride(t: seq<byte>): (n: nat)
    requires Bad(t)
    ensures 1 <= n <= |t|
  {
    if Slash(t[0]) then 1 else if |t| == 2 || Slash(t[1]) then 2 else 3
  }

  function Skip(t: seq<byte>): (u: seq<byte>)
    ensures !Bad(u) && |u| <= |t|
    decreases |t|
  {
    if Bad(t) then Skip(t[Stride(t)..]) else t
  }

  function Clean(s: seq<byte>): (r: seq<byte>)
    ensures |r| <= |s|
    decreases |s|
  {
    if s == [] then [] else [s[0]] + Clean(if Slash(s[0]) then Skip(s[1..]) else s[1..])
  }

  // ---------------------------------------------------------------------
  // Its result is a normal form.

  predicate Normal(r: seq<byte>) {
    forall i :: 0 <= i < |r| && Slash(r[i]) ==> !Bad(r[i + 1..])
  }

  lemma CleanNotBad(u: seq<byte>)
    requires !Bad(u)
    ensures !Bad(Clean(u))
  {
    if |u| >= 1 {
      CleanPlain(u);
      if |u| >= 2 && !Slash(u[1]) {
        CleanPlain(u[1..]);
        assert Clean(u)[1] == u[1];
        if |u| >= 3 && !Slash(u[2]) {
          CleanPlain(u[2..]);
          assert Clean(u)[2] == u[2];
        }
      }
    }
  }

  lemma CleanPlain(u: seq<byte>)
    requires |u| >= 1
    ensures |Clean(u)| >= 1 && Clean(u)[0] == u[0]
    ensures Clean(u) == [u[0]] + Clean(if Slash(u[0]) then Skip(u[1..]) else u[1..])
  {
  }

  lemma NormalCons(c: byte, r: seq<byte>)
    requires Normal(r) && (Slash(c) ==> !Bad(r))
    ensures Normal([c] + r)
  {
    var t := [c] + r;
    forall i | 0 <= i < |t| && Slash(t[i]) ensures !Bad(t[i + 1..]) {
      if i == 0 {
        assert t[1..] == r;
      } else {
        assert r[i - 1] == t[i] && t[i + 1..] == r[i..];
      }
    }
  }

  lemma {:induction false} CleanIsNormal(s: seq<byte>)
    ensures Normal(Clean(s))
    decreases |s|
  {
    hide Bad, Normal;
    if s == [] {
      NothingNormal();
    } else {
      var rest := if Slash(s[0]) then Skip(s[1..]) else s[1..];
      CleanIsNormal(rest);
      if Slash(s[0]) { CleanNotBad(rest); }
      NormalCons(s[0], Clean(rest));
    }
  }

  lemma NothingNormal()
    ensures Normal([])
  {
  }

  /** The cleaner changes exactly the paths that are not in normal form. */
  lemma CleanFixes(s: seq<byte>)
    ensures Clean(s) == s <==> Normal(s)
  {
    if Normal(s) { NormalIsFixed(s); } else { CleanIsNormal(s); }
  }

  lemma {:induction false} NormalIsFixed(s: seq<byte>)
    requires Normal(s)
    ensures Clean(s) == s
  {
    if s != [] {
      assert forall i :: 0 <= i < |s[1..]| ==> s[1..][i] == s[i + 1] && s[1..][i + 1..] == s[i + 2..];
      NormalIsFixed(s[1..]);
    }
  }

  /** Cleaning twice is cleaning once. */
  lemma CleanTwice(s: seq<byte>)
    ensures Clean(Clean(s)) == Clean(s)
  {
    CleanIsNormal(s);
    NormalIsFixed(Clean(s));
  }

  predicate Subsequence(a: seq<byte>, b: seq<byte>) {
    a == [] || (b != [] && ((a[0] == b[0] && Subsequence(a[1..], b[1..])) || Subsequence(a, b[1..])))
  }

  lemma {:induction false} SubsequenceDrop(a: seq<byte>, b: seq<byte>, n: nat)
    requires n <= |b| && Subsequence(a, b[n..])
    ensures Subsequence(a, b)
  {
    if n == 0 {
      assert b[0..] == b;
    } else {
      assert b[1..][n - 1..] == b[n..];
      SubsequenceDrop(a, b[1..], n - 1);
    }
  }

  lemma {:induction false} SkipDrops(t: seq<byte>) returns (n: nat)
    ensures n <= |t| && Skip(t) == t[n..]
    decreases |t|
  {
    if Bad(t) {
      var m := SkipDrops(t[Stride(t)..]);
      n := Stride(t) + m;
      assert t[Stride(t)..][m..] == t[n..];
    } else {
      n := 0;
      assert t[0..] == t;
    }
  }

  /** The cleaner only removes octets. */
  lemma {:induction false} CleanIsSubsequence(s: seq<byte>)
    ensures Subsequence(Clean(s), s)
    decreases |s|
  {
    hide Bad, Skip, Stride;
    if s != [] {
      var rest := if Slash(s[0]) then Skip(s[1..]) else s[1..];
      CleanIsSubsequence(rest);
      if Slash(s[0]) {
        var n := SkipDrops(s[1..]);
        SubsequenceDrop(Clean(rest), s[1..], n);
      }
      assert Clean(s)[1..] == Clean(rest);
    }
  }

  // ---------------------------------------------------------------------
  // The same path segment by segment.

  /** The end of the first segment. */
  function SegmentEnd(s: seq<byte>): (e: nat)
    ensures e <= |s| && (e < |s| ==> Slash(s[e]))
    ensures forall k :: 0 <= k < e ==> !Slash(s[k])
  {
    if s == [] || Slash(s[0]) then 0 else 1 + SegmentEnd(s[1..])
  }

  /** A segment that names the directory it is in, or the one above. */
  predicate Idle(segment: seq<byte>) { segment == [] || segment == [DOT] || segment == [DOT, DOT] }

  /** The first segment stays; of the others the idle ones go, with the slash after them.
      A final `.` stays and a final `..` goes. */
  function Resolve(s: seq<byte>): (r: seq<byte>) {
    var e := SegmentEnd(s);
    if e == |s| then s else s[..e + 1] + ResolveLater(s[e + 1..])
  }

  function ResolveLater(t: seq<byte>): (r: seq<byte>)
    decreases |t|
  {
    var e := SegmentEnd(t);
    if e == |t| then (if t == [DOT, DOT] then [] else t)
    else if Idle(t[..e]) then ResolveLater(t[e + 1..])
    else t[..e + 1] + ResolveLater(t[e + 1..])
  }

  /** The cleaner copies a segment and the slash after it, then skips. */
  lemma {:induction false} CleanSegment(s: seq<byte>)
    ensures var e := SegmentEnd(s);
            Clean(s) == if e == |s| then s else s[..e + 1] + Clean(Skip(s[e + 1..]))
  {
    hide Skip, Clean, Slash;
    if s == [] {
      CleanNothing();
    } else if Slash(s[0]) {
      CleanPlain(s);
      assert s[..1] == [s[0]];
    } else {
      CleanPlain(s);
      CleanSegment(s[1..]);
      var e := SegmentEnd(s);
      if e < |s| {
        assert s[1..][e..] == s[e + 1..];
        TakeCons(s, e, Clean(Skip(s[e + 1..])));
      } else {
        assert s == [s[0]] + s[1..];
      }
    }
  }

  lemma TakeCons(s: seq<byte>, e: nat, x: seq<byte>)
    requires e < |s|
    ensures [s[0]] + (s[1..][..e] + x) == s[..e + 1] + x
  {
  }

  /** Skipping steps over whole idle segments. */
  lemma SkipSegment(t: seq<byte>)
    ensures var e := SegmentEnd(t);
            && (e < |t| && Idle(t[..e]) ==> Skip(t) == Skip(t[e + 1..]))
            && (e < |t| && !Idle(t[..e]) ==> Skip(t) == t)
            && (e == |t| ==> Skip(t) == if t == [DOT, DOT] then [] else t)
  {
    hide Skip, Bad, Idle;
    var e := SegmentEnd(t);
    SkipOne(t);
    if e == |t| {
      LastSegment(t);
      SkipNothing();
    } else if Idle(t[..e]) {
      IdleSegment(t, e);
    } else {
      NotIdle(t, e);
    }
  }

  lemma LastSegment(t: seq<byte>)
    requires SegmentEnd(t) == |t|
    ensures Bad(t) <==> t == [DOT, DOT]
    ensures Bad(t) ==> t[Stride(t)..] == []
  {
  }

  lemma IdleSegment(t: seq<byte>, e: nat)
    requires e == SegmentEnd(t) < |t| && Idle(t[..e])
    ensures Bad(t) && Stride(t) == e + 1
  {
    if e == 1 {
      assert t[0] == t[..e][0];
    } else if e == 2 {
      assert t[0] == t[..e][0] && t[1] == t[..e][1];
    }
  }

  lemma NotIdle(t: seq<byte>, e: nat)
    requires e == SegmentEnd(t) < |t| && !Idle(t[..e])
    ensures !Bad(t)
  {
    if e == 1 {
      assert t[..e] == [t[0]];
    } else if e == 2 {
      assert t[..e] == [t[0], t[1]];
    }
  }

  lemma {:induction false} CleanSkipped(t: seq<byte>)
    ensures Clean(Skip(t)) == ResolveLater(t)
    decreases |t|
  {
    hide Idle, Skip, Bad, Clean, SegmentEnd;
    var e := SegmentEnd(t);
    SkipSegment(t);
    CleanSegment(t);
    if e < |t| {
      CleanSkipped(t[e + 1..]);
    } else if t == [DOT, DOT] {
      CleanNothing();
    }
  }

  lemma CleanNothing()
    ensures Clean([]) == []
  {
  }

  /** The one-pass cleaner resolves the path segment by segment. */
  lemma CleanResolves(s: seq<byte>)
    ensures Clean(s) == Resolve(s)
  {
    hide Skip, Bad, Clean, ResolveLater, SegmentEnd;
    CleanSegment(s);
    var e := SegmentEnd(s);
    if e < |s| { CleanSkipped(s[e + 1..]); }
  }

  // ---------------------------------------------------------------------
  // Which `..` segments survive.

  function Segments(s: seq<byte>): (segments: seq<seq<byte>>)
    ensures segments != []
    decreases |s|
  {
    var e := SegmentEnd(s);
    if e == |s| then [s] else [s[..e]] + Segments(s[e + 1..])
  }

  lemma SegmentsCons(s: seq<byte>, r: seq<byte>)
    requires SegmentEnd(s) < |s|
    ensures var e := SegmentEnd(s);
            Segments(s[..e + 1] + r) == [s[..e]] + Segments(r)
  {
    var e := SegmentEnd(s);
    var t := s[..e + 1] + r;
    SegmentEndIs(t, e);
    assert t[..e] == s[..e] && t[e + 1..] == r;
  }

  lemma {:induction false} SegmentEndIs(s: seq<byte>, e: nat)
    requires e < |s| && Slash(s[e]) && forall k :: 0 <= k < e ==> !Slash(s[k])
    ensures SegmentEnd(s) == e
  {
    if e > 0 { SegmentEndIs(s[1..], e - 1); }
  }

  lemma {:induction false} LaterHasNone(t: seq<byte>)
    ensures [DOT, DOT] !in Segments(ResolveLater(t))
    decreases |t|
  {
    hide SegmentEnd;
    var e := SegmentEnd(t);
    if e == |t| {
      SegmentsOfOne(if t == [DOT, DOT] then [] else t);
    } else {
      LaterHasNone(t[e + 1..]);
      if !Idle(t[..e]) { SegmentsCons(t, ResolveLater(t[e + 1..])); }
    }
  }

  lemma SegmentsOfOne(t: seq<byte>)
    ensures SegmentEnd(t) == |t| ==> Segments(t) == [t]
    ensures SegmentEnd([]) == 0
  {
  }

  /** A `..` segment is left after cleaning if and only if it is the first segment. */
  lemma DotDotLeft(s: seq<byte>)
    ensures [DOT, DOT] in Segments(Clean(s)) <==> Segments(s)[0] == [DOT, DOT]
  {
    hide Clean, ResolveLater, SegmentEnd;
    CleanResolves(s);
    var e := SegmentEnd(s);
    if e == |s| {
      SegmentsOfOne(s);
    } else {
      var r := ResolveLater(s[e + 1..]);
      SegmentsCons(s, r);
      LaterHasNone(s[e + 1..]);
    }
  }

  // ---------------------------------------------------------------------
  // The cleaner in place.

  /** The tests of the inner loop on the terminated text `u` at position `s`: how far it
      steps, or zero when it stops.  No octet after the terminator is read. */
  method StepOver(a: array<byte>, s: nat, ghost u: seq<byte>) returns (n: nat)
    requires u != [] && s + |u| < a.Length && a[s..s + |u|] == u && a[s + |u|] == 0 && 0 !in u
    ensures n == if Bad(u) then Stride(u) else 0
  {
    assert forall k :: 0 <= k < |u| ==> u[k] == a[s + k] && u[k] in u;
    if Slash(a[s]) {
      n := 1;
    } else if a[s] == DOT && Slash(a[s + 1]) {
      n := 2;
    } else if a[s] == DOT && a[s + 1] == DOT && a[s + 2] == 0 {
      n := 2;
    } else if a[s] == DOT && a[s + 1] == DOT && Slash(a[s + 2]) {
      n := 3;
    } else {
      n := 0;
    }
  }

  /** The inner loop: `t` is the terminated text from position `s` on. */
  method SkipFrom(a: array<byte>, s: nat, ghost t: seq<byte>) returns (next: nat)
    requires s + |t| < a.Length && a[s..s + |t|] == t && a[s + |t|] == 0 && 0 !in t
    ensures s <= next <= s + |t| && t[next - s..] == Skip(t)
  {
    hide Skip, Bad;
    next := s;
    ghost var end := s + |t|;
    assert t[0..] == t;
    while a[next] != 0
      invariant s <= next <= end && Skip(t[next - s..]) == Skip(t)
      decreases end - next
    {
      ghost var u := t[next - s..];
      SkipOne(u);
      assert a[next..end] == u;
      var n := StepOver(a, next, u);
      if n == 0 { return; }
      assert u[n..] == t[next + n - s..];
      next := next + n;
    }
    SkipNothing();
    ZeroIsEnd(a[s..end + 1], t, next - s);
  }

  lemma ZeroIsEnd(z: seq<byte>, t: seq<byte>, k: nat)
    requires k <= |t| && |z| == |t| + 1 && z[..|t|] == t && 0 !in t && z[k] == 0
    ensures k == |t| && t[k..] == []
  {
    assert forall i :: 0 <= i < |t| ==> z[i] == z[..|t|][i] && t[i] in t;
  }

  lemma SkipOne(u: seq<byte>)
    ensures Skip(u) == if Bad(u) then Skip(u[Stride(u)..]) else u
  {
  }

  lemma SkipNothing()
    ensures Skip([]) == []
  {
  }

  /** One turn of the outer loop. */
  lemma CleanOne(text: seq<byte>, s: nat, done: seq<byte>)
    requires s < |text|
    ensures var rest := if Slash(text[s]) then Skip(text[s + 1..]) else text[s + 1..];
            done + Clean(text[s..]) == (done + [text[s]]) + Clean(rest)
  {
    hide Skip;
    var t := text[s..];
    assert t[0] == text[s] && t[1..] == text[s + 1..];
    var rest := if Slash(text[s]) then Skip(text[s + 1..]) else text[s + 1..];
    assert done + ([t[0]] + Clean(rest)) == (done + [t[0]]) + Clean(rest);
  }

  /** `remove_double_dots_and_double_slashes`, on a terminated string of `n` octets. */
  method CleanInPlace(a: array<byte>, ghost n: nat) returns (p: nat)
    requires n < a.Length && a[n] == 0 && 0 !in a[..n]
    modifies a
    ensures p <= n && a[..p] == Clean(old(a[..n])) && a[p] == 0
    ensures forall k :: n < k < a.Length ==> a[k] == old(a[k])
  {
    hide Clean, Skip, Slash;
    ghost var text := a[..n];
    var s := 0;
    p := 0;
    assert text[0..] == text;
    while a[s] != 0
      invariant p <= s <= n
      invariant a[..p] + Clean(text[s..]) == Clean(text)
      invariant forall k :: s <= k < a.Length ==> a[k] == old(a[k])
      decreases n - s
    {
      CleanOne(text, s, a[..p]);
      ghost var done := a[..p];
      a[p] := a[s];
      p, s := p + 1, s + 1;
      assert a[..p] == done + [text[s - 1]];
      s := NextFrom(a, s, text);
    }
    assert s == n by { TextEnd(old(a[..n + 1]), n, s); }
    CleanNothing();
    assert text[n..] == [];
    a[p] := 0;
  }

  /** Where the outer loop goes on after copying the octet before `s`. */
  method NextFrom(a: array<byte>, s: nat, ghost text: seq<byte>) returns (next: nat)
    requires 0 < s <= |text| < a.Length && a[|text|] == 0 && 0 !in text
    requires a[s - 1] == text[s - 1] && a[s..|text|] == text[s..]
    ensures s <= next <= |text|
    ensures text[next..] == if Slash(text[s - 1]) then Skip(text[s..]) else text[s..]
  {
    hide Skip, Slash;
    next := s;
    if Slash(a[s - 1]) {
      ghost var u := text[s..];
      next := SkipFrom(a, s, u);
      assert u[next - s..] == text[next..];
    }
  }

  lemma TextEnd(z: seq<byte>, n: nat, s: nat)
    requires s <= n < |z| && z[s] == 0 && 0 !in z[..n]
    ensures s == n
  {
    assert forall i :: 0 <= i < n ==> z[i] == z[..n][i] && z[i] in z[..n];
  }

  /** A C string: the octets before the first zero. */
  function Terminated(s: seq<byte>): (r: seq<byte>)
    ensures r <= s && 0 !in r && (r == s || (|r| < |s| && s[|r|] == 0))
  {
    if s == [] || s[0] == 0 then [] else [s[0]] + Terminated(s[1..])
  }

  /** What becomes of a request path of `n` octets: it is decoded and, when it starts with a
      slash or a dot, cleaned, all in the same block. */
  method ReadPath(uri: array<byte>, n: nat) returns (r: nat)
    requires n < uri.Length
    modifies uri
    ensures r <= n && uri[r] == 0
    ensures var path := Terminated(Decode(old(uri[..n]), false));
            uri[..r] == if path != [] && path[0] in {SLASH, DOT} then Resolve(path) else path
  {
    hide Decode, Resolve, Clean, Terminated;
    r := DecodeInPlace(uri, n);
    ghost var text := uri[..r];
    ghost var path := Terminated(text);
    var m := 0;
    while uri[m] != 0
      invariant 0 <= m <= r && 0 !in uri[..m]
      decreases r - m
    {
      m := m + 1;
    }
    FirstZero(uri[..r + 1], m);
    assert uri[..r + 1][..r] == text && uri[..r + 1][..m] == uri[..m];
    r := m;
    if uri[0] == SLASH || uri[0] == DOT {
      CleanResolves(path);
      r := CleanInPlace(uri, m);
    }
  }

  lemma {:induction false} FirstZero(z: seq<byte>, m: nat)
    requires m < |z| && z[m] == 0 && 0 !in z[..m] && z[|z| - 1] == 0
    ensures Terminated(z[..|z| - 1]) == z[..m]
  {
    if m > 0 {
      assert z[0] == z[..m][0];
      assert z[..m] == [z[0]] + z[1..][..m - 1];
      FirstZero(z[1..], m - 1);
      assert z[..|z| - 1][1..] == z[1..][..|z| - 2];
    }
  }
}
