/** The glob matcher `mg_match_prefix`. */
module Glob {
  import opened Percent
  import opened Words

  const STAR := 42
  const QUESTION := 63
  const DOLLAR := 36
  const BAR := 124
  const SLASH := 47

  // ---------------------------------------------------------------------
  // The pattern language.

  /** A star before a star stands for any text, a star alone for text without a slash. */
  function StarWidth(p: seq<byte>): (w: nat)
    requires p != []
    ensures 1 <= w <= |p|
  {
    if |p| >= 2 && p[1] == STAR then 2 else 1
  }

  function NoSlash(s: seq<byte>): (n: nat)
    ensures n <= |s| && (n < |s| ==> s[n] == SLASH) && forall k :: 0 <= k < n ==> s[k] != SLASH
  {
    if s == [] || s[0] == SLASH then 0 else 1 + NoSlash(s[1..])
  }

  function Span(p: seq<byte>, s: seq<byte>): (n: nat)
    requires p != []
    ensures n <= |s|
  {
    if StarWidth(p) == 2 then |s| else NoSlash(s)
  }

  /** The first `r` octets of `s` are described by the pattern `p`. */
  ghost predicate Matches(p: seq<byte>, s: seq<byte>, r: nat)
    requires r <= |s|
    decreases |p|
  {
    if p == [] then r == 0
    else if p[0] == DOLLAR then s == []
    else if p[0] == STAR then
      exists k: nat :: k <= Span(p, s) && k <= r && Matches(p[StarWidth(p)..], s[k..], r - k)
    else r > 0 && (p[0] == QUESTION || Lower(p[0]) == Lower(s[0])) && Matches(p[1..], s[1..], r - 1)
  }

  ghost predicate Matchable(p: seq<byte>, s: seq<byte>) {
    exists r: nat :: r <= |s| && Matches(p, s, r)
  }

  // ---------------------------------------------------------------------
  // The matcher on values.

  function Shift(r: int, n: nat): (q: int) { if r == -1 then -1 else n + r }

  /** The answer for a pattern without bars: backtracking over the spans of each star,
      longest first. */
  function Match(p: seq<byte>, s: seq<byte>): (r: int)
    ensures -1 <= r <= |s|
    decreases |p|, 0, 0
  {
    if p == [] then 0
    else if p[0] == DOLLAR then (if s == [] then 0 else -1)
    else if p[0] == STAR then
      var rest := p[StarWidth(p)..];
      if rest == [] then Span(p, s) else Backtrack(rest, s, Span(p, s))
    else if s == [] || !(p[0] == QUESTION || Lower(p[0]) == Lower(s[0])) then -1
    else Shift(Match(p[1..], s[1..]), 1)
  }

  function Backtrack(rest: seq<byte>, s: seq<byte>, len: nat): (r: int)
    requires len <= |s|
    ensures -1 <= r <= |s|
    decreases |rest|, 1, len
  {
    var r := Match(rest, s[len..]);
    if r != -1 then len + r else if len == 0 then -1 else Backtrack(rest, s, len - 1)
  }

  // ---------------------------------------------------------------------
  // Soundness and completeness.

  /** Any answer other than -1 is the length of a match. */
  lemma {:induction false} Sound(p: seq<byte>, s: seq<byte>)
    requires Match(p, s) >= 0
    ensures Matches(p, s, Match(p, s))
    decreases |p|, 0, 0
  {
    hide Span, StarWidth;
    if p == [] || p[0] == DOLLAR {
    } else if p[0] == STAR {
      var rest := p[StarWidth(p)..];
      if rest == [] {
        assert Matches(rest, s[Span(p, s)..], 0);
      } else {
        var k := BacktrackSound(rest, s, Span(p, s));
      }
    } else {
      Sound(p[1..], s[1..]);
    }
  }

  /** Backtracking stops at the longest span after which the rest of the pattern matches. */
  lemma {:induction false} BacktrackSound(rest: seq<byte>, s: seq<byte>, len: nat) returns (k: nat)
    requires len <= |s| && Backtrack(rest, s, len) >= 0
    ensures k <= len && Backtrack(rest, s, len) == k + Match(rest, s[k..]) && Match(rest, s[k..]) >= 0
    ensures Matches(rest, s[k..], Match(rest, s[k..]))
    ensures forall i :: k < i <= len ==> Match(rest, s[i..]) == -1
    decreases |rest|, 1, len
  {
    if Match(rest, s[len..]) != -1 {
      k := len;
      Sound(rest, s[len..]);
    } else {
      k := BacktrackSound(rest, s, len - 1);
    }
  }

  /** The answer -1 means that no first part of the text matches. */
  lemma {:induction false} Complete(p: seq<byte>, s: seq<byte>, r: nat)
    requires r <= |s| && Matches(p, s, r)
    ensures Match(p, s) >= 0
    decreases |p|
  {
    hide Span, StarWidth;
    if p == [] || p[0] == DOLLAR {
    } else if p[0] == STAR {
      var rest := p[StarWidth(p)..];
      var k: nat :| k <= Span(p, s) && k <= r && Matches(rest, s[k..], r - k);
      Complete(rest, s[k..], r - k);
      BacktrackComplete(rest, s, Span(p, s), k);
    } else {
      Complete(p[1..], s[1..], r - 1);
    }
  }

  lemma {:induction false} BacktrackComplete(rest: seq<byte>, s: seq<byte>, len: nat, k: nat)
    requires k <= len <= |s| && Match(rest, s[k..]) >= 0
    ensures Backtrack(rest, s, len) >= 0
  {
    if Match(rest, s[len..]) == -1 { BacktrackComplete(rest, s, len - 1, k); }
  }

  /** The matcher decides the language. */
  lemma MatchDecides(p: seq<byte>, s: seq<byte>)
    ensures Match(p, s) >= 0 <==> Matchable(p, s)
    ensures Match(p, s) >= 0 ==> Matches(p, s, Match(p, s))
  {
    hide Match, Matches;
    if Match(p, s) >= 0 {
      Sound(p, s);
    } else if Matchable(p, s) {
      var r: nat :| r <= |s| && Matches(p, s, r);
      Complete(p, s, r);
    }
  }

  /** A star takes the longest span after which the rest still matches. */
  lemma StarIsGreedy(p: seq<byte>, s: seq<byte>) returns (k: nat)
    requires p != [] && p[0] == STAR && Match(p, s) >= 0
    ensures var rest := p[StarWidth(p)..];
            && k <= Span(p, s) && Matchable(rest, s[k..]) && Match(p, s) == k + Match(rest, s[k..])
            && forall i :: k < i <= Span(p, s) ==> !Matchable(rest, s[i..])
  {
    hide Span, StarWidth, Matches;
    var rest := p[StarWidth(p)..];
    if rest == [] {
      k := Span(p, s);
      MatchDecides(rest, s[k..]);
    } else {
      k := BacktrackSound(rest, s, Span(p, s));
      MatchDecides(rest, s[k..]);
      forall i | k < i <= Span(p, s) ensures !Matchable(rest, s[i..]) {
        MatchDecides(rest, s[i..]);
      }
    }
  }

  // ---------------------------------------------------------------------
  // Alternatives.

  function BarAt(p: seq<byte>): (b: nat)
    ensures b <= |p| && (b < |p| ==> p[b] == BAR) && forall k :: 0 <= k < b ==> p[k] != BAR
  {
    if p == [] || p[0] == BAR then 0 else 1 + BarAt(p[1..])
  }

  function Alternatives(p: seq<byte>): (alts: seq<seq<byte>>)
    ensures |alts| > 0
    decreases |p|
  {
    var b := BarAt(p);
    if b == |p| then [p] else [p[..b]] + Alternatives(p[b + 1..])
  }

  /** The answer for any pattern: a positive answer of the first alternative, else the answer
      for the others. */
  function MatchAny(p: seq<byte>, s: seq<byte>): (r: int)
    ensures -1 <= r <= |s|
    decreases |p|
  {
    var b := BarAt(p);
    if b == |p| then Match(p, s)
    else if Match(p[..b], s) > 0 then Match(p[..b], s)
    else MatchAny(p[b + 1..], s)
  }

  /** The answer is that of the first alternative with a positive one, or of the last. */
  lemma {:induction false} WhichAlternative(p: seq<byte>, s: seq<byte>) returns (i: nat)
    ensures var alts := Alternatives(p);
            && i < |alts| && MatchAny(p, s) == Match(alts[i], s)
            && (forall k :: 0 <= k < i ==> Match(alts[k], s) <= 0)
            && (i < |alts| - 1 ==> Match(alts[i], s) > 0)
    decreases |p|
  {
    hide Match;
    var b := BarAt(p);
    if b == |p| || Match(p[..b], s) > 0 {
      i := 0;
    } else {
      var k := WhichAlternative(p[b + 1..], s);
      i := k + 1;
    }
  }

  /** Any answer other than -1 is the length of a match of some alternative. */
  lemma AnySound(p: seq<byte>, s: seq<byte>) returns (i: nat)
    requires MatchAny(p, s) >= 0
    ensures i < |Alternatives(p)| && Matches(Alternatives(p)[i], s, MatchAny(p, s))
  {
    hide Match, Matches, Alternatives, MatchAny;
    i := WhichAlternative(p, s);
    Sound(Alternatives(p)[i], s);
  }

  ghost predicate SomeMatchable(alts: seq<seq<byte>>, s: seq<byte>) {
    exists i :: 0 <= i < |alts| && Matchable(alts[i], s)
  }

  /** When the answer is zero, every match is empty. */
  lemma {:induction false} ZeroIsOnly(p: seq<byte>, s: seq<byte>, r: nat)
    requires Match(p, s) == 0 && r <= |s| && Matches(p, s, r)
    ensures r == 0
    decreases |p|
  {
    if p != [] && p[0] == STAR {
      var k := MatchStarts(p, s, r);
      hide Match, Matches, Span, StarWidth;
      var rest := p[StarWidth(p)..];
      if rest == [] {
        StarAlone(p, s, r, k);
      } else {
        StarIsZero(p, s, k, r - k);
        assert s[0..] == s;
        ZeroIsOnly(rest, s, r);
      }
    }
  }

  lemma MatchStarts(p: seq<byte>, s: seq<byte>, r: nat) returns (k: nat)
    requires p != [] && p[0] == STAR && r <= |s| && Matches(p, s, r)
    ensures k <= Span(p, s) && k <= r && Matches(p[StarWidth(p)..], s[k..], r - k)
  {
    hide Span, StarWidth;
    k :| k <= Span(p, s) && k <= r && Matches(p[StarWidth(p)..], s[k..], r - k);
  }

  lemma StarAlone(p: seq<byte>, s: seq<byte>, r: nat, k: nat)
    requires p != [] && p[0] == STAR && p[StarWidth(p)..] == [] && Match(p, s) == 0
    requires k <= Span(p, s) && k <= r <= |s| && Matches([], s[k..], r - k)
    ensures r == 0
  {
    hide Span, StarWidth;
  }

  /** If the answer after a star is zero, no span but the empty one lets the rest match. */
  lemma StarIsZero(p: seq<byte>, s: seq<byte>, k: nat, r: nat)
    requires p != [] && p[0] == STAR && p[StarWidth(p)..] != [] && Match(p, s) == 0
    requires k <= Span(p, s) && r <= |s[k..]| && Matches(p[StarWidth(p)..], s[k..], r)
    ensures k == 0 && Match(p[StarWidth(p)..], s[0..]) == 0
  {
    hide Span, StarWidth, Matches, Backtrack;
    var rest := p[StarWidth(p)..];
    var longest := BacktrackSound(rest, s, Span(p, s));
    Complete(rest, s[k..], r);
  }

  /** The last alternative matches nothing, an earlier one does, and no earlier one matches
      more than the empty text. */
  ghost predicate OnlyEmptyEarlier(alts: seq<seq<byte>>, s: seq<byte>)
    requires |alts| > 0
  {
    var last := |alts| - 1;
    && !Matchable(alts[last], s)
    && SomeMatchable(alts[..last], s)
    && EarlierAreEmpty(alts, s)
  }

  ghost predicate EarlierAreEmpty(alts: seq<seq<byte>>, s: seq<byte>) {
    forall i, r: nat :: 0 <= i < |alts| - 1 && r <= |s| && Matches(alts[i], s, r) ==> r == 0
  }

  /** With several alternatives -1 means no match, except exactly when the only matches are
      empty ones of alternatives before the last. */
  lemma AnyComplete(p: seq<byte>, s: seq<byte>)
    ensures (MatchAny(p, s) >= 0 <==> SomeMatchable(Alternatives(p), s)) <==> !OnlyEmptyEarlier(Alternatives(p), s)
  {
    hide Match, Matches, Matchable, Alternatives, MatchAny, SomeMatchable, EarlierAreEmpty;
    var alts := Alternatives(p);
    var last := |alts| - 1;
    var which := WhichAlternative(p, s);
    MatchDecides(alts[which], s);
    EarlierAnswers(alts, s);
    SomeOfAll(alts, s, which);
  }

  lemma SomeOfAll(alts: seq<seq<byte>>, s: seq<byte>, i: nat)
    requires i < |alts|
    ensures Matchable(alts[i], s) ==> SomeMatchable(alts, s)
    ensures var last := |alts| - 1;
            SomeMatchable(alts, s) <==> SomeMatchable(alts[..last], s) || Matchable(alts[last], s)
  {
    hide Matchable;
    var last := |alts| - 1;
    assert forall k :: 0 <= k < last ==> alts[..last][k] == alts[k];
  }

  /** No earlier alternative matches more than the empty text exactly when none is answered
      with more than zero. */
  lemma EarlierAnswers(alts: seq<seq<byte>>, s: seq<byte>)
    requires |alts| > 0
    ensures EarlierAreEmpty(alts, s) <==> forall i :: 0 <= i < |alts| - 1 ==> Match(alts[i], s) <= 0
  {
    hide Match, Matches;
    if forall i :: 0 <= i < |alts| - 1 ==> Match(alts[i], s) <= 0 {
      forall i, r: nat | 0 <= i < |alts| - 1 && r <= |s| && Matches(alts[i], s, r) ensures r == 0 {
        Complete(alts[i], s, r);
        ZeroIsOnly(alts[i], s, r);
      }
    } else {
      var i :| 0 <= i < |alts| - 1 && Match(alts[i], s) > 0;
      Sound(alts[i], s);
    }
  }

  /** Such a case: the text is empty, the first alternative asks for just that, and the answer
      is -1. */
  lemma EmptyMatchIsLost()
    ensures MatchAny([DOLLAR, BAR, 120], []) == -1 && SomeMatchable(Alternatives([DOLLAR, BAR, 120]), [])
  {
    var p: seq<byte> := [DOLLAR, BAR, 120];
    assert BarAt(p) == 1 && p[..1] == [DOLLAR] && p[2..] == [120] && BarAt([120]) == 1;
    assert Match([120], []) == -1;
    assert Alternatives(p)[0] == [DOLLAR] && Matches([DOLLAR], [], 0) && Matchable([DOLLAR], []);
  }

  /** Without bars the matcher decides the language. */
  lemma PlainDecides(p: seq<byte>, s: seq<byte>)
    requires BAR !in p
    ensures MatchAny(p, s) >= 0 <==> Matchable(p, s)
    ensures MatchAny(p, s) >= 0 ==> Matches(p, s, MatchAny(p, s))
  {
    NoBar(p, s);
    MatchDecides(p, s);
  }

  lemma NoBar(p: seq<byte>, s: seq<byte>)
    requires BAR !in p
    ensures MatchAny(p, s) == Match(p, s)
  {
    assert forall k :: 0 <= k < |p| ==> p[k] in p;
  }

  // ---------------------------------------------------------------------
  // The matcher itself: `n` octets of the block `pat` from `at`, against the text of the
  // terminated block `z` from `from`.

  predicate Pattern(pat: seq<byte>, at: nat, n: nat) {
    at + n < |pat| && pat[at + n] != STAR && 0 !in pat[at..at + n]
  }

  predicate Text(z: seq<byte>, from: nat) {
    from < |z| && z[|z| - 1] == 0 && 0 !in z[..|z| - 1]
  }

  /** `mg_match_prefix`. */
  method MatchPrefix(pat: seq<byte>, at: nat, n: nat, z: seq<byte>, from: nat) returns (res: int)
    requires Pattern(pat, at, n) && Text(z, from)
    ensures res == MatchAny(pat[at..at + n], z[from..|z| - 1])
    decreases n, 2
  {
    hide Match, MatchAny, BarAt;
    ghost var p, s := pat[at..at + n], z[from..|z| - 1];
    var bar := FindBar(pat, at, n);
    AtBar(pat, at, n, bar, s);
    if bar < n {
      res := MatchPrefix(pat, at, bar, z, from);
      if res <= 0 {
        res := MatchPrefix(pat, at + bar + 1, n - bar - 1, z, from);
      }
    } else {
      res := MatchPlain(pat, at, n, z, from);
    }
  }

  /** Both sides of a bar are patterns, and their answers make up the whole one. */
  lemma AtBar(pat: seq<byte>, at: nat, n: nat, bar: nat, s: seq<byte>)
    requires Pattern(pat, at, n) && bar == BarAt(pat[at..at + n])
    ensures bar < n ==>
      && Pattern(pat, at, bar) && Pattern(pat, at + bar + 1, n - bar - 1)
      && MatchAny(pat[at..at + n], s) ==
         var r := MatchAny(pat[at..at + bar], s);
         if r > 0 then r else MatchAny(pat[at + bar + 1..at + n], s)
    ensures bar == n ==> BAR !in pat[at..at + n] && MatchAny(pat[at..at + n], s) == Match(pat[at..at + n], s)
  {
    hide Match;
    var p := pat[at..at + n];
    if bar < n {
      assert pat[at..at + bar] == p[..bar] && pat[at + bar + 1..at + n] == p[bar + 1..];
      assert pat[at + bar] == p[bar];
      NoBar(p[..bar], s);
    }
  }

  method FindBar(pat: seq<byte>, at: nat, n: nat) returns (bar: nat)
    requires at + n <= |pat|
    ensures bar == BarAt(pat[at..at + n])
  {
    bar := 0;
    ghost var p := pat[at..at + n];
    while bar < n && pat[at + bar] != BAR
      invariant bar <= n && forall k :: 0 <= k < bar ==> p[k] != BAR
    {
      assert p[bar] == pat[at + bar];
      bar := bar + 1;
    }
  }

  /** The loop over a pattern without bars. */
  method MatchPlain(pat: seq<byte>, at: nat, n: nat, z: seq<byte>, from: nat) returns (res: int)
    requires Pattern(pat, at, n) && Text(z, from) && BAR !in pat[at..at + n]
    ensures res == Match(pat[at..at + n], z[from..|z| - 1])
    decreases n, 1
  {
    hide Match, Span;
    ghost var p, s := pat[at..at + n], z[from..|z| - 1];
    var i, j := 0, 0;
    assert p[0..] == p && s[0..] == s;
    while i < n
      invariant i <= n && j <= |s| && Match(p, s) == Shift(Match(p[i..], s[j..]), j)
    {
      ghost var q, t := p[i..], s[j..];
      if q[0] != STAR { MatchOne(q, t); }
      TextAt(z, from + j);
      assert p[i] in p;
      assert pat[at + i] == q[0] && t == z[from + j..|z| - 1];
      if pat[at + i] == QUESTION && z[from + j] != 0 {
        assert q[1..] == p[i + 1..] && t[1..] == s[j + 1..];
      } else if pat[at + i] == DOLLAR {
        return if z[from + j] == 0 then j else -1;
      } else if pat[at + i] == STAR {
        assert q == pat[at + i..at + n];
        res := MatchStar(pat, at + i, n - i, z, from + j);
        return Shift(res, j);
      } else if Lower(pat[at + i]) != Lower(z[from + j]) {
        return -1;
      } else {
        assert q[1..] == p[i + 1..] && t[1..] == s[j + 1..];
      }
      i, j := i + 1, j + 1;
    }
    assert p[n..] == [];
    MatchNothing(s[j..]);
    res := j;
  }

  /** A star: its span, and then what `TryRest` finds. */
  method MatchStar(pat: seq<byte>, at: nat, n: nat, z: seq<byte>, from: nat) returns (res: int)
    requires n > 0 && Pattern(pat, at, n) && Text(z, from) && BAR !in pat[at..at + n] && pat[at] == STAR
    ensures res == Match(pat[at..at + n], z[from..|z| - 1])
    decreases n, 0
  {
    hide Backtrack;
    ghost var p, s := pat[at..at + n], z[from..|z| - 1];
    assert p[0] == STAR && (n >= 2 ==> p[1] == pat[at + 1]);
    var i, len := 1, 0;
    if pat[at + i] == STAR {
      i := i + 1;
      len := |z| - 1 - from;
    } else {
      len := FindSlash(z, from);
    }
    if i == n { return len; }
    assert pat[at + i..at + n] == p[i..];
    res := TryRest(pat, at + i, n - i, z, from, len);
  }

  /** `strcspn`. */
  method FindSlash(z: seq<byte>, from: nat) returns (len: nat)
    requires Text(z, from)
    ensures len == NoSlash(z[from..|z| - 1])
  {
    ghost var s := z[from..|z| - 1];
    len := 0;
    TextAt(z, from);
    while z[from + len] != 0 && z[from + len] != SLASH
      invariant len <= |s| && forall k :: 0 <= k < len ==> s[k] != SLASH
      decreases |s| - len
    {
      TextAt(z, from + len);
      assert s[len] == z[from + len];
      len := len + 1;
    }
    TextAt(z, from + len);
  }

  /** The loop that backtracks over the spans of a star. */
  method TryRest(pat: seq<byte>, at: nat, n: nat, z: seq<byte>, from: nat, span: nat) returns (res: int)
    requires Pattern(pat, at, n) && Text(z, from) && BAR !in pat[at..at + n] && from + span < |z|
    ensures res == Backtrack(pat[at..at + n], z[from..|z| - 1], span)
    decreases n, 3
  {
    hide Match, MatchAny;
    ghost var rest, s := pat[at..at + n], z[from..|z| - 1];
    var len := span;
    assert s[len..] == z[from + len..|z| - 1];
    NoBar(rest, s[len..]);
    res := MatchPrefix(pat, at, n, z, from + len);
    while res == -1 && len > 0
      invariant len <= span && res == Match(rest, s[len..])
      invariant Backtrack(rest, s, span) == Backtrack(rest, s, len)
    {
      len := len - 1;
      assert s[len..] == z[from + len..|z| - 1];
      NoBar(rest, s[len..]);
      res := MatchPrefix(pat, at, n, z, from + len);
    }
    res := if res == -1 then -1 else res + len;
  }

  lemma MatchOne(q: seq<byte>, t: seq<byte>)
    requires q != [] && q[0] != STAR
    ensures Match(q, t) ==
            if q[0] == DOLLAR then (if t == [] then 0 else -1)
            else if t == [] || !(q[0] == QUESTION || Lower(q[0]) == Lower(t[0])) then -1
            else Shift(Match(q[1..], t[1..]), 1)
  {
  }

  lemma MatchNothing(t: seq<byte>)
    ensures Match([], t) == 0
  {
  }

  lemma TextAt(z: seq<byte>, k: nat)
    requires Text(z, k)
    ensures z[k] == 0 <==> k == |z| - 1
  {
    assert k < |z| - 1 ==> z[k] in z[..|z| - 1];
  }
}
