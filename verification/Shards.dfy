/** What is left of a JSON text cut at the list separator, told from the texts before they
    were quoted and escaped. */
module Shards {
  import opened StringUtil
  import opened Records
  import opened JsonText

  lemma Assoc(a: string, b: string, c: string)
    ensures a + (b + c) == a + b + c
  {
  }

  // ---------------------------------------------------------------------
  // Escaped texts.

  /** A character that stands for itself inside quotes. */
  predicate Verbatim(c: char) { c as int >= 32 && c != '"' && c != '\\' }

  lemma EscapeIs(c: char)
    ensures if Verbatim(c) then Escape(c) == [c] else Escape(c)[0] == '\\'
    ensures c != '*' ==> '*' !in Escape(c)
    ensures '\n' !in Escape(c) && '\r' !in Escape(c)
  {
  }

  lemma EscapedStart(u: string, x: string)
    requires u != ""
    ensures var s := EscapeAll(u) + x;
            && |s| > 0 && s == Escape(u[0]) + (EscapeAll(u[1..]) + x)
            && s[0] == if Verbatim(u[0]) then u[0] else '\\'
  {
    hide Escape;
    EscapeIs(u[0]);
    Assoc(Escape(u[0]), EscapeAll(u[1..]), x);
    HeadOf(Escape(u[0]), EscapeAll(u[1..]) + x);
  }

  lemma HeadOf(a: string, t: string)
    requires a != ""
    ensures |a + t| > 0 && (a + t)[0] == a[0]
  {
  }

  lemma VerbatimStart(u: string, x: string)
    requires u != "" && Verbatim(u[0])
    ensures var s := EscapeAll(u) + x;
            s == [u[0]] + (EscapeAll(u[1..]) + x) && s[1..] == EscapeAll(u[1..]) + x
  {
    hide Escape, EscapeAll;
    EscapeIs(u[0]);
    EscapedStart(u, x);
    TailOf(u[0], EscapeAll(u[1..]) + x);
  }

  lemma TailOf(c: char, t: string)
    ensures ([c] + t)[1..] == t && ([c] + t)[0] == c && [c] + t != ""
  {
  }

  /** A text that goes on with a closing quote or not at all. */
  predicate Ends(x: string) { x == "" || x[0] == '"' }

  /** What stands next is told from the unescaped text. */
  lemma NextIs(u: string, x: string, c: char)
    requires Ends(x) && Verbatim(c)
    ensures var s := EscapeAll(u) + x; (s != "" && s[0] == c) <==> (u != "" && u[0] == c)
  {
    hide Escape;
    if u == "" { assert EscapeAll(u) + x == x; } else { EscapedStart(u, x); }
  }

  predicate AllVerbatim(w: string) { forall i :: 0 <= i < |w| ==> Verbatim(w[i]) }

  lemma {:induction false} WordIs(w: string, u: string, x: string)
    requires Ends(x) && AllVerbatim(w)
    ensures w <= EscapeAll(u) + x <==> w <= u
    ensures w <= u ==> EscapeAll(u) + x == w + (EscapeAll(u[|w|..]) + x)
  {
    hide EscapeAll;
    var s := EscapeAll(u) + x;
    if w == "" {
      assert u[0..] == u && "" + s == s;
    } else {
      NextIs(u, x, w[0]);
      if u != "" && u[0] == w[0] {
        VerbatimStart(u, x);
        WordIs(w[1..], u[1..], x);
        PrefixStep(w, u);
        PrefixStep(w, s);
        if w <= u {
          assert u[1..][|w| - 1..] == u[|w|..];
          assert w == [w[0]] + w[1..];
        }
      }
    }
  }

  lemma PrefixStep(w: string, u: string)
    requires w != "" && u != "" && w[0] == u[0]
    ensures w <= u <==> w[1..] <= u[1..]
  {
    assert w == [w[0]] + w[1..] && u == [u[0]] + u[1..];
    if w[1..] <= u[1..] { assert u == [u[0]] + w[1..] + u[1..][|w| - 1..]; }
  }

  /** How a number goes on. */
  function NextPart(c: char, part: Part): (q: Part) {
    if Digit(c) then (if part == Sign then Exponent else part)
    else if c == '.' then Fraction
    else if c == 'e' || c == 'E' then Sign
    else Exponent
  }

  predicate GoesOn(c: char, part: Part) {
    || Digit(c)
    || (part == Whole && c == '.')
    || ((part == Whole || part == Fraction) && (c == 'e' || c == 'E'))
    || (part == Sign && (c == '+' || c == '-'))
  }

  lemma NumberStep(s: string, part: Part)
    ensures NumberLen(s, part) ==
            if s != "" && GoesOn(s[0], part) then 1 + NumberLen(s[1..], NextPart(s[0], part)) else 0
  {
  }

  lemma {:induction false} NumberIs(u: string, x: string, part: Part)
    requires Ends(x)
    ensures var k := NumberLen(u, part);
            && NumberLen(EscapeAll(u) + x, part) == k
            && EscapeAll(u) + x == u[..k] + (EscapeAll(u[k..]) + x)
  {
    hide EscapeAll, NumberLen;
    var s := EscapeAll(u) + x;
    NumberStep(u, part);
    NumberStep(s, part);
    if u == "" {
      EmptyIs(x);
      CutAt(u, s);
    } else if GoesOn(u[0], part) {
      var next := NextPart(u[0], part);
      VerbatimStart(u, x);
      NumberIs(u[1..], x, next);
      TakeNext(u, NumberLen(u[1..], next), EscapeAll(u[NumberLen(u, part)..]) + x);
    } else {
      EscapedStart(u, x);
      CutAt(u, s);
    }
  }

  lemma CutAt(u: string, s: string)
    ensures u[0..] == u && u[..0] + s == s
  {
  }

  lemma TakeNext(u: string, k: nat, t: string)
    requires u != "" && k < |u|
    ensures u[1..][k..] == u[k + 1..] && [u[0]] + (u[1..][..k] + t) == u[..k + 1] + t
  {
    assert [u[0]] + u[1..][..k] == u[..k + 1];
  }

  lemma EmptyIs(x: string)
    ensures EscapeAll("") + x == x
  {
  }

  lemma {:induction false} BlockSkips(e: string, t: string)
    requires '*' !in e
    ensures AfterBlock(e + t) == AfterBlock(t)
  {
    if e == "" {
      assert e + t == t;
    } else {
      BlockSkips(e[1..], t);
      assert e + t == [e[0]] + (e[1..] + t);
      BlockStep(e[0], e[1..] + t);
    }
  }

  lemma BlockStep(d: char, t: string)
    requires d != '*' || t == "" || t[0] != '/'
    ensures AfterBlock([d] + t) == AfterBlock(t)
  {
    var s := [d] + t;
    assert s[1..] == t;
    if t != "" {
      var k := BlockLen(t);
      assert BlockLen(s) == 1 + k;
      if k < |t| { assert s[k + 3..] == t[k + 2..]; }
    }
  }

  lemma {:induction false} LineSkips(e: string, t: string)
    requires '\n' !in e && '\r' !in e
    ensures AfterLine(e + t) == AfterLine(t)
  {
    if e == "" {
      assert e + t == t;
    } else {
      assert (e + t)[1..] == e[1..] + t;
      LineSkips(e[1..], t);
    }
  }

  lemma {:induction false} EscapedInLine(u: string)
    ensures '\n' !in EscapeAll(u) && '\r' !in EscapeAll(u)
  {
    hide Escape;
    if u != "" {
      EscapeIs(u[0]);
      EscapedInLine(u[1..]);
    }
  }

  // ---------------------------------------------------------------------
  // The tokens of an escaped text outside quotes.

  /** Where the reader stands at the end of a text: between tokens, in a comment to the end of
      the line, in a comment to its closing mark, or behind a token that is none. */
  datatype Mode = Open | Line | Block | Stopped

  datatype Raw = Raw(tokens: seq<Token>, mode: Mode)

  function Followed(t: Token, r: Raw): (q: Raw) { Raw([t] + r.tokens, r.mode) }

  predicate IsMark(c: char) { c in {'{', '}', '[', ']', ',', ':'} }

  predicate Opens(u: string) { |u| >= 2 && u[0] == '/' && (u[1] == '*' || u[1] == '/') }

  /** The first token of a text that starts with no blank and no comment. */
  function RawNext(u: string): (x: Lexeme)
    requires u != ""
    ensures |x.rest| < |u|
  {
    if Digit(u[0]) || u[0] == '-' then
      var k := 1 + NumberLen(u[1..], Whole);
      Lexeme(Num(u[..k]), u[k..])
    else if "true" <= u then Lexeme(Word(Flag(true)), u[4..])
    else if "false" <= u then Lexeme(Word(Flag(false)), u[5..])
    else if "null" <= u then Lexeme(Word(Null), u[4..])
    else if IsMark(u[0]) then Lexeme(Mark(u[0]), u[1..])
    else Lexeme(Bad, "")
  }

  /** The tokens of a text that stands where a value should, from the text as it was before
      it was escaped. */
  function RawLex(u: string, mode: Mode): (r: Raw)
    decreases |u|
  {
    match mode
    case Stopped => Raw([], Stopped)
    case Line => Raw([], Line)
    case Block =>
      if |u| < 2 then Raw([], Block)
      else if u[0] == '*' && u[1] == '/' then Followed(Remark, RawLex(u[2..], Open))
      else RawLex(u[1..], Block)
    case Open =>
      if u == "" then Raw([], Open)
      else if u[0] == ' ' then RawLex(u[1..], Open)
      else if Opens(u) then RawLex(u[2..], if u[1] == '*' then Block else Line)
      else if RawNext(u).token == Bad then Raw([Bad], Stopped)
      else Followed(RawNext(u).token, RawLex(RawNext(u).rest, Open))
  }

  /** The tokens of a text that is read from within a mode. */
  function LexIn(mode: Mode, s: string): (ts: seq<Token>) {
    match mode
    case Open => Lex(s)
    case Line => [Remark] + Lex(AfterLine(s))
    case Block => [AfterBlock(s).token] + Lex(AfterBlock(s).rest)
    case Stopped => []
  }

  ghost predicate Gives(r: Raw, x: string, all: seq<Token>) {
    if r.mode == Stopped then r.tokens <= all else all == r.tokens + LexIn(r.mode, x)
  }

  lemma GivesMore(t: Token, r: Raw, x: string, all: seq<Token>)
    requires Gives(r, x, all)
    ensures Gives(Followed(t, r), x, [t] + all)
  {
    hide LexIn;
    assert [t] + (r.tokens + LexIn(r.mode, x)) == [t] + r.tokens + LexIn(r.mode, x);
  }

  lemma LineLexed(u: string, x: string)
    ensures LexIn(Line, EscapeAll(u) + x) == LexIn(Line, x)
  {
    hide Lex, EscapeAll, AfterLine;
    EscapedInLine(u);
    LineSkips(EscapeAll(u), x);
  }

  lemma BlockClosed(u: string, x: string)
    requires |u| >= 2 && u[0] == '*' && u[1] == '/'
    ensures LexIn(Block, EscapeAll(u) + x) == [Remark] + Lex(EscapeAll(u[2..]) + x)
  {
    hide Lex, EscapeAll;
    var s := EscapeAll(u) + x;
    VerbatimStart(u, x);
    VerbatimStart(u[1..], x);
    assert u[1..][1..] == u[2..];
    assert s[0] == '*' && s[1] == '/' && s[2..] == s[1..][1..];
  }

  lemma BlockGoesOn(u: string, x: string)
    requires Ends(x) && u != "" && !(|u| >= 2 && u[0] == '*' && u[1] == '/')
    ensures LexIn(Block, EscapeAll(u) + x) == LexIn(Block, EscapeAll(u[1..]) + x)
  {
    hide Lex, EscapeAll, AfterBlock, Escape;
    if u[0] == '*' {
      StarGoesOn(u, x);
    } else {
      EscapedStart(u, x);
      EscapeIs(u[0]);
      BlockSkips(Escape(u[0]), EscapeAll(u[1..]) + x);
    }
  }

  lemma StarGoesOn(u: string, x: string)
    requires Ends(x) && u != "" && u[0] == '*' && (|u| >= 2 ==> u[1] != '/')
    ensures AfterBlock(EscapeAll(u) + x) == AfterBlock(EscapeAll(u[1..]) + x)
  {
    hide EscapeAll, AfterBlock, Escape;
    VerbatimStart(u, x);
    assert |u| >= 2 ==> u[1..][0] == u[1];
    NextIs(u[1..], x, '/');
    BlockStep('*', EscapeAll(u[1..]) + x);
  }

  lemma BlankLexed(u: string, x: string)
    requires u != "" && u[0] == ' '
    ensures Lex(EscapeAll(u) + x) == Lex(EscapeAll(u[1..]) + x)
  {
    hide Lex, EscapeAll;
    VerbatimStart(u, x);
    LexSpace(' ', EscapeAll(u[1..]) + x);
  }

  lemma CommentOpens(u: string, x: string)
    requires Opens(u)
    ensures Lex(EscapeAll(u) + x) == LexIn(if u[1] == '*' then Block else Line, EscapeAll(u[2..]) + x)
  {
    hide Lex, EscapeAll, AfterBlock, AfterLine;
    var s := EscapeAll(u) + x;
    VerbatimStart(u, x);
    VerbatimStart(u[1..], x);
    assert u[1..][1..] == u[2..];
    LexNext(s);
  }

  /** The first token, if it is one, and that the text starts with none otherwise. */
  lemma NextLexed(u: string, x: string)
    requires Ends(x) && u != "" && u[0] != ' ' && !Opens(u)
    ensures var n, all := RawNext(u), Lex(EscapeAll(u) + x);
            if n.token == Bad then [Bad] <= all else all == [n.token] + Lex(EscapeAll(n.rest) + x)
  {
    hide Lex, EscapeAll, Next;
    var s := EscapeAll(u) + x;
    EscapedStart(u, x);
    LexNext(s);
    if Digit(u[0]) || u[0] == '-' {
      NumberNext(u, x);
    } else if u[0] in {'t', 'f', 'n'} {
      WordNext(u, x);
    } else if u[0] == '/' {
      SlashNext(u, x);
    } else {
      OtherNext(u, x);
    }
  }

  lemma NumberNext(u: string, x: string)
    requires Ends(x) && u != "" && (Digit(u[0]) || u[0] == '-')
    ensures EscapeAll(u) + x != ""
    ensures Next(EscapeAll(u) + x) == Lexeme(RawNext(u).token, EscapeAll(RawNext(u).rest) + x)
  {
    hide EscapeAll, NumberLen;
    var s := EscapeAll(u) + x;
    VerbatimStart(u, x);
    NumberIs(u[1..], x, Whole);
    var k := NumberLen(u[1..], Whole);
    TakeNext(u, k, EscapeAll(u[k + 1..]) + x);
    Taken(u[..k + 1], EscapeAll(u[k + 1..]) + x);
  }

  lemma Taken(a: string, t: string)
    ensures (a + t)[..|a|] == a && (a + t)[|a|..] == t
  {
  }

  /** The word that starts with a letter. */
  function WordOf(c: char): (w: string) { if c == 't' then "true" else if c == 'f' then "false" else "null" }
  function Meaning(c: char): (v: Value) { if c == 't' then Flag(true) else if c == 'f' then Flag(false) else Null }

  lemma NextWord(s: string)
    requires s != "" && s[0] in {'t', 'f', 'n'}
    ensures Next(s) == WordToken(s, WordOf(s[0]), Meaning(s[0]))
  {
    hide WordToken, NumberLen, StringToken, CommentToken;
  }

  lemma RawWord(u: string)
    requires u != "" && u[0] in {'t', 'f', 'n'}
    ensures var w := WordOf(u[0]);
            RawNext(u) == if w <= u then Lexeme(Word(Meaning(u[0])), u[|w|..]) else Lexeme(Bad, "")
  {
    hide NumberLen;
    assert u[0] != 't' ==> !("true" <= u);
    assert u[0] != 'f' ==> !("false" <= u);
    assert u[0] != 'n' ==> !("null" <= u);
  }

  lemma WordNext(u: string, x: string)
    requires Ends(x) && u != "" && u[0] in {'t', 'f', 'n'}
    ensures EscapeAll(u) + x != ""
    ensures var y := Next(EscapeAll(u) + x);
            if RawNext(u).token == Bad then y.token == Bad
            else y == Lexeme(RawNext(u).token, EscapeAll(RawNext(u).rest) + x)
  {
    hide EscapeAll, Next, RawNext;
    var s := EscapeAll(u) + x;
    var w := WordOf(u[0]);
    VerbatimStart(u, x);
    NextWord(s);
    RawWord(u);
    WordIs(w, u, x);
    if w <= u { Taken(w, EscapeAll(u[|w|..]) + x); }
  }

  lemma SlashNext(u: string, x: string)
    requires Ends(x) && u != "" && u[0] == '/' && !Opens(u)
    ensures EscapeAll(u) + x != ""
    ensures RawNext(u).token == Bad && Next(EscapeAll(u) + x).token == Bad
  {
    hide EscapeAll;
    VerbatimStart(u, x);
    NextIs(u[1..], x, '*');
    NextIs(u[1..], x, '/');
  }

  lemma OtherNext(u: string, x: string)
    requires u != "" && u[0] != ' ' && u[0] != '/' && u[0] !in {'t', 'f', 'n'} && !Digit(u[0]) && u[0] != '-'
    ensures EscapeAll(u) + x != ""
    ensures var y := Next(EscapeAll(u) + x);
            if RawNext(u).token == Bad then y.token == Bad
            else y == Lexeme(RawNext(u).token, EscapeAll(RawNext(u).rest) + x)
  {
    hide EscapeAll, NumberLen, StringToken, CommentToken, WordToken;
    EscapedStart(u, x);
    assert !("true" <= u) && !("false" <= u) && !("null" <= u);
    if Verbatim(u[0]) { VerbatimStart(u, x); }
  }

  /** The tokens are told from the unescaped text, and from the mode what follows is read in. */
  lemma {:induction false} RawLexed(u: string, mode: Mode, x: string)
    requires Ends(x) && mode != Stopped
    ensures Gives(RawLex(u, mode), x, LexIn(mode, EscapeAll(u) + x))
    decreases |u|
  {
    hide EscapeAll, Lex, RawNext;
    match mode
    case Line =>
      LineLexed(u, x);
    case Block =>
      if u == "" {
        EmptyIs(x);
      } else if |u| >= 2 && u[0] == '*' && u[1] == '/' {
        RawLexed(u[2..], Open, x);
        BlockClosed(u, x);
        GivesMore(Remark, RawLex(u[2..], Open), x, Lex(EscapeAll(u[2..]) + x));
      } else {
        RawLexed(u[1..], Block, x);
        BlockGoesOn(u, x);
      }
    case Open =>
      if u == "" {
        EmptyIs(x);
      } else if u[0] == ' ' {
        RawLexed(u[1..], Open, x);
        BlankLexed(u, x);
      } else if Opens(u) {
        RawLexed(u[2..], if u[1] == '*' then Block else Line, x);
        CommentOpens(u, x);
      } else {
        NextLexed(u, x);
        var n := RawNext(u);
        if n.token != Bad {
          RawLexed(n.rest, Open, x);
          GivesMore(n.token, RawLex(n.rest, Open), x, Lex(EscapeAll(n.rest) + x));
        }
      }
  }
}
