/** The pieces of a written object between separators, and what the reader makes of each. */
module Pieces {
  import opened StringUtil
  import opened Records
  import opened JsonText
  import opened Shards

  // ---------------------------------------------------------------------
  // What follows a text inside quotes.

  /** What follows a value in a piece: nothing, the end of the object, or another member. */
  datatype Rest = Cut | Close | Then(name: string, value: string, rest: Rest)

  function NameText(n: string, t: string): (s: string) { "\n   " + (Quote(n) + (" : " + ("\"" + t))) }

  function RestText(r: Rest): (s: string) {
    match r
    case Cut => ""
    case Close => "\"\n}\n"
    case Then(n, v, q) => "\"," + NameText(n, EscapeAll(v) + RestText(q))
  }

  lemma RestEnds(r: Rest)
    ensures Ends(RestText(r))
  {
  }

  predicate Letter(c: char) { 'A' <= c <= 'Z' || 'a' <= c <= 'z' }

  /** A name of letters that starts no token. */
  predicate Sober(n: string) {
    && n != "" && n[0] !in {'t', 'f', 'n'}
    && forall i :: 0 <= i < |n| ==> Letter(n[i])
  }

  predicate SoberRest(r: Rest) {
    match r
    case Then(n, _, q) => Sober(n) && SoberRest(q)
    case _ => true
  }

  lemma {:induction false} LettersStay(n: string)
    requires forall i :: 0 <= i < |n| ==> Letter(n[i])
    ensures EscapeAll(n) == n
  {
    hide Escape;
    if n != "" {
      EscapeIs(n[0]);
      LettersStay(n[1..]);
      assert n == [n[0]] + n[1..];
    }
  }

  // ---------------------------------------------------------------------
  // The tokens of what follows.

  /** Of a quoted value and what follows. */
  function StringTokens(v: string, r: Rest): (ts: seq<Token>)
    decreases r, 0
  {
    match r
    case Cut => [Bad]
    case Close => [Str(Some(v)), BraceClose]
    case Then(n, w, q) => [Str(Some(v)), Comma] + NameTokens(n, w, q)
  }

  function NameTokens(n: string, v: string, r: Rest): (ts: seq<Token>)
    decreases r, 1
  {
    [Str(Some(n)), Colon] + StringTokens(v, r)
  }

  lemma LexName(n: string, t: string)
    ensures Lex(NameText(n, t)) == [Str(Some(n)), Colon] + Lex("\"" + t)
  {
    hide Lex, Quote;
    var c := "\"" + t;
    var b := " " + c;
    var a := ":" + b;
    LexIndent(Quote(n) + (" : " + c));
    LexQuoted(n, " " + a);
    assert " : " + c == " " + a;
    LexIndent(a);
    LexMark(':', b);
    LexIndent(c);
  }

  lemma {:induction false} StringLexed(v: string, r: Rest)
    ensures Lex("\"" + (EscapeAll(v) + RestText(r))) == StringTokens(v, r)
    decreases r
  {
    hide Lex, EscapeAll, NameText;
    match r
    case Cut =>
      Unclosed(v);
    case Close =>
      LexQuoted(v, "\n}\n");
      assert "\"" + (EscapeAll(v) + "\"\n}\n") == Quote(v) + "\n}\n";
      LexClose();
    case Then(n, w, q) =>
      var t := EscapeAll(w) + RestText(q);
      LexQuoted(v, "," + NameText(n, t));
      assert "\"" + (EscapeAll(v) + ("\"," + NameText(n, t))) == Quote(v) + ("," + NameText(n, t));
      LexMark(',', NameText(n, t));
      LexName(n, t);
      StringLexed(w, q);
  }

  /** A quoted text that is cut is no token. */
  lemma Unclosed(v: string)
    ensures Lex("\"" + (EscapeAll(v) + "")) == [Bad]
  {
    hide Lex, EscapeAll, StringLen;
    var s := "\"" + (EscapeAll(v) + "");
    StringLenEscaped(v, "");
    assert StringLen("") == 0 by { StringLenNothing(); }
    assert s[1..] == EscapeAll(v) + "";
    LexNext(s);
    LexNothing();
  }

  lemma StringLenNothing()
    ensures StringLen("") == 0
  {
  }

  /** Read from within a comment to the end of the line. */
  function LineTokens(r: Rest): (ts: seq<Token>) {
    match r
    case Cut => [Remark]
    case Close => [Remark, BraceClose]
    case Then(n, v, q) => [Remark] + NameTokens(n, v, q)
  }

  lemma LineRest(r: Rest)
    ensures LexIn(Line, RestText(r)) == LineTokens(r)
  {
    hide Lex, EscapeAll, NameText;
    match r
    case Cut => LexNothing();
    case Close =>
      LineSkips("\"", "\n}\n");
      assert "\"" + "\n}\n" == "\"\n}\n" && "\n}\n"[1..] == "}\n";
      LexClose();
    case Then(n, v, q) =>
      var t := EscapeAll(v) + RestText(q);
      LineName(n, t);
      LexName(n, t);
      StringLexed(v, q);
  }

  lemma LineName(n: string, t: string)
    ensures Lex(AfterLine("\"," + NameText(n, t))) == Lex(NameText(n, t))
  {
    hide Lex, Quote;
    var a := "   " + (Quote(n) + (" : " + ("\"" + t)));
    LineSkips("\",", NameText(n, t));
    assert NameText(n, t) == "\n" + a && ("\n" + a)[1..] == a;
    LexIndent(a);
  }

  /** Read from between tokens, up to the first that is none. */
  function OpenTokens(r: Rest): (ts: seq<Token>) {
    match r
    case Cut => []
    case Close => [Bad]
    case Then(_, _, _) => [Str(Some(",\n   ")), Bad]
  }

  lemma OpenRest(r: Rest)
    requires SoberRest(r)
    ensures var ts := OpenTokens(r); var all := Lex(RestText(r)); ts == all || (r.Then? && ts <= all)
  {
    hide Lex, EscapeAll;
    match r
    case Cut => LexNothing();
    case Close => CloseIsBad();
    case Then(n, v, q) =>
      GapIsString(n, EscapeAll(v) + RestText(q));
  }

  lemma CloseIsBad()
    ensures Lex("\"\n}\n") == [Bad]
  {
    hide Lex;
    var s := "\"\n}\n";
    assert s[1..] == "\n}\n";
    assert StringLen("\n}\n") == 3;
    LexNext(s);
    LexNothing();
  }

  /** The closing quote of one value and the opening quote of the next name enclose a string. */
  lemma GapIsString(n: string, t: string)
    requires Sober(n)
    ensures [Str(Some(",\n   ")), Bad] <= Lex("\"," + NameText(n, t))
  {
    hide Lex, EscapeAll, StringToken;
    var s := "\"," + NameText(n, t);
    var x := n + ("\"" + (" : " + ("\"" + t)));
    LettersStay(n);
    assert s == "\"" + (",\n   " + ("\"" + x));
    assert s[1..] == ",\n   " + ("\"" + x);
    GapString(x);
    LexNext(s);
    NameIsBad(n, "\"" + (" : " + ("\"" + t)));
  }

  lemma NameIsBad(n: string, t: string)
    requires Sober(n)
    ensures [Bad] <= Lex(n + t)
  {
    hide Lex;
    assert (n + t)[0] == n[0];
    LexNext(n + t);
  }

  lemma GapString(x: string)
    ensures StringToken(",\n   " + ("\"" + x)) == Lexeme(Str(Some(",\n   ")), x)
  {
    hide StringLen, Decode;
    var w := ",\n   ";
    assert forall i :: 0 <= i < |w| ==> w[i] != '"' && w[i] != '\\';
    PlainString(w, "\"" + x);
    StringLenEnds(x);
    var y := w + ("\"" + x);
    assert y[..|w|] == w && y[|w| + 1..] == x;
  }

  lemma {:induction false} PlainString(w: string, t: string)
    requires forall i :: 0 <= i < |w| ==> w[i] != '"' && w[i] != '\\'
    ensures StringLen(w + t) == |w| + StringLen(t) && Decode(w) == Some(w)
  {
    hide StringLen, Decode;
    if w == "" {
      assert w + t == t;
      DecodeNothing();
    } else {
      PlainString(w[1..], t);
      assert w == [w[0]] + w[1..] && w + t == [w[0]] + (w[1..] + t);
      StringLenPlain(w[0], w[1..] + t);
      DecodePlain(w[0], w[1..]);
    }
  }

  lemma DecodePlain(c: char, t: string)
    requires c != '"' && c != '\\'
    ensures Decode([c] + t) == Before([c], Decode(t))
  {
    assert ([c] + t)[1..] == t;
  }

  lemma BlockRest(r: Rest)
    requires SoberRest(r)
    ensures LexIn(Block, RestText(r)) ==
            if r.Then? then LexIn(Block, EscapeAll(r.value) + RestText(r.rest)) else [Bad]
  {
    hide Lex, EscapeAll, AfterBlock;
    match r
    case Cut =>
      NoBlock();
      LexNothing();
    case Close =>
      BlockSkips("\"\n}\n", "");
      assert "\"\n}\n" + "" == "\"\n}\n";
      NoBlock();
      LexNothing();
    case Then(n, v, q) =>
      var t := EscapeAll(v) + RestText(q);
      LettersStay(n);
      var e := "\",\n   \"" + n + "\" : \"";
      assert "\"," + NameText(n, t) == e + t;
      assert '*' !in e;
      BlockSkips(e, t);
  }

  lemma NoBlock()
    ensures AfterBlock("") == Lexeme(Bad, "")
  {
  }

  // ---------------------------------------------------------------------
  // The tokens of a piece.

  /** The tokens of a piece that starts inside a value, from the unescaped texts, up to the
      first that is none. */
  function CutTokens(u: string, mode: Mode, r: Rest): (ts: seq<Token>)
    decreases r
  {
    var raw := RawLex(u, mode);
    raw.tokens +
    match raw.mode
    case Stopped => []
    case Open => OpenTokens(r)
    case Line => LineTokens(r)
    case Block => if r.Then? then CutTokens(r.value, Block, r.rest) else [Bad]
  }

  /** Nothing behind the last token is asked for: it is none, and a string is followed by none. */
  predicate Mute(ts: seq<Token>) {
    && ts != [] && ts[|ts| - 1] == Bad
    && forall i :: 0 <= i < |ts| - 1 && ts[i].Str? ==> ts[i + 1] == Bad
  }

  ghost predicate Settled(cut: seq<Token>, all: seq<Token>) {
    cut == all || (Mute(cut) && cut <= all)
  }

  predicate Plainly(ts: seq<Token>) { forall i :: 0 <= i < |ts| ==> !ts[i].Str? }

  lemma {:induction false} RawIsPlain(u: string, mode: Mode)
    ensures var r := RawLex(u, mode);
            && Plainly(r.tokens)
            && (mode != Stopped && r.mode == Stopped ==> r.tokens != [] && r.tokens[|r.tokens| - 1] == Bad)
    decreases |u|
  {
    hide RawNext;
    match mode
    case Block =>
      if |u| >= 2 {
        if u[0] == '*' && u[1] == '/' { RawIsPlain(u[2..], Open); } else { RawIsPlain(u[1..], Block); }
      }
    case Open =>
      if u != "" {
        if u[0] == ' ' { RawIsPlain(u[1..], Open); }
        else if Opens(u) { RawIsPlain(u[2..], if u[1] == '*' then Block else Line); }
        else if RawNext(u).token != Bad {
          RawIsPlain(RawNext(u).rest, Open);
          NextIsPlain(u);
        }
      }
    case _ =>
  }

  lemma NextIsPlain(u: string)
    requires u != ""
    ensures !RawNext(u).token.Str?
  {
  }

  lemma MuteBehind(ts: seq<Token>, us: seq<Token>)
    requires Plainly(ts) && Mute(us)
    ensures Mute(ts + us)
  {
  }

  /** Those are the tokens of the piece. */
  lemma {:induction false} CutLexed(u: string, mode: Mode, r: Rest)
    requires SoberRest(r) && mode != Stopped
    ensures Settled(CutTokens(u, mode, r), LexIn(mode, EscapeAll(u) + RestText(r)))
    decreases r
  {
    hide Lex, EscapeAll, RawLex, LexIn, RestText, OpenTokens, LineTokens;
    var raw, x := RawLex(u, mode), RestText(r);
    var all := LexIn(mode, EscapeAll(u) + x);
    RestEnds(r);
    RawLexed(u, mode, x);
    RawIsPlain(u, mode);
    match raw.mode
    case Stopped =>
      assert raw.tokens + [] == raw.tokens;
    case Open =>
      OpenSettled(r);
      SettledBehind(raw.tokens, OpenTokens(r), LexIn(Open, x));
    case Line =>
      LineRest(r);
    case Block =>
      BlockRest(r);
      if r.Then? {
        CutLexed(r.value, Block, r.rest);
        SettledBehind(raw.tokens, CutTokens(r.value, Block, r.rest), LexIn(Block, x));
      }
  }

  lemma OpenSettled(r: Rest)
    requires SoberRest(r)
    ensures Settled(OpenTokens(r), LexIn(Open, RestText(r)))
  {
    hide Lex, RestText;
    OpenRest(r);
  }

  lemma SettledBehind(ts: seq<Token>, cut: seq<Token>, all: seq<Token>)
    requires Plainly(ts) && Settled(cut, all)
    ensures Settled(ts + cut, ts + all)
  {
    if cut != all { MuteBehind(ts, cut); }
  }

  // ---------------------------------------------------------------------
  // Reading a piece.

  type Scanner = string -> Option<string>

  function Extended(r: Result, zs: seq<Token>): (q: Result) {
    if r.Got? then Got(r.node, r.rest + zs) else r
  }

  lemma {:induction false} SkipMute(ts: seq<Token>, zs: seq<Token>)
    requires Mute(ts)
    ensures Mute(Skip(ts)) && Skip(ts + zs) == Skip(ts) + zs
  {
    if ts[0].Remark? {
      MuteTail(ts);
      SkipMute(ts[1..], zs);
      assert (ts + zs)[1..] == ts[1..] + zs;
    }
  }

  lemma MuteTail(ts: seq<Token>)
    requires Mute(ts) && ts[0] != Bad
    ensures Mute(ts[1..])
  {
  }

  /** What stands behind the last token of a mute piece makes no difference. */
  lemma {:induction false} MuteValue(ts: seq<Token>, zs: seq<Token>, depth: nat, scan: Scanner)
    requires Mute(ts)
    ensures var r := ParseValue(ts, depth, scan);
            ParseValue(ts + zs, depth, scan) == Extended(r, zs) && (r.Got? ==> Mute(r.rest))
    decreases |ts|, 0
  {
    hide DecodeNumber, Skip;
    var us := Skip(ts);
    SkipMute(ts, zs);
    assert (us + zs)[0] == us[0] && (us + zs)[1..] == us[1..] + zs;
    if us[0] != Bad {
      MuteTail(us);
      if us[0] == BraceOpen {
        MuteMembers(us[1..], zs, depth + 1, scan);
      } else if us[0] == BracketOpen {
        if us[1] == BracketClose {
          MuteTail(us[1..]);
          assert us[1..][1..] == us[2..] && (us + zs)[2..] == us[2..] + zs;
        } else {
          MuteItems(us[1..], zs, depth + 1, scan);
        }
      }
    }
  }

  lemma {:induction false} MuteItems(ts: seq<Token>, zs: seq<Token>, depth: nat, scan: Scanner)
    requires Mute(ts)
    ensures var r := ParseItems(ts, depth, scan);
            ParseItems(ts + zs, depth, scan) == Extended(r, zs) && (r.Got? ==> Mute(r.rest))
    decreases |ts|, 1
  {
    hide ParseValue, Skip;
    MuteValue(ts, zs, depth, scan);
    var r := ParseValue(ts, depth, scan);
    if r.Got? {
      var us := Skip(r.rest);
      SkipMute(r.rest, zs);
      assert (us + zs)[0] == us[0] && (us + zs)[1..] == us[1..] + zs;
      if us[0] != Bad {
        MuteTail(us);
        if us[0] == Comma { MuteItems(us[1..], zs, depth, scan); }
      }
    }
  }

  lemma MuteMembers(ts: seq<Token>, zs: seq<Token>, depth: nat, scan: Scanner)
    requires Mute(ts)
    ensures var r := ParseMembers(ts, map[], "", depth, scan);
            ParseMembers(ts + zs, map[], "", depth, scan) == Extended(r, zs) && (r.Got? ==> Mute(r.rest))
  {
    hide ParseValue, Skip;
    var us := Skip(ts);
    SkipMute(ts, zs);
    assert (us + zs)[0] == us[0] && (us + zs)[1..] == us[1..] + zs;
    if us[0] != Bad { MuteTail(us); }
    if us[0].Str? { assert us[1] == Bad && (us + zs)[1..][0] == us[1]; }
  }

  /** So the reader needs no more than the tokens of the piece. */
  lemma CutRead(u: string, r: Rest, scan: Scanner)
    requires SoberRest(r)
    ensures Read(EscapeAll(u) + RestText(r), scan) == View(ParseValue(CutTokens(u, Open, r), 0, scan))
  {
    hide EscapeAll, RestText, CutTokens, ParseValue, Lex, Mute;
    var cut, all := CutTokens(u, Open, r), Lex(EscapeAll(u) + RestText(r));
    CutLexed(u, Open, r);
    assert LexIn(Open, EscapeAll(u) + RestText(r)) == all;
    if cut != all {
      assert all == cut + all[|cut|..];
      MuteValue(cut, all[|cut|..], 0, scan);
    }
  }

  // ---------------------------------------------------------------------
  // What a piece reads as.

  /** Whether the object is closed in this piece. */
  predicate Closed(r: Rest) {
    match r
    case Cut => false
    case Close => true
    case Then(_, _, q) => Closed(q)
  }

  /** The members of an object from the one called `n` on. */
  function MembersFrom(n: string, v: string, r: Rest, o: Json): (q: Json)
    decreases r
  {
    if r.Then? then MembersFrom(r.name, r.value, r.rest, o[n := Text(v)]) else o[n := Text(v)]
  }

  lemma {:induction false} NamesParsed(n: string, v: string, r: Rest, o: Json, last: string, depth: nat, scan: Scanner)
    requires depth < STACK_LIMIT
    ensures ParseMembers(NameTokens(n, v, r), o, last, depth, scan) ==
            if Closed(r) then Got(Members(MembersFrom(n, v, r, o)), []) else Fail
    decreases r
  {
    hide ParseMembers;
    match r
    case Cut =>
      CutFails(n, o, last, depth, scan);
    case Close =>
      MemberParsed(n, Text(v), [BraceClose], o, last, depth, scan);
      assert MemberTokens(n, Text(v)) + [BraceClose] == NameTokens(n, v, r);
    case Then(m, w, q) =>
      var ts := [Comma] + NameTokens(m, w, q);
      MemberParsed(n, Text(v), ts, o, last, depth, scan);
      assert MemberTokens(n, Text(v)) + ts == NameTokens(n, v, r);
      assert ts[1..] == NameTokens(m, w, q);
      NamesParsed(m, w, q, o[n := Text(v)], n, depth, scan);
  }

  lemma CutFails(n: string, o: Json, last: string, depth: nat, scan: Scanner)
    requires depth < STACK_LIMIT
    ensures ParseMembers([Str(Some(n)), Colon] + [Bad], o, last, depth, scan) == Fail
  {
    var ts := [Str(Some(n)), Colon] + [Bad];
    assert Skip(ts) == ts && ts[2..] == [Bad] && ts[1..][0] == Colon;
    assert Skip([Bad]) == [Bad];
  }

  /** The value of which a text is read without its opening quote is cut off when a comment to
      the end of the line hides its closing quote; what follows then is read as it was written. */
  function Exposed(u: string, mode: Mode, r: Rest): (q: Rest)
    decreases r
  {
    match RawLex(u, mode).mode
    case Line => r
    case Block => if r.Then? then Exposed(r.value, Block, r.rest) else Cut
    case _ => Cut
  }

  /** The end of a piece: nothing, no token, the closing quote taken for an opening one, or
      what a comment to the end of the line leaves. */
  predicate Ending(ts: seq<Token>, q: Rest) {
    ts == [] || ts == [Bad] || ts == [Str(Some(",\n   ")), Bad] || ts == LineTokens(q)
  }

  lemma {:induction false} CutEnds(u: string, mode: Mode, r: Rest) returns (lead: seq<Token>, end: seq<Token>)
    ensures CutTokens(u, mode, r) == lead + end && Plainly(lead) && Ending(end, Exposed(u, mode, r))
    decreases r
  {
    hide RawLex, LineTokens, OpenTokens;
    var raw := RawLex(u, mode);
    RawIsPlain(u, mode);
    OpenEnds(r);
    lead, end := raw.tokens, [];
    match raw.mode
    case Stopped =>
    case Open => end := OpenTokens(r);
    case Line => end := LineTokens(r);
    case Block =>
      if r.Then? {
        var more;
        more, end := CutEnds(r.value, Block, r.rest);
        lead := raw.tokens + more;
      } else {
        end := [Bad];
      }
  }

  lemma OpenEnds(r: Rest)
    ensures OpenTokens(r) == [] || OpenTokens(r) == [Bad] || OpenTokens(r) == [Str(Some(",\n   ")), Bad]
  {
  }

  lemma {:induction false} SkipPlain(lead: seq<Token>, end: seq<Token>)
    requires Plainly(lead)
    ensures Plainly(Skip(lead))
    ensures Skip(lead + end) == if Skip(lead) != [] then Skip(lead) + end else Skip(end)
  {
    if lead == [] {
      assert lead + end == end;
    } else if lead[0].Remark? {
      assert (lead + end)[1..] == lead[1..] + end;
      SkipPlain(lead[1..], end);
    } else {
      assert Skip(lead + end) == lead + end;
    }
  }

  /** A piece of which `get` raises an exception: a string, a number, a boolean or an array, or
      an array of values nested too deep. */
  predicate Spills(ts: seq<Token>, scan: Scanner) {
    var us := Skip(ts);
    us != [] &&
    match us[0]
    case Str(t) => t.Some?
    case Num(t) => DecodeNumber(t, scan).Some?
    case Word(v) => v != Null
    case BracketOpen => ParseValue(us, 0, scan) != Fail
    case _ => false
  }

  /** What a piece that opens an object reads as. */
  lemma BraceRead(lead: seq<Token>, end: seq<Token>, q: Rest, scan: Scanner)
    requires Plainly(lead) && Ending(end, q)
    ensures var r := ParseMembers(lead + end, map[], "", 1, scan);
            || r == Fail
            || (r.Got? && r.node == Members(map[]))
            || (q.Then? && Closed(q) && r.Got? && r.node == Members(MembersFrom(q.name, q.value, q.rest, map[])))
  {
    hide ParseValue, ParseMembers, Skip;
    SkipPlain(lead, end);
    var us := Skip(lead);
    if us != [] {
      PlainMembers(us, end, lead + end, scan);
    } else if end == LineTokens(q) {
      LineMembers(q, lead + end, scan);
    } else {
      ShortMembers(end, lead + end, scan);
    }
  }

  lemma PlainMembers(us: seq<Token>, end: seq<Token>, ts: seq<Token>, scan: Scanner)
    requires us != [] && Plainly(us) && Skip(ts) == us + end
    ensures var r := ParseMembers(ts, map[], "", 1, scan); r == Fail || (r.Got? && r.node == Members(map[]))
  {
    hide ParseValue, Skip;
    assert (us + end)[0] == us[0];
  }

  lemma ShortMembers(end: seq<Token>, ts: seq<Token>, scan: Scanner)
    requires end == [] || end == [Bad] || end == [Str(Some(",\n   ")), Bad]
    requires Skip(ts) == Skip(end)
    ensures ParseMembers(ts, map[], "", 1, scan) == Fail
  {
    hide ParseValue;
    assert Skip(end) == end;
    if |end| == 2 { assert end[1..] == [Bad]; }
  }

  lemma LineMembers(q: Rest, ts: seq<Token>, scan: Scanner)
    requires Skip(ts) == Skip(LineTokens(q))
    ensures var r := ParseMembers(ts, map[], "", 1, scan);
            if q.Then? then
              r == if Closed(q) then Got(Members(MembersFrom(q.name, q.value, q.rest, map[])), []) else Fail
            else r == Fail || (r.Got? && r.node == Members(map[]))
  {
    hide ParseValue;
    var ls := LineTokens(q);
    match q
    case Cut => assert ls[1..] == [] && Skip(ls) == [];
    case Close => assert ls[1..] == [BraceClose] && Skip(ls) == [BraceClose];
    case Then(n, v, r) =>
      var ns := NameTokens(n, v, r);
      assert ls[1..] == ns && Skip(ns) == ns && Skip(ls) == ns;
      NamesParsed(n, v, r, map[], "", 1, scan);
      assert ParseMembers(ts, map[], "", 1, scan) == ParseMembers(ns, map[], "", 1, scan);
  }

  /** What a piece reads as: it raises an exception exactly when it spills, and otherwise gives
      nothing, or the members that a comment exposes. */
  lemma CutView(u: string, r: Rest, scan: Scanner)
    ensures var ts := CutTokens(u, Open, r);
            var p, q := View(ParseValue(ts, 0, scan)), Exposed(u, Open, r);
            && (p == Other <==> Spills(ts, scan))
            && (p.Object? && p.members != map[] ==>
                  q.Then? && Closed(q) && p.members == MembersFrom(q.name, q.value, q.rest, map[]))
  {
    hide ParseItems, ParseMembers, Skip, CutTokens, MembersFrom, DecodeNumber;
    var ts := CutTokens(u, Open, r);
    var lead, end := CutEnds(u, Open, r);
    var us := Skip(ts);
    SkipPlain(lead, end);
    if us != [] && us[0] == BraceOpen {
      if Skip(lead) != [] {
        assert us[1..] == Skip(lead)[1..] + end;
        BraceRead(Skip(lead)[1..], end, Exposed(u, Open, r), scan);
      } else {
        EndingOpens(end, Exposed(u, Open, r));
      }
    } else if us != [] && us[0] == BracketOpen {
      SkipSkip(ts);
      ItemsRead(us, scan);
    }
  }

  lemma EndingOpens(end: seq<Token>, q: Rest)
    requires Ending(end, q)
    ensures First(Skip(end)) != BraceOpen
  {
    if end == LineTokens(q) { assert Skip(end) == Skip(end[1..]); }
  }

  lemma SkipSkip(ts: seq<Token>)
    ensures Skip(Skip(ts)) == Skip(ts)
  {
  }

  lemma ItemsRead(us: seq<Token>, scan: Scanner)
    requires us != [] && us[0] == BracketOpen
    ensures View(ParseValue(us, 0, scan)) == if ParseValue(us, 0, scan) == Fail then Failed else Other
  {
    hide ParseMembers;
    assert Skip(us) == us;
    AreItems(us[1..], 1, scan);
  }

  lemma {:induction false} AreItems(ts: seq<Token>, depth: nat, scan: Scanner)
    ensures ParseItems(ts, depth, scan).Got? ==> ParseItems(ts, depth, scan).node == Items
    decreases |ts|
  {
    hide ParseValue, Skip;
    var r := ParseValue(ts, depth, scan);
    if r.Got? && First(Skip(r.rest)) == Comma { AreItems(Skip(r.rest)[1..], depth, scan); }
  }
}
