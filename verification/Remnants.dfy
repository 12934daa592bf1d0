/** What a message with separators in it reads back as on the server. */
module Remnants {
  import opened StringUtil
  import opened Records
  import opened JsonText
  import opened Shards
  import opened Pieces

  // ---------------------------------------------------------------------
  // Cutting a written object.

  datatype Piece = Piece(text: string, rest: Rest)

  function PieceText(p: Piece): (s: string) { EscapeAll(p.text) + RestText(p.rest) }

  /** The pieces of a value and what follows it, from the unescaped texts. */
  function Cuts(s: string, r: Rest): (ps: seq<Piece>)
    ensures ps != []
    decreases r, |s|
  {
    var k := Find(s, SEPARATOR);
    if k < |s| then [Piece(s[..k], Cut)] + Cuts(s[k + 1..], r)
    else if r.Then? then
      var ps := Cuts(r.value, r.rest);
      [Piece(s, Then(r.name, ps[0].text, ps[0].rest))] + ps[1..]
    else [Piece(s, r)]
  }

  function Texts(ps: seq<Piece>): (ss: seq<string>)
    ensures |ss| == |ps|
  {
    seq(|ps|, i requires 0 <= i < |ps| => PieceText(ps[i]))
  }

  lemma {:induction false} EscapeConcat(s: string, t: string)
    ensures EscapeAll(s + t) == EscapeAll(s) + EscapeAll(t)
  {
    hide Escape;
    if s == "" {
      assert s + t == t;
    } else {
      EscapeConcat(s[1..], t);
      assert (s + t)[1..] == s[1..] + t && (s + t)[0] == s[0];
      Assoc(Escape(s[0]), EscapeAll(s[1..]), EscapeAll(t));
    }
  }

  lemma EscapedCut(s: string, k: nat)
    requires k < |s| && s[k] == SEPARATOR
    ensures EscapeAll(s) == EscapeAll(s[..k]) + [SEPARATOR] + EscapeAll(s[k + 1..])
  {
    hide EscapeAll;
    assert s == s[..k] + ([SEPARATOR] + s[k + 1..]);
    EscapeConcat(s[..k], [SEPARATOR] + s[k + 1..]);
    EscapeConcat([SEPARATOR], s[k + 1..]);
    SeparatorStays();
  }

  lemma SeparatorStays()
    ensures EscapeAll([SEPARATOR]) == [SEPARATOR]
  {
    assert [SEPARATOR][1..] == "";
  }

  /** A prefix without separators goes to the first field. */
  lemma {:induction false} FieldsBehind(e: string, t: string)
    requires SEPARATOR !in e
    ensures var f := Fields(t, SEPARATOR); Fields(e + t, SEPARATOR) == [e + f[0]] + f[1..]
  {
    hide Fields;
    var f := Fields(t, SEPARATOR);
    if e == "" {
      assert e + t == t && "" + f[0] == f[0] && f == [f[0]] + f[1..];
    } else {
      FieldsBehind(e[1..], t);
      assert e + t == [e[0]] + (e[1..] + t);
      FieldsCons(e[0], e[1..] + t, SEPARATOR);
      FirstGrows(e, f);
    }
  }

  lemma FirstGrows(e: string, f: seq<string>)
    requires e != "" && f != []
    ensures var g := [e[1..] + f[0]] + f[1..]; [[e[0]] + g[0]] + g[1..] == [e + f[0]] + f[1..]
  {
    assert [e[0]] + (e[1..] + f[0]) == e + f[0];
  }

  lemma TextsCons(p: Piece, ps: seq<Piece>)
    ensures Texts([p] + ps) == [PieceText(p)] + Texts(ps)
  {
    hide PieceText;
  }

  lemma TextsSplit(ps: seq<Piece>)
    requires ps != []
    ensures Texts(ps)[0] == PieceText(ps[0]) && Texts(ps)[1..] == Texts(ps[1..])
  {
    hide PieceText;
  }

  /** Everything up to the next value. */
  function Before(s: string, n: string): (e: string) { EscapeAll(s) + "\",\n   \"" + n + "\" : \"" }

  lemma BeforeIs(s: string, n: string, t: string)
    requires Sober(n) && SEPARATOR !in s
    ensures SEPARATOR !in Before(s, n)
    ensures EscapeAll(s) + ("\"," + NameText(n, t)) == Before(s, n) + t
  {
    hide EscapeAll;
    LettersStay(n);
    EscapedSeparator(s);
  }

  lemma CutHere(s: string, r: Rest, k: nat)
    requires k == Find(s, SEPARATOR) < |s|
    ensures Fields(EscapeAll(s) + RestText(r), SEPARATOR) ==
            [PieceText(Piece(s[..k], Cut))] + Fields(EscapeAll(s[k + 1..]) + RestText(r), SEPARATOR)
  {
    hide Fields, EscapeAll;
    EscapedCut(s, k);
    var a, t := EscapeAll(s[..k]), EscapeAll(s[k + 1..]) + RestText(r);
    Assoc(a + [SEPARATOR], EscapeAll(s[k + 1..]), RestText(r));
    FieldsConcat(a, t, SEPARATOR);
    EscapedSeparator(s[..k]);
    FieldsOfFree(a, SEPARATOR);
    assert a + "" == a;
  }

  lemma CutLater(s: string, r: Rest)
    requires SEPARATOR !in s && r.Then? && Sober(r.name)
    requires Fields(EscapeAll(r.value) + RestText(r.rest), SEPARATOR) == Texts(Cuts(r.value, r.rest))
    ensures var ps := Cuts(r.value, r.rest);
            Fields(EscapeAll(s) + RestText(r), SEPARATOR) ==
            [PieceText(Piece(s, Then(r.name, ps[0].text, ps[0].rest)))] + Texts(ps[1..])
  {
    hide Fields, EscapeAll, NameText, Texts, Cuts, Before;
    var ps, t := Cuts(r.value, r.rest), EscapeAll(r.value) + RestText(r.rest);
    BeforeIs(s, r.name, t);
    BeforeIs(s, r.name, PieceText(ps[0]));
    FieldsBehind(Before(s, r.name), t);
    TextsSplit(ps);
  }

  lemma CutsNext(s: string, r: Rest, k: nat)
    requires k < |s| && SEPARATOR !in s[..k] && s[k] == SEPARATOR
    ensures Cuts(s, r) == [Piece(s[..k], Cut)] + Cuts(s[k + 1..], r)
  {
    FindUnique(s, SEPARATOR, k);
  }

  lemma CutsOnce(s: string, r: Rest)
    requires SEPARATOR !in s
    ensures Cuts(s, r) ==
            if r.Then? then
              var ps := Cuts(r.value, r.rest);
              [Piece(s, Then(r.name, ps[0].text, ps[0].rest))] + ps[1..]
            else [Piece(s, r)]
  {
    FindUnique(s, SEPARATOR, |s|);
  }

  /** Those are the fields of the written text. */
  lemma {:induction false} CutsAreFields(s: string, r: Rest)
    requires SoberRest(r)
    ensures Fields(EscapeAll(s) + RestText(r), SEPARATOR) == Texts(Cuts(s, r))
    decreases r, |s|
  {
    hide Fields, EscapeAll, RestText, Texts, PieceText, Cuts, Find;
    var k := Find(s, SEPARATOR);
    if k < |s| {
      CutsAreFields(s[k + 1..], r);
      CutHere(s, r, k);
      CutsNext(s, r, k);
      TextsCons(Piece(s[..k], Cut), Cuts(s[k + 1..], r));
    } else {
      assert s[..k] == s;
      CutsOnce(s, r);
      if r.Then? {
        CutsAreFields(r.value, r.rest);
        CutLater(s, r);
        var ps := Cuts(r.value, r.rest);
        TextsCons(Piece(s, Then(r.name, ps[0].text, ps[0].rest)), ps[1..]);
      } else {
        NoCut(s, r);
      }
    }
  }

  lemma NoCut(s: string, r: Rest)
    requires SEPARATOR !in s && !r.Then?
    ensures Fields(EscapeAll(s) + RestText(r), SEPARATOR) == Texts([Piece(s, r)])
  {
    hide Fields, EscapeAll;
    EscapedSeparator(s);
    FieldsOfFree(EscapeAll(s) + RestText(r), SEPARATOR);
  }

  // ---------------------------------------------------------------------
  // Nothing in a piece holds the separator, and only the first starts the object.

  predicate FreeRest(r: Rest) {
    match r
    case Then(_, v, q) => SEPARATOR !in v && FreeRest(q)
    case _ => true
  }

  lemma {:induction false} CutsAreFree(s: string, r: Rest)
    requires SoberRest(r)
    ensures forall i :: 0 <= i < |Cuts(s, r)| ==>
              SEPARATOR !in Cuts(s, r)[i].text && FreeRest(Cuts(s, r)[i].rest) && SoberRest(Cuts(s, r)[i].rest)
    decreases r, |s|
  {
    var k := Find(s, SEPARATOR);
    if k < |s| {
      CutsAreFree(s[k + 1..], r);
    } else {
      assert s[..k] == s;
      if r.Then? { CutsAreFree(r.value, r.rest); }
    }
  }

  /** The first piece closes the object exactly when it is the only one. */
  lemma {:induction false} FirstCloses(s: string, r: Rest)
    requires Closed(r)
    ensures Closed(Cuts(s, r)[0].rest) <==> |Cuts(s, r)| == 1
    decreases r, |s|
  {
    var k := Find(s, SEPARATOR);
    if k == |s| && r.Then? { FirstCloses(r.value, r.rest); }
  }

  // ---------------------------------------------------------------------
  // Written objects with text members.

  ghost predicate Texted(o: Json, ks: seq<string>) {
    forall k :: k in ks ==> k in o && o[k].Text? && NoNul(k)
  }

  ghost function ChainOf(o: Json, ks: seq<string>): (r: Rest)
    requires Texted(o, ks)
  {
    if ks == [] then Close else Then(ks[0], o[ks[0]].text, ChainOf(o, ks[1..]))
  }

  /** One member and what follows. */
  lemma MemberIs(k: string, v: string, x: string)
    requires NoNul(k)
    ensures Member(k, Text(v)) + x == NameText(k, EscapeAll(v) + ("\"" + x))
  {
    hide EscapeAll, UpToNul;
    NulEnds(k);
    Regrouped("\n   ", Quote(k), " : ", "\"", EscapeAll(v), "\"", x);
  }

  lemma Regrouped(a: string, b: string, c: string, d: string, e: string, f: string, x: string)
    ensures a + b + c + (d + e + f) + x == a + (b + (c + (d + (e + (f + x)))))
  {
  }

  lemma {:induction false} MembersAre(o: Json, ks: seq<string>)
    requires ks != [] && Texted(o, ks)
    ensures WriteMembers(o, ks) == NameText(ks[0], EscapeAll(o[ks[0]].text) + RestText(ChainOf(o, ks[1..])))
  {
    hide EscapeAll, UpToNul, NoNul, Member, NameText;
    var k, v := ks[0], o[ks[0]].text;
    if |ks| == 1 {
      MemberIs(k, v, "\n}\n");
      assert "\"" + "\n}\n" == "\"\n}\n";
    } else {
      MembersAre(o, ks[1..]);
      var t := WriteMembers(o, ks[1..]);
      MemberIs(k, v, "," + t);
      assert "\"" + ("," + t) == "\"," + t;
    }
  }

  /** The piece that opens the object reads as the object if it also closes it, and as nothing
      otherwise. */
  lemma FirstRead(n: string, u: string, r: Rest, scan: Scanner)
    ensures Read("{" + NameText(n, EscapeAll(u) + RestText(r)), scan) ==
            if Closed(r) then Object(MembersFrom(n, u, r, map[])) else Failed
  {
    hide EscapeAll, RestText, ParseMembers, Lex, NameText, NameTokens;
    var t := EscapeAll(u) + RestText(r);
    LexMark('{', NameText(n, t));
    LexName(n, t);
    StringLexed(u, r);
    var ts := [BraceOpen] + NameTokens(n, u, r);
    assert NameTokens(n, u, r) == [Str(Some(n)), Colon] + StringTokens(u, r) by { NameTokensAre(n, u, r); }
    assert Lex("{" + NameText(n, t)) == ts;
    assert Skip(ts) == ts && ts[1..] == NameTokens(n, u, r);
    NamesParsed(n, u, r, map[], "", 1, scan);
  }

  lemma NameTokensAre(n: string, u: string, r: Rest)
    ensures NameTokens(n, u, r) == [Str(Some(n)), Colon] + StringTokens(u, r)
  {
  }

  // ---------------------------------------------------------------------
  // Messages.

  const BODY := "Cuerpo"
  const DATE := "Fecha"
  const ID := "Id"
  const SENDER := "IdUsuarioEmisor"

  /** What follows the body in the text of a message. */
  function AfterBody(m: Message): (r: Rest) { Then(DATE, m.date, AfterDate(m)) }
  function AfterDate(m: Message): (r: Rest) { Then(ID, m.id, AfterId(m)) }
  function AfterId(m: Message): (r: Rest) { Then(SENDER, m.sender, Close) }

  lemma NamesAreSober()
    ensures Sober(DATE) && Sober(ID) && Sober(SENDER)
  {
  }

  lemma AfterIsSober(m: Message)
    ensures SoberRest(AfterBody(m)) && Closed(AfterBody(m))
  {
    hide Sober;
    NamesAreSober();
    assert SoberRest(AfterId(m)) && Closed(AfterId(m));
    assert SoberRest(AfterDate(m)) && Closed(AfterDate(m));
  }

  lemma NamesAreOrdered()
    ensures Ordered([BODY, DATE, ID, SENDER])
  {
    assert Less(BODY, DATE) && Less(BODY, ID) && Less(BODY, SENDER) && Less(DATE, ID) && Less(DATE, SENDER);
    assert SENDER[..2] == ID && ID[1..] == "d" && SENDER[1..][0] == 'd' && ID[1..][1..] == "";
    assert Less(ID[1..][1..], SENDER[1..][1..]);
    assert Less(ID[1..], SENDER[1..]);
    assert Less(ID, SENDER);
  }

  /** The members of a message are written in the order of their names. */
  lemma MessageNames(m: Message, ks: seq<string>)
    requires Lists(ks, MessageJson(m)) && Ordered(ks)
    ensures ks == [BODY, DATE, ID, SENDER]
  {
    hide Less, Ordered;
    NamesAreOrdered();
    var ns := [BODY, DATE, ID, SENDER];
    assert forall k :: k in MessageJson(m) <==> k in ns;
    OneOrder(ks, ns);
  }

  lemma MessageText(m: Message, ks: seq<string>)
    requires Lists(ks, MessageJson(m)) && Ordered(ks)
    ensures Holds(MessageJson(m), ks)
    ensures WriteIn(MessageJson(m), ks) == "{" + NameText(BODY, EscapeAll(m.body) + RestText(AfterBody(m)))
  {
    hide EscapeAll, NameText, WriteMembers, Lists, Ordered;
    MessageNames(m, ks);
    MessageTexted(m);
    MessageChain(m);
    MembersAre(MessageJson(m), ks);
  }

  lemma MessageTexted(m: Message)
    ensures Texted(MessageJson(m), [BODY, DATE, ID, SENDER]) && Holds(MessageJson(m), [BODY, DATE, ID, SENDER])
    ensures MessageJson(m)[BODY] == Text(m.body)
  {
  }

  lemma MessageChain(m: Message)
    ensures Texted(MessageJson(m), [BODY, DATE, ID, SENDER][1..])
    ensures ChainOf(MessageJson(m), [BODY, DATE, ID, SENDER][1..]) == AfterBody(m)
  {
    hide NoNul;
    MessageTexted(m);
    var o := MessageJson(m);
    var a, b, c := [DATE, ID, SENDER], [ID, SENDER], [SENDER];
    assert [BODY, DATE, ID, SENDER][1..] == a && a[1..] == b && b[1..] == c && c[1..] == [];
    assert o[DATE] == Text(m.date) && o[ID] == Text(m.id) && o[SENDER] == Text(m.sender);
    assert ChainOf(o, c) == AfterId(m);
    assert ChainOf(o, b) == AfterDate(m);
  }

  /** The pieces of a written message. */
  function PiecesOf(m: Message): (ps: seq<Piece>)
    ensures ps != []
  {
    Cuts(m.body, AfterBody(m))
  }

  lemma MessageFields(m: Message, ks: seq<string>)
    requires Lists(ks, MessageJson(m)) && Ordered(ks)
    ensures Holds(MessageJson(m), ks)
    ensures var ps := PiecesOf(m);
            Fields(WriteIn(MessageJson(m), ks), SEPARATOR) ==
            ["{" + NameText(BODY, PieceText(ps[0]))] + Texts(ps[1..])
  {
    hide EscapeAll, RestText, Fields, Cuts, Texts, NameText, Lists, Ordered, WriteIn, Holds;
    MessageText(m, ks);
    AfterIsSober(m);
    var t := EscapeAll(m.body) + RestText(AfterBody(m));
    CutsAreFields(m.body, AfterBody(m));
    BodyBefore(t);
    BodyBefore(PieceText(PiecesOf(m)[0]));
    FieldsBehind("{\n   \"Cuerpo\" : \"", t);
    TextsSplit(PiecesOf(m));
  }

  lemma BodyBefore(t: string)
    ensures "{" + NameText(BODY, t) == "{\n   \"Cuerpo\" : \"" + t && SEPARATOR !in "{\n   \"Cuerpo\" : \""
  {
    hide EscapeAll;
    assert forall i :: 0 <= i < |BODY| ==> Letter(BODY[i]);
    LettersStay(BODY);
  }

  // ---------------------------------------------------------------------
  // What the pieces read as.

  /** `q` is what follows a member of `r`, or `r` itself. */
  predicate IsTail(q: Rest, r: Rest) { q == r || (r.Then? && IsTail(q, r.rest)) }

  /** A piece that closes the object holds what follows it unchanged. */
  lemma {:induction false} ClosedIsTail(s: string, r: Rest, i: nat)
    requires i < |Cuts(s, r)| && Closed(Cuts(s, r)[i].rest)
    ensures IsTail(Cuts(s, r)[i].rest, r)
    decreases r, |s|
  {
    var k := Find(s, SEPARATOR);
    if k < |s| {
      if i > 0 { ClosedIsTail(s[k + 1..], r, i - 1); }
    } else if r.Then? {
      ClosedIsTail(r.value, r.rest, i);
      if i == 0 { ClosedFirst(r.value, r.rest); }
    }
  }

  lemma {:induction false} ClosedFirst(s: string, r: Rest)
    requires Closed(Cuts(s, r)[0].rest)
    ensures Cuts(s, r)[0] == Piece(s, r)
    decreases r, |s|
  {
    var k := Find(s, SEPARATOR);
    assert k == |s| ==> s[..k] == s;
    if k == |s| && r.Then? { ClosedFirst(r.value, r.rest); }
  }

  lemma {:induction false} ExposedIsTail(u: string, mode: Mode, r: Rest)
    ensures Exposed(u, mode, r) == Cut || IsTail(Exposed(u, mode, r), r)
    ensures Closed(Exposed(u, mode, r)) ==> Closed(r)
    ensures FreeRest(r) ==> FreeRest(Exposed(u, mode, r))
    decreases r
  {
    hide RawLex;
    if RawLex(u, mode).mode == Block && r.Then? { ExposedIsTail(r.value, Block, r.rest); }
  }

  lemma {:induction false} TailOfTail(p: Rest, q: Rest, r: Rest)
    requires IsTail(p, q) && IsTail(q, r)
    ensures IsTail(p, r)
  {
    if q != r { TailOfTail(p, q, r.rest); }
  }

  /** A message that is not cut is clean. */
  lemma OneIsWhole(m: Message)
    requires |PiecesOf(m)| == 1
    ensures Clean(m)
  {
    hide Cuts;
    var r := AfterBody(m);
    AfterIsSober(m);
    FirstCloses(m.body, r);
    ClosedFirst(m.body, r);
    CutsAreFree(m.body, r);
    assert FreeRest(r);
    assert FreeRest(AfterDate(m)) && FreeRest(AfterId(m));
  }

  /** What can be left of a message behind a cut. */
  predicate IsRemnant(n: Message, m: Message) {
    || n == BLANK
    || n == m.(body := "")
    || n == m.(body := "", date := "")
    || n == Message("", "", m.sender, "")
  }

  lemma TailReads(m: Message, q: Rest)
    requires IsTail(q, AfterBody(m)) && q.Then? && FreeRest(q)
    ensures var n := MessageOf(MembersFrom(q.name, q.value, q.rest, map[]));
            n.Done? && IsRemnant(n.value, m) && Clean(n.value)
  {
    hide MessageOf, Clean;
    TailIs(m, q);
    if q == AfterBody(m) {
      DateReads(m);
    } else if q == AfterDate(m) {
      IdReads(m);
    } else {
      SenderReads(m);
    }
  }

  lemma TailIs(m: Message, q: Rest)
    requires IsTail(q, AfterBody(m)) && q.Then?
    ensures q == AfterBody(m) || q == AfterDate(m) || q == AfterId(m)
  {
    if q != AfterBody(m) && q != AfterDate(m) {
      assert IsTail(q, AfterDate(m));
      assert IsTail(q, AfterId(m));
      assert q == AfterId(m) || IsTail(q, Close);
    }
  }

  lemma DateReads(m: Message)
    requires FreeRest(AfterBody(m))
    ensures var o := MembersFrom(DATE, m.date, AfterDate(m), map[]);
            MessageOf(o) == Done(m.(body := "")) && Clean(m.(body := ""))
  {
    var e: Json := map[];
    assert FreeRest(AfterDate(m)) && FreeRest(AfterId(m));
    var o := e[DATE := Text(m.date)][ID := Text(m.id)][SENDER := Text(m.sender)];
    assert MembersFrom(SENDER, m.sender, Close, e[DATE := Text(m.date)][ID := Text(m.id)]) == o;
    assert MembersFrom(ID, m.id, AfterId(m), e[DATE := Text(m.date)]) == o;
  }

  lemma IdReads(m: Message)
    requires FreeRest(AfterDate(m))
    ensures var o := MembersFrom(ID, m.id, AfterId(m), map[]);
            MessageOf(o) == Done(m.(body := "", date := "")) && Clean(m.(body := "", date := ""))
  {
    var e: Json := map[];
    assert FreeRest(AfterId(m));
    assert MembersFrom(SENDER, m.sender, Close, e[ID := Text(m.id)]) == e[ID := Text(m.id)][SENDER := Text(m.sender)];
  }

  lemma SenderReads(m: Message)
    requires FreeRest(AfterId(m))
    ensures var o := MembersFrom(SENDER, m.sender, Close, map[]);
            MessageOf(o) == Done(Message("", "", m.sender, "")) && Clean(Message("", "", m.sender, ""))
  {
  }

  /** The piece spills, told from the unescaped body and date. */
  predicate PieceSpills(p: Piece, scan: Scanner) { Spills(CutTokens(p.text, Open, p.rest), scan) }

  /** Behind the first cut a piece raises an exception exactly when it spills, and otherwise
      reads as nothing or as a remnant of the message, free of the separator. */
  lemma PieceReads(m: Message, i: nat, scan: Scanner)
    requires 1 <= i < |PiecesOf(m)|
    ensures var p := PiecesOf(m)[i];
            var r := Read(PieceText(p), scan);
            && (r == Other <==> PieceSpills(p, scan))
            && (r.Object? ==> var n := MessageOf(r.members); n.Done? && IsRemnant(n.value, m) && Clean(n.value))
  {
    hide EscapeAll, RestText, Cuts, CutTokens, Exposed, MembersFrom, Read, ParseValue, Spills, MessageOf;
    var p := PiecesOf(m)[i];
    AfterIsSober(m);
    CutsAreFree(m.body, AfterBody(m));
    CutRead(p.text, p.rest, scan);
    CutView(p.text, p.rest, scan);
    BlankReads();
    var q := Exposed(p.text, Open, p.rest);
    ExposedIsTail(p.text, Open, p.rest);
    if q.Then? && Closed(q) {
      ClosedIsTail(m.body, AfterBody(m), i);
      TailOfTail(q, p.rest, AfterBody(m));
      TailReads(m, q);
    }
  }

  lemma BlankReads()
    ensures MessageOf(map[]) == Done(BLANK)
  {
  }

  // ---------------------------------------------------------------------
  // When a message spills.

  /** Reading the message back raises an exception. */
  ghost predicate MessageSpills(m: Message, scan: Scanner) {
    exists i :: 1 <= i < |PiecesOf(m)| && PieceSpills(PiecesOf(m)[i], scan)
  }

  lemma CutsNone(s: string)
    requires SEPARATOR !in s
    ensures Cuts(s, Cut) == [Piece(s, Cut)]
  {
    FindUnique(s, SEPARATOR, |s|);
  }

  lemma Slices(a: string, b: string, k: nat)
    requires k < |a|
    ensures var s := a + [SEPARATOR] + b; s[..k] == a[..k] && s[k] == a[k] && s[k + 1..] == a[k + 1..] + [SEPARATOR] + b
  {
  }

  lemma {:induction false} CutsConcat(a: string, b: string, r: Rest)
    ensures Cuts(a + [SEPARATOR] + b, r) == Cuts(a, Cut) + Cuts(b, r)
    decreases |a|
  {
    hide Cuts, Find;
    var s := a + [SEPARATOR] + b;
    var k := Find(a, SEPARATOR);
    if k < |a| {
      Slices(a, b, k);
      CutsNext(s, r, k);
      CutsNext(a, Cut, k);
      CutsConcat(a[k + 1..], b, r);
    } else {
      assert a[..k] == a && s[..|a|] == a && s[|a| + 1..] == b;
      CutsNext(s, r, |a|);
      CutsNone(a);
    }
  }

  /** A message spills when what follows a separator in its body does. */
  lemma SpillsBehind(m: Message, a: string, b: string, scan: Scanner)
    requires m.body == a + [SEPARATOR] + b && PieceSpills(Cuts(b, AfterBody(m))[0], scan)
    ensures MessageSpills(m, scan)
  {
    hide Cuts, PieceSpills, AfterBody;
    CutsConcat(a, b, AfterBody(m));
    var i := |Cuts(a, Cut)|;
    assert PiecesOf(m)[i] == Cuts(b, AfterBody(m))[0];
  }

  /** Every message whose body ends with a separator spills: the quote that closes the body
      opens a string. */
  lemma EndingSpills(m: Message, a: string, scan: Scanner)
    requires m.body == a + [SEPARATOR]
    ensures MessageSpills(m, scan)
  {
    assert m.body == a + [SEPARATOR] + "";
    var p := Cuts("", AfterBody(m))[0];
    assert p.text == "" && p.rest.Then?;
    var ts := CutTokens("", Open, p.rest);
    assert ts == [] + [Str(Some(",\n   ")), Bad];
    assert Skip(ts) == ts;
    SpillsBehind(m, a, "", scan);
  }

  /** So does a message whose body ends with a separator and a digit. */
  lemma DigitSpills(m: Message, a: string, d: char, scan: Scanner)
    requires m.body == a + [SEPARATOR] + [d] && Digit(d)
    ensures MessageSpills(m, scan)
  {
    hide Cuts;
    var b := [d];
    assert SEPARATOR !in b;
    FirstText(b, AfterBody(m));
    var p := Cuts(b, AfterBody(m))[0];
    assert b[1..] == "" && b[..1] == b;
    DigitLexed(d);
    var ts := CutTokens(b, Open, p.rest);
    assert ts[0] == Num(b) && Skip(ts) == ts;
    assert AllDigits(b) && DigitsValue(b[..0]) == 0;
    assert DigitsValue(b) <= 9;
    SpillsBehind(m, a, b, scan);
  }

  lemma DigitLexed(d: char)
    requires Digit(d)
    ensures RawLex([d], Open) == Raw([Num([d])], Open)
  {
    var b := [d];
    assert b[1..] == "" && b[..1] == b;
    assert RawLex("", Open) == Raw([], Open);
    assert RawNext(b) == Lexeme(Num(b), "");
    assert !Opens(b) && b[0] != ' ';
  }

  lemma FirstText(b: string, r: Rest)
    requires SEPARATOR !in b
    ensures Cuts(b, r)[0].text == b
  {
    FindUnique(b, SEPARATOR, |b|);
  }

  // ---------------------------------------------------------------------
  // Only the body and the date matter.

  predicate Posted(m: Message) { IsDigest(m.id) && IsDigest(m.sender) }

  ghost predicate AlikeToken(t: Token, u: Token) {
    t == u || (t.Str? && u.Str? && t.text.Some? && u.text.Some? && t.text.value != "" && u.text.value != "")
  }

  ghost predicate Alike(ts: seq<Token>, us: seq<Token>) {
    |ts| == |us| && forall i :: 0 <= i < |ts| ==> AlikeToken(ts[i], us[i])
  }

  ghost predicate AlikeResult(r: Result, q: Result) {
    r.Fail? == q.Fail? && r.Raise? == q.Raise? && (r.Got? && q.Got? ==> Alike(r.rest, q.rest))
  }

  lemma {:induction false} SkipAlike(ts: seq<Token>, us: seq<Token>)
    requires Alike(ts, us)
    ensures Alike(Skip(ts), Skip(us))
  {
    if ts != [] && ts[0].Remark? {
      assert us[0] == ts[0];
      TailAlike(ts, us);
      SkipAlike(ts[1..], us[1..]);
    } else if ts != [] {
      assert AlikeToken(ts[0], us[0]);
    }
  }

  lemma TailAlike(ts: seq<Token>, us: seq<Token>)
    requires Alike(ts, us) && ts != []
    ensures Alike(ts[1..], us[1..]) && AlikeToken(ts[0], us[0])
  {
    hide AlikeToken;
  }

  lemma {:induction false} ValueAlike(ts: seq<Token>, us: seq<Token>, depth: nat, scan: Scanner)
    requires Alike(ts, us)
    ensures AlikeResult(ParseValue(ts, depth, scan), ParseValue(us, depth, scan))
    decreases |ts|, 0
  {
    hide DecodeNumber, Skip, Alike;
    var vs, ws := Skip(ts), Skip(us);
    SkipAlike(ts, us);
    AlikeLength(vs, ws);
    if vs != [] {
      TailAlike(vs, ws);
      AlikeLength(vs[1..], ws[1..]);
      if vs[0] == BraceOpen {
        MembersAlike(vs[1..], ws[1..], map[], map[], "", "", depth + 1, scan);
      } else if vs[0] == BracketOpen {
        if vs[1..] != [] {
          TailAlike(vs[1..], ws[1..]);
          assert vs[1..][1..] == vs[2..] && ws[1..][1..] == ws[2..];
        }
        ItemsAlike(vs[1..], ws[1..], depth + 1, scan);
      }
    }
  }

  lemma AlikeLength(ts: seq<Token>, us: seq<Token>)
    requires Alike(ts, us)
    ensures |ts| == |us|
  {
  }

  lemma {:induction false} ItemsAlike(ts: seq<Token>, us: seq<Token>, depth: nat, scan: Scanner)
    requires Alike(ts, us)
    ensures AlikeResult(ParseItems(ts, depth, scan), ParseItems(us, depth, scan))
    decreases |ts|, 1
  {
    hide ParseValue, Skip, Alike;
    AlikeLength(ts, us);
    ValueAlike(ts, us, depth, scan);
    var r, q := ParseValue(ts, depth, scan), ParseValue(us, depth, scan);
    if r.Got? {
      SkipAlike(r.rest, q.rest);
      var vs, ws := Skip(r.rest), Skip(q.rest);
      AlikeLength(vs, ws);
      if vs != [] {
        TailAlike(vs, ws);
        if vs[0] == Comma { ItemsAlike(vs[1..], ws[1..], depth, scan); }
      }
    }
  }

  lemma {:induction false} MembersAlike(ts: seq<Token>, us: seq<Token>, o: Json, p: Json, last: string, lost: string,
                                        depth: nat, scan: Scanner)
    requires Alike(ts, us) && (last == "" <==> lost == "")
    ensures AlikeResult(ParseMembers(ts, o, last, depth, scan), ParseMembers(us, p, lost, depth, scan))
    decreases |ts|, 1
  {
    hide ParseValue, ParseMore, Skip, Alike;
    AlikeLength(ts, us);
    var vs, ws := Skip(ts), Skip(us);
    SkipAlike(ts, us);
    AlikeLength(vs, ws);
    if vs != [] {
      TailAlike(vs, ws);
      AlikeLength(vs[1..], ws[1..]);
      if vs[0].Str? && vs[1..] != [] {
        TailAlike(vs[1..], ws[1..]);
        if vs[0].text.Some? && vs[1] == Colon {
          assert vs[1..][1..] == vs[2..] && ws[1..][1..] == ws[2..];
          ValueAlike(vs[2..], ws[2..], depth, scan);
          var r, q := ParseValue(vs[2..], depth, scan), ParseValue(ws[2..], depth, scan);
          var name, called := vs[0].text.value, ws[0].text.value;
          if r.Got? {
            MoreAlike(r.rest, q.rest, o[name := Kept(r.node)], p[called := Kept(q.node)], name, called, depth, scan);
          }
        }
      }
    }
  }

  lemma {:induction false} MoreAlike(ts: seq<Token>, us: seq<Token>, o: Json, p: Json, last: string, lost: string,
                                     depth: nat, scan: Scanner)
    requires Alike(ts, us) && (last == "" <==> lost == "")
    ensures AlikeResult(ParseMore(ts, o, last, depth, scan), ParseMore(us, p, lost, depth, scan))
    decreases |ts|, 1
  {
    hide ParseMembers, Skip, Alike;
    var vs, ws := Skip(ts), Skip(us);
    AlikeLength(ts, us);
    SkipAlike(ts, us);
    AlikeLength(vs, ws);
    if ts != [] {
      TailAlike(ts, us);
      if vs != [] {
        TailAlike(vs, ws);
        MembersAlike(vs[1..], ws[1..], o, p, last, lost, depth, scan);
      } else {
        NoneAlike();
        MembersAlike([], [], o, p, last, lost, depth, scan);
      }
    }
  }

  lemma NoneAlike()
    ensures Alike([], [])
  {
  }

  ghost predicate AlikeText(v: string, w: string) { v == w || (IsDigest(v) && IsDigest(w)) }

  ghost predicate AlikeRest(q: Rest, r: Rest) {
    match (q, r)
    case (Then(n, v, q'), Then(m, w, r')) => n == m && AlikeText(v, w) && AlikeRest(q', r')
    case _ => q == r
  }

  lemma AlikeBoth(a: seq<Token>, b: seq<Token>, c: seq<Token>, d: seq<Token>)
    requires Alike(a, b) && Alike(c, d)
    ensures Alike(a + c, b + d)
  {
    hide AlikeToken;
  }

  lemma AlikeSelf(ts: seq<Token>)
    ensures Alike(ts, ts)
  {
  }

  lemma AlikeStrings(v: string, w: string)
    requires AlikeText(v, w)
    ensures Alike([Str(Some(v))], [Str(Some(w))])
  {
  }

  lemma {:induction false} StringsAlike(v: string, w: string, q: Rest, r: Rest)
    requires AlikeText(v, w) && AlikeRest(q, r)
    ensures Alike(StringTokens(v, q), StringTokens(w, r))
    decreases q
  {
    hide Alike, AlikeText, StringTokens;
    AlikeStrings(v, w);
    StringIs(v, q);
    StringIs(w, r);
    match q
    case Cut => AlikeSelf([Bad]);
    case Close =>
      AlikeSelf([BraceClose]);
      AlikeBoth([Str(Some(v))], [Str(Some(w))], [BraceClose], [BraceClose]);
    case Then(n, x, q') =>
      StringsAlike(x, r.value, q', r.rest);
      var a := [Comma, Str(Some(n)), Colon];
      var b, c := StringTokens(x, q'), StringTokens(r.value, r.rest);
      AlikeSelf(a);
      AlikeBoth(a, a, b, c);
      AlikeBoth([Str(Some(v))], [Str(Some(w))], a + b, a + c);
  }

  lemma StringIs(v: string, q: Rest)
    ensures StringTokens(v, q) ==
            match q
            case Cut => [Bad]
            case Close => [Str(Some(v))] + [BraceClose]
            case Then(n, x, p) => [Str(Some(v))] + ([Comma, Str(Some(n)), Colon] + StringTokens(x, p))
  {
    if q.Then? { NameTokensAre(q.name, q.value, q.rest); }
  }

  lemma LinesAlike(q: Rest, r: Rest)
    requires AlikeRest(q, r)
    ensures Alike(LineTokens(q), LineTokens(r)) && OpenTokens(q) == OpenTokens(r)
  {
    hide Alike, AlikeText, StringTokens, NameTokens;
    match q
    case Then(n, v, q') =>
      StringsAlike(v, r.value, q', r.rest);
      var a := [Remark, Str(Some(n)), Colon];
      AlikeSelf(a);
      AlikeBoth(a, a, StringTokens(v, q'), StringTokens(r.value, r.rest));
      LineIs(n, v, q');
      LineIs(n, r.value, r.rest);
    case _ => AlikeSelf(LineTokens(q));
  }

  lemma LineIs(n: string, v: string, q: Rest)
    ensures LineTokens(Then(n, v, q)) == [Remark, Str(Some(n)), Colon] + StringTokens(v, q)
  {
    hide StringTokens;
    var ts := StringTokens(v, q);
    assert [Remark] + ([Str(Some(n)), Colon] + ts) == [Remark, Str(Some(n)), Colon] + ts;
  }

  lemma {:induction false} DigestInBlock(v: string)
    requires '*' !in v
    ensures RawLex(v, Block) == Raw([], Block)
  {
    if |v| >= 2 { DigestInBlock(v[1..]); }
  }

  lemma {:induction false} CutsAlike(u: string, w: string, mode: Mode, q: Rest, r: Rest)
    requires AlikeRest(q, r) && (u == w || (mode == Block && AlikeText(u, w)))
    ensures Alike(CutTokens(u, mode, q), CutTokens(w, mode, r))
    decreases q
  {
    hide RawLex, Alike, LineTokens, OpenTokens, IsDigest;
    var raw := RawLex(u, mode);
    if u != w {
      NoStar(u);
      NoStar(w);
      DigestInBlock(u);
      DigestInBlock(w);
    }
    AlikeSelf(raw.tokens);
    LinesAlike(q, r);
    AlikeSelf(OpenTokens(q));
    AlikeSelf([]);
    AlikeSelf([Bad]);
    match raw.mode
    case Open => AlikeBoth(raw.tokens, raw.tokens, OpenTokens(q), OpenTokens(r));
    case Line => AlikeBoth(raw.tokens, raw.tokens, LineTokens(q), LineTokens(r));
    case Block =>
      if q.Then? {
        CutsAlike(q.value, r.value, Block, q.rest, r.rest);
        AlikeBoth(raw.tokens, raw.tokens, CutTokens(q.value, Block, q.rest), CutTokens(r.value, Block, r.rest));
      } else {
        AlikeBoth(raw.tokens, raw.tokens, [Bad], [Bad]);
      }
    case Stopped => AlikeBoth(raw.tokens, raw.tokens, [], []);
  }

  lemma NoStar(v: string)
    requires IsDigest(v)
    ensures '*' !in v && v != ""
  {
  }

  ghost predicate AlikePieces(ps: seq<Piece>, qs: seq<Piece>) {
    && |ps| == |qs|
    && (forall i :: 0 <= i < |ps| ==> AlikeText(ps[i].text, qs[i].text) && AlikeRest(ps[i].rest, qs[i].rest))
    && (forall i :: 1 <= i < |ps| ==> ps[i].text == qs[i].text)
  }

  lemma AlikeCons(u: string, ps: seq<Piece>, qs: seq<Piece>)
    requires AlikePieces(ps, qs) && ps != [] && ps[0].text == qs[0].text
    ensures AlikePieces([Piece(u, Cut)] + ps, [Piece(u, Cut)] + qs)
  {
    hide IsDigest, AlikeText;
    assert AlikeText(u, u) by { SameText(u); }
  }

  lemma SameText(u: string)
    ensures AlikeText(u, u)
  {
  }

  lemma AlikeFirst(u: string, w: string, n: string, ps: seq<Piece>, qs: seq<Piece>)
    requires AlikePieces(ps, qs) && ps != [] && AlikeText(u, w)
    ensures AlikePieces([Piece(u, Then(n, ps[0].text, ps[0].rest))] + ps[1..],
                        [Piece(w, Then(n, qs[0].text, qs[0].rest))] + qs[1..])
  {
    hide IsDigest, AlikeText;
    assert AlikeRest(Then(n, ps[0].text, ps[0].rest), Then(n, qs[0].text, qs[0].rest));
  }

  lemma {:induction false} PiecesAlike(u: string, w: string, q: Rest, r: Rest)
    requires AlikeText(u, w) && AlikeRest(q, r)
    ensures AlikePieces(Cuts(u, q), Cuts(w, r))
    ensures u == w ==> Cuts(u, q)[0].text == Cuts(w, r)[0].text
    decreases q, |u|
  {
    hide IsDigest, Cuts, AlikePieces, Find;
    var k := Find(u, SEPARATOR);
    if k < |u| {
      if u != w { DigestIsPlain(u); }
      CutsNext(u, q, k);
      CutsNext(u, r, k);
      SameText(u[k + 1..]);
      PiecesAlike(u[k + 1..], u[k + 1..], q, r);
      AlikeCons(u[..k], Cuts(u[k + 1..], q), Cuts(u[k + 1..], r));
    } else {
      assert u[..k] == u;
      if u != w { DigestIsPlain(w); }
      CutsOnce(u, q);
      CutsOnce(w, r);
      if q.Then? {
        PiecesAlike(q.value, r.value, q.rest, r.rest);
        AlikeFirst(u, w, q.name, Cuts(q.value, q.rest), Cuts(r.value, r.rest));
      } else {
        AlikeOne(u, w, q);
      }
    }
  }

  lemma AlikeOne(u: string, w: string, q: Rest)
    requires AlikeText(u, w) && !q.Then?
    ensures AlikePieces([Piece(u, q)], [Piece(w, q)])
  {
  }

  lemma SpillsAlike(ts: seq<Token>, us: seq<Token>, scan: Scanner)
    requires Alike(ts, us)
    ensures Spills(ts, scan) <==> Spills(us, scan)
  {
    hide ParseValue, DecodeNumber, Skip, Alike;
    var vs, ws := Skip(ts), Skip(us);
    SkipAlike(ts, us);
    AlikeLength(vs, ws);
    if vs != [] { TailAlike(vs, ws); }
    ValueAlike(vs, ws, 0, scan);
  }

  /** Whether a message spills is a matter of its body and its date. */
  lemma BodyAndDateSpill(m: Message, n: Message, scan: Scanner)
    requires Posted(m) && Posted(n) && m.body == n.body && m.date == n.date
    ensures MessageSpills(m, scan) ==> MessageSpills(n, scan)
  {
    hide IsDigest, Cuts, CutTokens, Alike, Spills;
    if i :| 1 <= i < |PiecesOf(m)| && PieceSpills(PiecesOf(m)[i], scan) {
      AfterAlike(m, n);
      PiecesAlike(m.body, n.body, AfterBody(m), AfterBody(n));
      var p, q := PiecesOf(m)[i], PiecesOf(n)[i];
      CutsAlike(p.text, q.text, Open, p.rest, q.rest);
      SpillsAlike(CutTokens(p.text, Open, p.rest), CutTokens(q.text, Open, q.rest), scan);
      assert PieceSpills(PiecesOf(n)[i], scan);
    }
  }

  lemma AfterAlike(m: Message, n: Message)
    requires Posted(m) && Posted(n) && m.date == n.date
    ensures AlikeRest(AfterBody(m), AfterBody(n))
  {
    hide IsDigest;
    assert AlikeRest(AfterId(m), AfterId(n));
    assert AlikeRest(AfterDate(m), AfterDate(n));
  }

  /** An identifier. */
  const ANYONE := "00000000000000000000000000000000"

  /** Reading back a message with this body and date raises an exception, whoever sent it. */
  ghost predicate TextSpills(body: string, date: string, scan: Scanner) {
    MessageSpills(Message(ANYONE, body, ANYONE, date), scan)
  }

  lemma SpillsByText(m: Message, scan: Scanner)
    requires Posted(m)
    ensures MessageSpills(m, scan) <==> TextSpills(m.body, m.date, scan)
  {
    hide MessageSpills;
    var n := Message(ANYONE, m.body, ANYONE, m.date);
    assert Posted(n);
    BodyAndDateSpill(m, n, scan);
    BodyAndDateSpill(n, m, scan);
  }

  /** A text that, blanks aside, starts with neither a token nor a comment. */
  predicate Harmless(u: string) {
    u != "" && if u[0] == ' ' then Harmless(u[1..]) else !Opens(u) && RawNext(u).token == Bad
  }

  lemma {:induction false} HarmlessLexed(u: string)
    requires Harmless(u)
    ensures RawLex(u, Open) == Raw([Bad], Stopped)
  {
    hide RawNext;
    if u[0] == ' ' { HarmlessLexed(u[1..]); }
  }

  /** A message spills only if some text behind a separator is not harmless. */
  lemma HarmlessDoesNotSpill(m: Message, scan: Scanner)
    requires forall i :: 1 <= i < |PiecesOf(m)| ==> Harmless(PiecesOf(m)[i].text)
    ensures !MessageSpills(m, scan)
  {
    hide Cuts, RawLex, Harmless;
    forall i | 1 <= i < |PiecesOf(m)| ensures !PieceSpills(PiecesOf(m)[i], scan) {
      var p := PiecesOf(m)[i];
      HarmlessLexed(p.text);
      var ts := CutTokens(p.text, Open, p.rest);
      assert ts == [Bad] + [] == [Bad];
      assert Skip([Bad]) == [Bad];
    }
  }

  /** A body that opens an object and a comment behind a separator leaves all but the body. */
  lemma CommentLeaves(m: Message, scan: Scanner)
    requires m.body == [SEPARATOR] + "{//" && Clean(m.(body := ""))
    ensures var ps := PiecesOf(m);
            && |ps| == 2
            && Read(PieceText(ps[1]), scan).Object?
            && MessageOf(Read(PieceText(ps[1]), scan).members) == Done(m.(body := ""))
  {
    hide Cuts, Read, PieceText, MembersFrom, MessageOf;
    var b := "{//";
    assert m.body == "" + [SEPARATOR] + b;
    CutsConcat("", b, AfterBody(m));
    CutsNone("");
    WholeRest(m, b);
    var p := Piece(b, AfterBody(m));
    assert PiecesOf(m) == [Piece("", Cut), p];
    LineCommentRead(m, scan);
    FreeAfter(m);
    DateReads(m);
  }

  lemma LineCommentRead(m: Message, scan: Scanner)
    ensures Read(PieceText(Piece("{//", AfterBody(m))), scan) ==
            Object(MembersFrom(DATE, m.date, AfterDate(m), map[]))
  {
    hide EscapeAll, RestText, ParseMembers, LineTokens, MembersFrom, Lex;
    var r := AfterBody(m);
    AfterIsSober(m);
    CutRead("{//", r, scan);
    var ls := LineTokens(r);
    assert RawLex("{//", Open) == Raw([BraceOpen], Line) by { BraceLexed(); }
    var ts := [BraceOpen] + ls;
    assert CutTokens("{//", Open, r) == ts;
    assert Skip(ts) == ts && ts[1..] == ls;
    LineMembers(r, ls, scan);
  }

  lemma BraceLexed()
    ensures RawLex("{//", Open) == Raw([BraceOpen], Line)
  {
    var u := "{//";
    assert u[1..] == "//" && Opens("//") && RawLex("//", Open) == Raw([], Line);
    assert !("true" <= u) && !("false" <= u) && !("null" <= u);
    assert RawNext(u) == Lexeme(BraceOpen, "//");
  }

  lemma WholeRest(m: Message, b: string)
    requires SEPARATOR !in b && Clean(m.(body := ""))
    ensures Cuts(b, AfterBody(m)) == [Piece(b, AfterBody(m))]
  {
    FindUnique(b, SEPARATOR, |b|);
    FindUnique(m.date, SEPARATOR, |m.date|);
    FindUnique(m.id, SEPARATOR, |m.id|);
    FindUnique(m.sender, SEPARATOR, |m.sender|);
    assert Cuts(m.sender, Close) == [Piece(m.sender, Close)];
    assert Cuts(m.id, AfterId(m)) == [Piece(m.id, AfterId(m))];
    assert Cuts(m.date, AfterDate(m)) == [Piece(m.date, AfterDate(m))];
  }

  lemma FreeAfter(m: Message)
    requires Clean(m.(body := ""))
    ensures FreeRest(AfterBody(m))
  {
    assert FreeRest(AfterId(m)) && FreeRest(AfterDate(m));
  }
}
