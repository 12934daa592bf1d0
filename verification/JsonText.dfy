/** JSON text as the server's library writes and reads it: styled objects whose members are
    strings and booleans on the one side, and on the other the whole reader, with comments,
    numbers, arrays and nested values. */
module JsonText {
  import opened Records
  import opened Words

  // ---------------------------------------------------------------------
  // Quoted strings.

  /** One character inside quotes. */
  function Escape(c: char): (s: string)
    ensures s != ""
  {
    var n := c as int;
    if c == '"' then "\\\""
    else if c == '\\' then "\\\\"
    else if n == 8 then "\\b"
    else if n == 12 then "\\f"
    else if n == 10 then "\\n"
    else if n == 13 then "\\r"
    else if n == 9 then "\\t"
    else if n < 32 then "\\u00" + [UpperHex(n / 16) as char, UpperHex(n % 16) as char]
    else [c]
  }

  function EscapeAll(s: string): (t: string) {
    if s == "" then "" else Escape(s[0]) + EscapeAll(s[1..])
  }

  function Quote(s: string): (t: string) { "\"" + EscapeAll(s) + "\"" }

  function HexDigitValue(c: char): (v: int)
    ensures -1 <= v < 16
  {
    if '0' <= c <= '9' then c as int - 48
    else if 'a' <= c <= 'f' then c as int - 87
    else if 'A' <= c <= 'F' then c as int - 55
    else -1
  }

  /** The number written by the first four characters, -1 if they are not hex digits. */
  function FourDigits(s: string): (v: int)
    ensures -1 <= v < 0x10000 && (v >= 0 ==> |s| >= 4)
  {
    if |s| < 4 then -1
    else
      var a, b, c, d := HexDigitValue(s[0]), HexDigitValue(s[1]), HexDigitValue(s[2]), HexDigitValue(s[3]);
      if a < 0 || b < 0 || c < 0 || d < 0 then -1 else ((a * 16 + b) * 16 + c) * 16 + d
  }

  /** A code point as octets. */
  function Utf8(cp: int): (s: string)
    requires 0 <= cp < 0x110000
  {
    if cp < 0x80 then [cp as char]
    else if cp < 0x800 then [(0xC0 + cp / 0x40) as char, (0x80 + cp % 0x40) as char]
    else if cp < 0x10000 then
      [(0xE0 + cp / 0x1000) as char, (0x80 + cp / 0x40 % 0x40) as char, (0x80 + cp % 0x40) as char]
    else
      [(0xF0 + cp / 0x40000) as char, (0x80 + cp / 0x1000 % 0x40) as char,
       (0x80 + cp / 0x40 % 0x40) as char, (0x80 + cp % 0x40) as char]
  }

  datatype Unescaped = Wrong | Escaped(text: string, rest: string)

  function Plain(c: char): (s: string) {
    if c == 'b' then [8 as char]
    else if c == 'f' then [12 as char]
    else if c == 'n' then [10 as char]
    else if c == 'r' then [13 as char]
    else if c == 't' then [9 as char]
    else if c == '"' || c == '\\' || c == '/' then [c]
    else ""
  }

  /** What an escape stands for; `s` follows the backslash. */
  function Unescape(s: string): (r: Unescaped)
    ensures r.Escaped? ==> |r.rest| < |s|
  {
    if s == "" then Wrong
    else if s[0] != 'u' then (if Plain(s[0]) == "" then Wrong else Escaped(Plain(s[0]), s[1..]))
    else
      var cp := FourDigits(s[1..]);
      if cp < 0 then Wrong
      else if 0xD800 <= cp < 0xDC00 then
        var t := s[5..];
        if |t| < 6 || t[0] != '\\' || t[1] != 'u' || FourDigits(t[2..]) < 0 then Wrong
        else Escaped(Utf8(0x10000 + cp % 0x400 * 0x400 + FourDigits(t[2..]) % 0x400), t[6..])
      else Escaped(Utf8(cp), s[5..])
  }

  /** `Json::Reader::decodeString` on what stands between the quotes. */
  function Decode(s: string): (r: Option<string>)
    decreases |s|
  {
    if s == "" || s[0] == '"' then Some("")
    else if s[0] == '\\' then
      match Unescape(s[1..])
      case Wrong => None
      case Escaped(c, rest) => Before(c, Decode(rest))
    else Before([s[0]], Decode(s[1..]))
  }

  function Before(c: string, r: Option<string>): (q: Option<string>) {
    match r
    case None => None
    case Some(t) => Some(c + t)
  }

  /** `Json::Reader::readString`: where the closing quote is, the end of the text if there is
      none. */
  function StringLen(s: string): (k: nat)
    ensures k <= |s| && (k < |s| ==> s[k] == '"')
  {
    if s == "" || s[0] == '"' then 0
    else if s[0] == '\\' then (if |s| < 2 then |s| else 2 + StringLen(s[2..]))
    else 1 + StringLen(s[1..])
  }

  lemma DecodeOne(c: char, t: string)
    ensures Decode(Escape(c) + t) == Before([c], Decode(t))
  {
    var n := c as int;
    var s := Escape(c) + t;
    if c == '"' || c == '\\' || n in {8, 9, 10, 12, 13} {
      assert s[0] == '\\' && s[1..] == [Escape(c)[1]] + t;
      assert s[1..][1..] == t && Plain(s[1]) == [c];
    } else if n < 32 {
      var u := s[1..];
      assert s[0] == '\\' && u == "u00" + [UpperHex(n / 16) as char, UpperHex(n % 16) as char] + t;
      var d := u[1..];
      assert d[0] == '0' && d[1] == '0' && d[2] == UpperHex(n / 16) as char && d[3] == UpperHex(n % 16) as char;
      HexDigitRead(n / 16);
      HexDigitRead(n % 16);
      assert FourDigits(d) == n;
      assert u[5..] == t;
    } else {
      assert s[0] == c && s[1..] == t;
    }
  }

  lemma HexDigitRead(d: int)
    requires 0 <= d < 16
    ensures HexDigitValue(UpperHex(d) as char) == d
    ensures var c := UpperHex(d) as char; c != '"' && c != '\\'
  {
  }

  /** Decoding undoes escaping. */
  lemma {:induction false} DecodeEscaped(s: string)
    ensures Decode(EscapeAll(s)) == Some(s)
  {
    hide Escape, Decode;
    if s == "" {
      DecodeNothing();
    } else {
      DecodeOne(s[0], EscapeAll(s[1..]));
      DecodeEscaped(s[1..]);
      assert [s[0]] + s[1..] == s;
    }
  }

  lemma DecodeNothing()
    ensures Decode("") == Some("")
  {
  }

  lemma StringLenOne(c: char, t: string)
    ensures StringLen(Escape(c) + t) == |Escape(c)| + StringLen(t)
  {
    hide StringLen, UpperHex;
    var n := c as int;
    if c == '"' || c == '\\' || n in {8, 9, 10, 12, 13} {
      StringLenPair(Escape(c)[1], t);
      assert Escape(c) == ['\\', Escape(c)[1]];
    } else if n < 32 {
      StringLenControl(n, t);
    } else {
      StringLenPlain(c, t);
    }
  }

  lemma StringLenPair(c: char, t: string)
    ensures StringLen(['\\', c] + t) == 2 + StringLen(t)
  {
    assert (['\\', c] + t)[2..] == t;
  }

  lemma StringLenControl(n: int, t: string)
    requires 0 <= n < 32
    ensures StringLen("\\u00" + [UpperHex(n / 16) as char, UpperHex(n % 16) as char] + t) == 6 + StringLen(t)
  {
    hide StringLen, UpperHex;
    HexDigitRead(n / 16);
    HexDigitRead(n % 16);
    var a, b := UpperHex(n / 16) as char, UpperHex(n % 16) as char;
    StringLenPair('u', ['0'] + (['0'] + ([a] + ([b] + t))));
    StringLenPlain('0', ['0'] + ([a] + ([b] + t)));
    StringLenPlain('0', [a] + ([b] + t));
    StringLenPlain(a, [b] + t);
    StringLenPlain(b, t);
    assert "\\u00" + [a, b] + t == ['\\', 'u'] + (['0'] + (['0'] + ([a] + ([b] + t))));
  }

  lemma StringLenPlain(c: char, t: string)
    requires c != '"' && c != '\\'
    ensures StringLen([c] + t) == 1 + StringLen(t)
  {
    assert ([c] + t)[1..] == t;
  }

  /** Behind an escaped text the next closing quote is the one that follows the text. */
  lemma {:induction false} StringLenEscaped(s: string, t: string)
    ensures StringLen(EscapeAll(s) + t) == |EscapeAll(s)| + StringLen(t)
  {
    hide Escape, StringLen;
    if s == "" {
      assert EscapeAll(s) + t == t;
    } else {
      var u := EscapeAll(s[1..]) + t;
      assert EscapeAll(s) + t == Escape(s[0]) + u;
      StringLenOne(s[0], u);
      StringLenEscaped(s[1..], t);
    }
  }

  // ---------------------------------------------------------------------
  // Tokens.

  datatype Token =
    | BraceOpen | BraceClose | BracketOpen | BracketClose | Comma | Colon
    | Str(text: Option<string>)   // None when it cannot be decoded
    | Num(digits: string)
    | Word(value: Value)
    | Remark
    | Stop                        // a NUL, or the end of the text
    | Bad

  datatype Lexeme = Lexeme(token: Token, rest: string)

  predicate Space(c: char) { c == ' ' || c == '\t' || c == '\r' || c == '\n' }

  predicate Digit(c: char) { '0' <= c <= '9' }

  function SkipSpaces(s: string): (t: string)
    ensures |t| <= |s| && (t != "" ==> !Space(t[0]))
  {
    if s != "" && Space(s[0]) then SkipSpaces(s[1..]) else s
  }

  datatype Part = Whole | Fraction | Sign | Exponent

  /** `Json::Reader::readNumber`: how many more characters belong to the number. */
  function NumberLen(s: string, part: Part): (k: nat)
    ensures k <= |s|
  {
    if s == "" then 0
    else if Digit(s[0]) then 1 + NumberLen(s[1..], if part == Sign then Exponent else part)
    else if part == Whole && s[0] == '.' then 1 + NumberLen(s[1..], Fraction)
    else if (part == Whole || part == Fraction) && (s[0] == 'e' || s[0] == 'E') then 1 + NumberLen(s[1..], Sign)
    else if part == Sign && (s[0] == '+' || s[0] == '-') then 1 + NumberLen(s[1..], Exponent)
    else 0
  }

  /** Where a comment opened by a slash and a star ends, the end of the text if it does not. */
  function BlockLen(s: string): (k: nat)
    ensures k <= |s| && (k < |s| ==> k + 2 <= |s| && s[k] == '*' && s[k + 1] == '/')
  {
    if |s| < 2 then |s| else if s[0] == '*' && s[1] == '/' then 0 else 1 + BlockLen(s[1..])
  }

  /** What follows a comment opened by two slashes. */
  function AfterLine(s: string): (t: string)
    ensures |t| <= |s|
  {
    if s == "" then ""
    else if s[0] == '\n' then s[1..]
    else if s[0] == '\r' then (if |s| > 1 && s[1] == '\n' then s[2..] else s[1..])
    else AfterLine(s[1..])
  }

  /** The rest of a comment opened by a slash and a star. */
  function AfterBlock(s: string): (x: Lexeme)
    ensures |x.rest| <= |s|
  {
    var k := BlockLen(s);
    if k < |s| then Lexeme(Remark, s[k + 2..]) else Lexeme(Bad, "")
  }

  function StringToken(s: string): (x: Lexeme)
    ensures |x.rest| <= |s|
  {
    var k := StringLen(s);
    if k < |s| then Lexeme(Str(Decode(s[..k])), s[k + 1..]) else Lexeme(Bad, "")
  }

  function CommentToken(s: string): (x: Lexeme)
    ensures |x.rest| <= |s|
  {
    if s == "" then Lexeme(Bad, "")
    else if s[0] == '*' then AfterBlock(s[1..])
    else if s[0] == '/' then Lexeme(Remark, AfterLine(s[1..]))
    else Lexeme(Bad, s[1..])
  }

  function WordToken(s: string, word: string, v: Value): (x: Lexeme)
    requires s != ""
    ensures |x.rest| < |s|
  {
    if word != "" && word <= s then Lexeme(Word(v), s[|word|..]) else Lexeme(Bad, s[1..])
  }

  function Mark(c: char): (t: Token) {
    match c
    case '{' => BraceOpen
    case '}' => BraceClose
    case '[' => BracketOpen
    case ']' => BracketClose
    case ',' => Comma
    case ':' => Colon
    case _ => if c == NUL then Stop else Bad
  }

  /** `Json::Reader::readToken`, behind the spaces. */
  function Next(s: string): (x: Lexeme)
    requires s != ""
    ensures |x.rest| < |s|
  {
    var c := s[0];
    if c == '"' then StringToken(s[1..])
    else if c == '/' then CommentToken(s[1..])
    else if Digit(c) || c == '-' then
      var k := 1 + NumberLen(s[1..], Whole);
      Lexeme(Num(s[..k]), s[k..])
    else if c == 't' then WordToken(s, "true", Flag(true))
    else if c == 'f' then WordToken(s, "false", Flag(false))
    else if c == 'n' then WordToken(s, "null", Null)
    else Lexeme(Mark(c), s[1..])
  }

  /** All tokens of a text.  The reader asks for them one after the other. */
  function Lex(s: string): (ts: seq<Token>)
    decreases |s|
  {
    var t := SkipSpaces(s);
    if t == "" then [] else [Next(t).token] + Lex(Next(t).rest)
  }

  // ---------------------------------------------------------------------
  // Values.

  /** The depth of nested values from which on the reader raises an exception. */
  const STACK_LIMIT := 1000

  datatype Node = Leaf(value: Value) | Members(members: Json) | Items

  datatype Result = Fail | Raise | Got(node: Node, rest: seq<Token>)

  function First(ts: seq<Token>): (t: Token) { if ts == [] then Stop else ts[0] }

  /** The tokens behind leading comments. */
  function Skip(ts: seq<Token>): (us: seq<Token>)
    ensures |us| <= |ts| && !First(us).Remark?
  {
    if ts != [] && ts[0].Remark? then Skip(ts[1..]) else ts
  }

  function Kept(n: Node): (v: Value) { if n.Leaf? then n.value else Nested }

  predicate AllDigits(s: string) { forall i :: 0 <= i < |s| ==> Digit(s[i]) }

  function DigitsValue(s: string): (n: nat)
    requires AllDigits(s)
  {
    if s == "" then 0 else 10 * DigitsValue(s[..|s| - 1]) + (s[|s| - 1] as int - '0' as int)
  }

  function Decimal(n: nat): (s: string) {
    (if n < 10 then "" else Decimal(n / 10)) + [(n % 10 + '0' as int) as char]
  }

  /** `Json::Reader::decodeNumber` and the text the number prints as.  Integers are decoded as
      such while they fit 64 bits; `scan` is the library's scanning and printing of the others,
      which may fail. */
  function DecodeNumber(t: string, scan: string -> Option<string>): (r: Option<string>) {
    var negative := t != "" && t[0] == '-';
    var digits := if negative then t[1..] else t;
    var limit := if negative then 0x8000_0000_0000_0000 else 0xFFFF_FFFF_FFFF_FFFF;
    if AllDigits(digits) && DigitsValue(digits) <= limit then
      var n := DigitsValue(digits);
      Some((if negative && n != 0 then "-" else "") + Decimal(n))
    else scan(t)
  }

  /** `Json::Reader::readValue`. */
  function ParseValue(ts: seq<Token>, depth: nat, scan: string -> Option<string>): (r: Result)
    ensures r.Got? ==> |r.rest| < |ts|
    decreases |ts|, 0
  {
    var us := Skip(ts);
    if depth >= STACK_LIMIT then Raise
    else if us == [] then Fail
    else
      match us[0]
      case BraceOpen => ParseMembers(us[1..], map[], "", depth + 1, scan)
      case BracketOpen =>
        if First(us[1..]) == BracketClose then Got(Items, us[2..]) else ParseItems(us[1..], depth + 1, scan)
      case Num(t) =>
        var n := DecodeNumber(t, scan);
        if n.Some? then Got(Leaf(Number(n.value)), us[1..]) else Fail
      case Str(t) => if t.Some? then Got(Leaf(Text(t.value)), us[1..]) else Fail
      case Word(v) => Got(Leaf(v), us[1..])
      case _ => Fail
  }

  /** `Json::Reader::readArray`, behind the bracket. */
  function ParseItems(ts: seq<Token>, depth: nat, scan: string -> Option<string>): (r: Result)
    ensures r.Got? ==> |r.rest| < |ts|
    decreases |ts|, 1
  {
    match ParseValue(ts, depth, scan)
    case Fail => Fail
    case Raise => Raise
    case Got(_, rest) =>
      var us := Skip(rest);
      if First(us) == Comma then ParseItems(us[1..], depth, scan)
      else if First(us) == BracketClose then Got(Items, us[1..])
      else Fail
  }

  /** `Json::Reader::readObject`, behind the brace, with the members read so far and the last
      name. */
  function ParseMembers(ts: seq<Token>, o: Json, last: string, depth: nat, scan: string -> Option<string>)
    : (r: Result)
    ensures r.Got? ==> |r.rest| < |ts|
    decreases |ts|, 1
  {
    var us := Skip(ts);
    if First(us) == BraceClose && last == "" then Got(Members(o), us[1..])
    else if First(us).Str? && us[0].text.Some? && First(us[1..]) == Colon then
      match ParseValue(us[2..], depth, scan)
      case Fail => Fail
      case Raise => Raise
      case Got(node, rest) =>
        var name := us[0].text.value;
        ParseMore(rest, o[name := Kept(node)], name, depth, scan)
    else Fail
  }

  /** The same behind a member.  Behind a comment any token does for the comma. */
  function ParseMore(ts: seq<Token>, o: Json, last: string, depth: nat, scan: string -> Option<string>): (r: Result)
    ensures r.Got? ==> |r.rest| < |ts|
    decreases |ts|, 1
  {
    var us := Skip(ts);
    if First(ts) != BraceClose && First(ts) != Comma && First(ts) != Remark then Fail
    else if First(us) == BraceClose then Got(Members(o), us[1..])
    else ParseMembers(if us == [] then [] else us[1..], o, last, depth, scan)
  }

  /** What `get` finds in the parsed value. */
  function View(r: Result): (p: Parse) {
    match r
    case Fail => Failed
    case Raise => Other
    case Got(node, _) =>
      if node.Members? then Object(node.members)
      else if node == Leaf(Null) then Object(map[])
      else Other
  }

  /** `Json::Reader::parse`. */
  function Read(s: string, scan: string -> Option<string>): (p: Parse) {
    View(ParseValue(Lex(s), 0, scan))
  }

  // ---------------------------------------------------------------------
  // Writing.

  predicate Writable(v: Value) { v.Text? || v.Flag? }

  function ValueText(v: Value): (s: string)
    requires Writable(v)
  {
    match v
    case Text(t) => Quote(t)
    case Flag(b) => if b then "true" else "false"
  }

  /** A member name as it is written: a NUL ends it. */
  function UpToNul(k: string): (s: string) {
    if k == "" || k[0] == NUL then "" else [k[0]] + UpToNul(k[1..])
  }

  function Member(k: string, v: Value): (s: string)
    requires Writable(v)
  {
    "\n   " + Quote(UpToNul(k)) + " : " + ValueText(v)
  }

  ghost predicate Holds(o: Json, ks: seq<string>) {
    forall k :: k in ks ==> k in o && Writable(o[k])
  }

  /** The members of `o` named by `ks`, in that order, and the closing brace. */
  ghost function WriteMembers(o: Json, ks: seq<string>): (s: string)
    requires ks != [] && Holds(o, ks)
  {
    Member(ks[0], o[ks[0]]) + if |ks| == 1 then "\n}\n" else "," + WriteMembers(o, ks[1..])
  }

  /** The names of the members, each once, in some order. */
  ghost predicate Lists(ks: seq<string>, o: Json) {
    (forall k :: k in ks <==> k in o) && forall i, j :: 0 <= i < j < |ks| ==> ks[i] != ks[j]
  }

  /** `Json::Value::toStyledString`, with the members in the order `ks`. */
  ghost function WriteIn(o: Json, ks: seq<string>): (s: string)
    requires Lists(ks, o) && Holds(o, ks)
  {
    if ks == [] then "{}\n" else "{" + WriteMembers(o, ks)
  }

  // ---------------------------------------------------------------------
  // The tokens of a written text.

  lemma LexSpace(c: char, t: string)
    requires Space(c)
    ensures Lex([c] + t) == Lex(t)
  {
    hide Next;
    assert ([c] + t)[1..] == t;
    assert SkipSpaces([c] + t) == SkipSpaces(t);
  }

  lemma LexIndent(t: string)
    ensures Lex("\n   " + t) == Lex(t) && Lex(" " + t) == Lex(t) && Lex("\n" + t) == Lex(t) && Lex("   " + t) == Lex(t)
  {
    hide Lex;
    var a := "   " + t;
    var b := "  " + t;
    var c := " " + t;
    assert "\n   " + t == ['\n'] + a && a == [' '] + b && b == [' '] + c && c == [' '] + t && "\n" + t == ['\n'] + t;
    LexSpace('\n', a);
    LexSpace(' ', b);
    LexSpace(' ', c);
    LexSpace(' ', t);
    LexSpace('\n', t);
  }

  lemma LexNext(s: string)
    requires s != "" && !Space(s[0])
    ensures Lex(s) == [Next(s).token] + Lex(Next(s).rest)
  {
    hide Next;
  }

  lemma LexMark(c: char, t: string)
    requires c in {'{', '}', '[', ']', ',', ':'}
    ensures Lex([c] + t) == [Mark(c)] + Lex(t)
  {
    hide Lex;
    var s := [c] + t;
    assert s[1..] == t;
    LexNext(s);
  }

  /** A quoted text is one string token, whatever follows. */
  lemma LexQuoted(u: string, t: string)
    ensures Lex(Quote(u) + t) == [Str(Some(u))] + Lex(t)
  {
    hide Lex, EscapeAll, StringLen, Decode;
    var s := Quote(u) + t;
    var e := EscapeAll(u);
    assert s[1..] == e + ("\"" + t);
    StringLenEscaped(u, "\"" + t);
    StringLenEnds(t);
    DecodeEscaped(u);
    assert s[1..][..|e|] == e && s[1..][|e| + 1..] == t;
    LexNext(s);
  }

  lemma StringLenEnds(t: string)
    ensures StringLen("\"" + t) == 0
  {
  }

  lemma LexFlag(b: bool, t: string)
    ensures Lex((if b then "true" else "false") + t) == [Word(Flag(b))] + Lex(t)
  {
    hide Lex;
    var w := if b then "true" else "false";
    var s := w + t;
    assert s[0] == w[0] && w <= s && s[|w|..] == t;
    LexNext(s);
  }

  function ValueToken(v: Value): (t: Token) { if v.Text? then Str(Some(v.text)) else Word(v) }

  lemma LexValue(v: Value, t: string)
    requires Writable(v)
    ensures Lex(ValueText(v) + t) == [ValueToken(v)] + Lex(t)
  {
    hide Lex, Quote;
    if v.Text? { LexQuoted(v.text, t); } else { LexFlag(v.flag, t); }
  }

  function MemberTokens(k: string, v: Value): (ts: seq<Token>) { [Str(Some(k)), Colon, ValueToken(v)] }

  lemma LexMember(k: string, v: Value, t: string)
    requires Writable(v)
    ensures Lex(Member(k, v) + t) == MemberTokens(UpToNul(k), v) + Lex(t)
  {
    hide Lex, Quote, UpToNul, ValueText;
    var n := UpToNul(k);
    var c := ValueText(v) + t;
    var b := ":" + (" " + c);
    var a := Quote(n) + (" " + b);
    assert Member(k, v) + t == "\n   " + a;
    LexIndent(a);
    LexQuoted(n, " " + b);
    LexIndent(b);
    LexMark(':', " " + c);
    LexIndent(c);
    LexValue(v, t);
  }

  /** The tokens of the written members and the closing brace. */
  ghost function TokensOf(o: Json, ks: seq<string>): (ts: seq<Token>)
    requires ks != [] && Holds(o, ks)
  {
    MemberTokens(UpToNul(ks[0]), o[ks[0]]) + if |ks| == 1 then [BraceClose] else [Comma] + TokensOf(o, ks[1..])
  }

  lemma LexClose()
    ensures Lex("\n}\n") == [BraceClose] && Lex("}\n") == [BraceClose]
  {
    hide Lex;
    LexMark('}', "\n");
    assert ['}'] + "\n" == "}\n";
    LexIndent("}\n");
    LexIndent("");
    assert "\n" + "" == "\n" && "\n" + "}\n" == "\n}\n";
    LexNothing();
  }

  lemma LexNothing()
    ensures Lex("") == []
  {
  }

  lemma {:induction false} LexMembers(o: Json, ks: seq<string>)
    requires ks != [] && Holds(o, ks)
    ensures Lex(WriteMembers(o, ks)) == TokensOf(o, ks)
  {
    hide Lex, Member, UpToNul, MemberTokens;
    var k := ks[0];
    if |ks| == 1 {
      LexMember(k, o[k], "\n}\n");
      LexClose();
    } else {
      var rest := WriteMembers(o, ks[1..]);
      LexMember(k, o[k], "," + rest);
      LexMark(',', rest);
      LexMembers(o, ks[1..]);
    }
  }

  // ---------------------------------------------------------------------
  // Reading what was written.

  /** The members as their names are written. */
  ghost function Written(o: Json, ks: seq<string>, before: Json): (r: Json)
    requires Holds(o, ks)
  {
    if ks == [] then before else Written(o, ks[1..], before[UpToNul(ks[0]) := o[ks[0]]])
  }

  /** A written member is read back, and reading goes on behind it. */
  lemma MemberParsed(k: string, v: Value, ts: seq<Token>, o: Json, last: string, depth: nat,
                     scan: string -> Option<string>)
    requires Writable(v) && depth < STACK_LIMIT && ts != [] && (ts[0] == Comma || ts[0] == BraceClose)
    ensures ParseMembers(MemberTokens(k, v) + ts, o, last, depth, scan) ==
            if ts[0] == BraceClose then Got(Members(o[k := v]), ts[1..])
            else ParseMembers(ts[1..], o[k := v], k, depth, scan)
  {
    var all := MemberTokens(k, v) + ts;
    assert Skip(all) == all && all[2..] == [ValueToken(v)] + ts && all[1..][0] == Colon;
    assert ParseValue([ValueToken(v)] + ts, depth, scan) == Got(Leaf(v), ts);
    assert Skip(ts) == ts;
  }

  lemma {:induction false} TokensParsed(o: Json, ks: seq<string>, before: Json, last: string, depth: nat,
                                        scan: string -> Option<string>)
    requires ks != [] && Holds(o, ks) && depth < STACK_LIMIT
    ensures ParseMembers(TokensOf(o, ks), before, last, depth, scan) == Got(Members(Written(o, ks, before)), [])
  {
    hide ParseMembers, MemberTokens, UpToNul;
    var k := UpToNul(ks[0]);
    var v := o[ks[0]];
    if |ks| == 1 {
      MemberParsed(k, v, [BraceClose], before, last, depth, scan);
      assert ks[1..] == [];
    } else {
      var rest := TokensOf(o, ks[1..]);
      MemberParsed(k, v, [Comma] + rest, before, last, depth, scan);
      assert ([Comma] + rest)[1..] == rest;
      TokensParsed(o, ks[1..], before[k := v], k, depth, scan);
    }
  }

  /** Reading a written object gives its members, each under its name up to a NUL. */
  lemma ReadWrittenIn(o: Json, ks: seq<string>, scan: string -> Option<string>)
    requires Lists(ks, o) && Holds(o, ks)
    ensures Read(WriteIn(o, ks), scan) == Object(Written(o, ks, map[]))
  {
    hide ParseMembers, WriteMembers, Lex, TokensOf, Written, Lists;
    if ks == [] {
      NothingRead(scan);
      assert Written(o, [], map[]) == map[] by { WrittenNone(o); }
    } else {
      LexMark('{', WriteMembers(o, ks));
      LexMembers(o, ks);
      TokensParsed(o, ks, map[], "", 1, scan);
      var ts := [BraceOpen] + TokensOf(o, ks);
      assert Skip(ts) == ts && ts[1..] == TokensOf(o, ks);
    }
  }

  lemma WrittenNone(o: Json)
    ensures Written(o, [], map[]) == map[]
  {
  }

  lemma NothingRead(scan: string -> Option<string>)
    ensures Read("{}\n", scan) == Object(map[])
  {
    hide Lex;
    LexClose();
    LexMark('{', "}\n");
    assert "{" + "}\n" == "{}\n";
    var ts := [BraceOpen, BraceClose];
    assert Skip(ts) == ts && ts[1..] == [BraceClose] && Skip([BraceClose]) == [BraceClose];
  }

  lemma {:induction false} NulEnds(k: string)
    ensures NoNul(UpToNul(k)) && (NoNul(k) ==> UpToNul(k) == k)
  {
    if k != "" && k[0] != NUL {
      NulEnds(k[1..]);
      assert k == [k[0]] + k[1..];
    }
  }

  function Restrict(o: Json, ks: seq<string>): (r: Json)
    requires forall k :: k in ks ==> k in o
  {
    map k | k in ks :: o[k]
  }

  lemma {:induction false} WrittenWhole(o: Json, ks: seq<string>, before: Json)
    requires Holds(o, ks) && forall k :: k in ks ==> NoNul(k)
    ensures Written(o, ks, before) == before + Restrict(o, ks)
  {
    hide UpToNul, NoNul, Restrict;
    if ks == [] {
      assert before + Restrict(o, []) == before by { RestrictNone(o, before); }
    } else {
      var k := ks[0];
      NulEnds(k);
      WrittenWhole(o, ks[1..], before[k := o[k]]);
      RestrictOne(o, ks, before);
    }
  }

  lemma RestrictNone(o: Json, before: Json)
    ensures before + Restrict(o, []) == before
  {
  }

  lemma RestrictOne(o: Json, ks: seq<string>, before: Json)
    requires ks != [] && forall k :: k in ks ==> k in o
    ensures before + Restrict(o, ks) == before[ks[0] := o[ks[0]]] + Restrict(o, ks[1..])
  {
    assert ks == [ks[0]] + ks[1..];
  }

  lemma {:induction false} WrittenNames(o: Json, ks: seq<string>, before: Json)
    requires Holds(o, ks) && forall k :: k in before ==> NoNul(k)
    ensures forall k :: k in Written(o, ks, before) ==> NoNul(k)
  {
    hide UpToNul, NoNul;
    if ks != [] {
      NulEnds(ks[0]);
      WrittenNames(o, ks[1..], before[UpToNul(ks[0]) := o[ks[0]]]);
    }
  }

  /** Reading inverts writing, in whatever order the members are written, if and only if no
      member name holds a NUL. */
  lemma ReadWritten(o: Json, ks: seq<string>, scan: string -> Option<string>)
    requires Lists(ks, o) && Holds(o, ks)
    ensures Read(WriteIn(o, ks), scan) == Object(o) <==> forall k :: k in o ==> NoNul(k)
  {
    hide Read, WriteIn, Written, NoNul;
    ReadWrittenIn(o, ks, scan);
    WrittenNames(o, ks, map[]);
    if forall k :: k in o ==> NoNul(k) {
      WrittenWhole(o, ks, map[]);
      assert map[] + Restrict(o, ks) == o;
    }
  }

  // ---------------------------------------------------------------------
  // The list separator.

  lemma {:induction false} EscapedSeparator(s: string)
    ensures SEPARATOR in EscapeAll(s) <==> SEPARATOR in s
  {
    if s != "" {
      assert SEPARATOR in Escape(s[0]) <==> s[0] == SEPARATOR;
      EscapedSeparator(s[1..]);
      assert s == [s[0]] + s[1..];
    }
  }

  lemma MemberSeparator(k: string, v: Value)
    requires Writable(v) && NoNul(k)
    ensures SEPARATOR in Member(k, v) <==> SEPARATOR in k || (v.Text? && SEPARATOR in v.text)
  {
    hide EscapeAll, UpToNul;
    NulEnds(k);
    EscapedSeparator(k);
    if v.Text? { EscapedSeparator(v.text); }
  }

  lemma {:induction false} MembersSeparator(o: Json, ks: seq<string>)
    requires ks != [] && Holds(o, ks) && forall k :: k in ks ==> NoNul(k)
    ensures SEPARATOR in WriteMembers(o, ks) <==>
            exists k :: k in ks && (SEPARATOR in k || (o[k].Text? && SEPARATOR in o[k].text))
    ensures |WriteMembers(o, ks)| > 0 && WriteMembers(o, ks)[|WriteMembers(o, ks)| - 1] == '\n'
  {
    hide Member, NoNul;
    MemberSeparator(ks[0], o[ks[0]]);
    if |ks| > 1 {
      MembersSeparator(o, ks[1..]);
      assert forall k :: k in ks <==> k == ks[0] || k in ks[1..];
    }
  }

  /** The written text holds the separator exactly when a name or a value does. */
  lemma WrittenSeparator(o: Json, ks: seq<string>)
    requires Lists(ks, o) && Holds(o, ks) && forall k :: k in o ==> NoNul(k)
    ensures WellWritten(WriteIn(o, ks))
    ensures SEPARATOR in WriteIn(o, ks) <==> Mentions(o, SEPARATOR)
  {
    hide WriteMembers, NoNul;
    if ks != [] { MembersSeparator(o, ks); }
  }

  // ---------------------------------------------------------------------
  // The order of the members.

  /** The order of member names: by octets, a prefix first. */
  predicate Less(a: string, b: string) {
    if b == "" then false
    else if a == "" then true
    else if a[0] != b[0] then a[0] < b[0]
    else Less(a[1..], b[1..])
  }

  lemma {:induction false} LessIsTotal(a: string, b: string)
    ensures !Less(a, a) && (Less(a, b) || a == b || Less(b, a)) && !(Less(a, b) && Less(b, a))
  {
    if a != "" {
      LessIsTotal(a[1..], if b == "" then "" else b[1..]);
      if b != "" && a[0] == b[0] { assert a == [a[0]] + a[1..] && b == [b[0]] + b[1..]; }
    }
  }

  lemma {:induction false} LessIsTransitive(a: string, b: string, c: string)
    requires Less(a, b) && Less(b, c)
    ensures Less(a, c)
  {
    if a != "" && a[0] == b[0] == c[0] { LessIsTransitive(a[1..], b[1..], c[1..]); }
  }

  ghost predicate Ordered(ks: seq<string>) {
    forall i, j :: 0 <= i < j < |ks| ==> Less(ks[i], ks[j])
  }

  lemma {:induction false} Least(names: set<string>) returns (k: string)
    requires names != {}
    ensures k in names && forall j :: j in names && j != k ==> Less(k, j)
    decreases |names|
  {
    hide Less;
    var n :| n in names;
    var others := names - {n};
    assert forall j :: j in names && j != n ==> j in others;
    k := n;
    if others != {} {
      var l := Least(others);
      LessIsTotal(n, l);
      if Less(n, l) {
        forall j | j in names && j != n && j != l ensures Less(n, j) { LessIsTransitive(n, l, j); }
      } else {
        k := l;
        forall j | j in names && j != l ensures Less(l, j) { assert j == n || j in others; }
      }
    }
  }

  ghost predicate IsLeast(k: string, names: set<string>) {
    k in names && forall j :: j in names && j != k ==> Less(k, j)
  }

  lemma SomeIsLeast(names: set<string>)
    requires names != {}
    ensures exists k :: IsLeast(k, names)
  {
    var k := Least(names);
    assert IsLeast(k, names);
  }

  /** The names of the members of an object, in order. */
  ghost function NamesOf(o: Json): (ks: seq<string>)
    ensures Lists(ks, o) && Ordered(ks)
    decreases |o|
  {
    if o == map[] then []
    else
      hide Less;
      SomeIsLeast(o.Keys);
      var k :| IsLeast(k, o.Keys);
      var ks := NamesOf(o - {k});
      NamesNext(k, ks, o);
      [k] + ks
  }

  lemma NamesNext(k: string, ks: seq<string>, o: Json)
    requires IsLeast(k, o.Keys) && Lists(ks, o - {k}) && Ordered(ks)
    ensures Lists([k] + ks, o) && Ordered([k] + ks)
  {
    hide Less;
    var all := [k] + ks;
    assert forall j :: j in o <==> j == k || j in o - {k};
    forall i, j | 0 <= i < j < |all| ensures Less(all[i], all[j]) && all[i] != all[j] {
      assert all[j] == ks[j - 1] && ks[j - 1] in ks;
      if i > 0 { assert all[i] == ks[i - 1]; }
    }
  }

  /** There is only one order. */
  lemma {:induction false} OneOrder(a: seq<string>, b: seq<string>)
    requires Ordered(a) && Ordered(b) && forall k :: k in a <==> k in b
    ensures a == b
  {
    hide Less;
    SomeMember(a);
    SomeMember(b);
    if a != [] && b != [] {
      SameFirst(a, b);
      assert a == [a[0]] + a[1..] && b == [b[0]] + b[1..];
      SameRest(a, b);
      OneOrder(a[1..], b[1..]);
    }
  }

  lemma SomeMember(a: seq<string>)
    ensures a == [] || exists k :: k in a
  {
    if a != [] { assert a[0] in a; }
  }

  lemma SameFirst(a: seq<string>, b: seq<string>)
    requires a != [] && b != [] && Ordered(a) && Ordered(b) && forall k :: k in a <==> k in b
    ensures a[0] == b[0]
  {
    hide Less;
    assert a[0] in b && b[0] in a;
    LessIsTotal(a[0], b[0]);
  }

  lemma SameRest(a: seq<string>, b: seq<string>)
    requires a != [] && b != [] && Ordered(a) && Ordered(b) && a[0] == b[0] && forall k :: k in a <==> k in b
    ensures forall k :: k in a[1..] <==> k in b[1..]
  {
    hide Less;
    LessIsTotal(a[0], a[0]);
    forall k ensures k in a[1..] <==> k in b[1..] {
      if k in a[1..] { assert k in b && k != a[0]; }
      if k in b[1..] { assert k in a && k != b[0]; }
    }
  }
}
