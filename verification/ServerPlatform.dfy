/** The platform the server runs on: MD5 hex digests as identifiers and the JSON library's text. */
module ServerPlatform {
  import opened Words
  import opened Rfc1321
  import Chat
  import Guarantees
  import JsonText
  import Md5Agreement
  import Pieces
  import Records
  import Remnants
  import Requests
  import Rereading
  import Saying
  import StringUtil
  import Tables

  /** The platform whose identifiers are MD5 hex digests. */
  ghost function Md5Platform(write: Records.Json -> string, read: string -> Records.Parse): (p: Records.Platform) {
    Records.Platform(write, read, (s: string) => Hex(Digest(Octets(s))))
  }

  /** With MD5 digests as identifiers only the JSON laws remain to be assumed. */
  lemma Md5PlatformIsLawful(write: Records.Json -> string, read: string -> Records.Parse)
    ensures Md5Platform(write, read).Lawful() <==>
              && (forall o: Records.Json :: Records.Flat(o) ==> read(write(o)) == Records.Object(o))
              && (forall o: Records.Json :: Records.Flat(o) ==> Records.WellWritten(write(o)))
              && (forall o: Records.Json :: Records.Flat(o) ==>
                    (Records.SEPARATOR in write(o) <==> Records.Mentions(o, Records.SEPARATOR)))
  {
    hide Digest, Hex, Octets, Records.IsDigest, Records.Mentions, Records.WellWritten, Records.Flat;
    var p := Md5Platform(write, read);
    forall s: string ensures Records.IsDigest(p.digest(s)) {
      Md5Agreement.HexIsDigest(Digest(Octets(s)));
    }
  }

  /** The text of an object with its members in the order `names` gives them. */
  ghost function Styled(o: Records.Json, names: Records.Json -> seq<string>): (s: string) {
    if JsonText.Lists(names(o), o) && JsonText.Holds(o, names(o)) then JsonText.WriteIn(o, names(o)) else ""
  }

  /** The names of the members in the order of the map that holds them. */
  ghost predicate InOrder(names: Records.Json -> seq<string>) {
    forall o: Records.Json :: JsonText.Lists(names(o), o) && JsonText.Ordered(names(o))
  }

  /** MD5 identifiers, styled JSON text, and the reader with its scanner of fractions. */
  ghost function ServerOf(names: Records.Json -> seq<string>, scan: Pieces.Scanner): (p: Records.Platform) {
    Md5Platform((o: Records.Json) => Styled(o, names), (s: string) => JsonText.Read(s, scan))
  }

  lemma FlatIsWritten(o: Records.Json, names: Records.Json -> seq<string>)
    requires Records.Flat(o) && JsonText.Lists(names(o), o)
    ensures JsonText.Holds(o, names(o)) && Styled(o, names) == JsonText.WriteIn(o, names(o))
  {
    hide JsonText.WriteIn;
  }

  /** Nothing is left to assume. */
  lemma ServerPlatformIsLawful(names: Records.Json -> seq<string>, scan: Pieces.Scanner)
    requires InOrder(names)
    ensures ServerOf(names, scan).Lawful()
  {
    hide Records.Mentions, Records.WellWritten, JsonText.Lists, JsonText.Ordered, JsonText.Holds, JsonText.Read,
         JsonText.WriteIn, Styled, Records.NoNul;
    forall o: Records.Json | Records.Flat(o)
      ensures JsonText.Read(Styled(o, names), scan) == Records.Object(o)
      ensures Records.WellWritten(Styled(o, names))
      ensures Records.SEPARATOR in Styled(o, names) <==> Records.Mentions(o, Records.SEPARATOR)
    {
      FlatIsWritten(o, names);
      JsonText.ReadWritten(o, names(o), scan);
      JsonText.WrittenSeparator(o, names(o));
    }
    Md5PlatformIsLawful((o: Records.Json) => Styled(o, names), (s: string) => JsonText.Read(s, scan));
  }

  /** There is such a platform. */
  lemma LawfulPlatform(scan: Pieces.Scanner) returns (p: Records.Platform)
    ensures p.Lawful()
  {
    var names := (o: Records.Json) => JsonText.NamesOf(o);
    ServerPlatformIsLawful(names, scan);
    p := ServerOf(names, scan);
  }

  // ---------------------------------------------------------------------
  // Messages with a separator in them.

  /** A text that does not end with a separator is split into its fields. */
  lemma FieldsOf(w: string, d: char)
    requires w != "" && w[|w| - 1] != d
    ensures StringUtil.Split(StringUtil.Join([w], d), d) == StringUtil.Fields(w, d)
  {
    hide StringUtil.Split, StringUtil.Fields, StringUtil.Join;
    Saying.JoinOne(w, d);
    StringUtil.SplitIsFields(w, d);
    StringUtil.LastField(w, d);
  }

  ghost function FirstText(m: Records.Message): (s: string) {
    "{" + Pieces.NameText(Remnants.BODY, Remnants.PieceText(Remnants.PiecesOf(m)[0]))
  }

  /** What a message reads back as: its pieces in order. */
  lemma RereadPieces(names: Records.Json -> seq<string>, scan: Pieces.Scanner, m: Records.Message)
    requires InOrder(names)
    ensures var p := ServerOf(names, scan);
            Chat.Reread(p, [m]) ==
            Tables.ReadMessages(p, [FirstText(m)] + Remnants.Texts(Remnants.PiecesOf(m)[1..]))
  {
    hide JsonText.Lists, JsonText.Ordered, JsonText.Holds, JsonText.Read, JsonText.WriteIn, Records.MessageJson,
         StringUtil.Split, StringUtil.Join, StringUtil.Fields, Remnants.PiecesOf, Remnants.Texts, Tables.ReadMessages,
         Records.Flat, Records.Clean, FirstText, Records.WellWritten, Records.Mentions;
    var p, o := ServerOf(names, scan), Records.MessageJson(m);
    ServerPlatformIsLawful(names, scan);
    Records.MessageIsFlat(m);
    FlatIsWritten(o, names);
    var w := Records.WriteMessage(p, m);
    assert w == JsonText.WriteIn(o, names(o));
    Records.WrittenMessage(p, m);
    EndsWell(w);
    FieldsOf(w, Records.SEPARATOR);
    FieldsAre(m, names(o));
    assert Tables.WriteMessages(p, [m]) == [w];
  }

  lemma EndsWell(w: string)
    requires Records.WellWritten(w)
    ensures w != "" && w[|w| - 1] != Records.SEPARATOR
  {
  }

  lemma FieldsAre(m: Records.Message, ks: seq<string>)
    requires JsonText.Lists(ks, Records.MessageJson(m)) && JsonText.Ordered(ks)
    ensures JsonText.Holds(Records.MessageJson(m), ks)
    ensures StringUtil.Fields(JsonText.WriteIn(Records.MessageJson(m), ks), Records.SEPARATOR) ==
            [FirstText(m)] + Remnants.Texts(Remnants.PiecesOf(m)[1..])
  {
    hide JsonText.Lists, JsonText.Ordered, JsonText.Holds, JsonText.WriteIn, StringUtil.Fields, Remnants.Texts;
    Remnants.MessageFields(m, ks);
  }

  /** The platform reads as the library does. */
  ghost predicate Reads(p: Records.Platform, scan: Pieces.Scanner) {
    forall s: string :: p.read(s) == JsonText.Read(s, scan)
  }

  lemma ServerOfReads(names: Records.Json -> seq<string>, scan: Pieces.Scanner)
    ensures Reads(ServerOf(names, scan), scan)
  {
    hide JsonText.Read, Styled;
  }

  lemma ReadOne(p: Records.Platform, scan: Pieces.Scanner, s: string)
    requires Reads(p, scan)
    ensures Records.ReadMessage(p, s) ==
            match JsonText.Read(s, scan)
            case Failed => Records.Done(Records.BLANK)
            case Other => Records.Raised
            case Object(o) => Records.MessageOf(o)
  {
    hide JsonText.Read, Records.MessageOf;
  }

  /** One piece behind the first. */
  lemma PieceReads(p: Records.Platform, scan: Pieces.Scanner, m: Records.Message, i: nat)
    requires Reads(p, scan) && 1 <= i < |Remnants.PiecesOf(m)|
    ensures var q := Remnants.PiecesOf(m)[i];
            var n := Records.ReadMessage(p, Remnants.PieceText(q));
            && (n.Raised? <==> Remnants.PieceSpills(q, scan))
            && (n.Done? ==> Remnants.IsRemnant(n.value, m) && Records.Clean(n.value))
  {
    hide JsonText.Read, Remnants.PiecesOf, Remnants.PieceText, Remnants.PieceSpills, Records.MessageOf, Reads,
         Records.ReadMessage;
    Remnants.PieceReads(m, i, scan);
    ReadOne(p, scan, Remnants.PieceText(Remnants.PiecesOf(m)[i]));
  }

  /** The first piece of a message that is cut. */
  lemma FirstReads(p: Records.Platform, scan: Pieces.Scanner, m: Records.Message)
    requires Reads(p, scan) && |Remnants.PiecesOf(m)| > 1
    ensures Records.ReadMessage(p, FirstText(m)) == Records.Done(Records.BLANK)
  {
    hide JsonText.Read, Remnants.Cuts, Pieces.RestText, JsonText.EscapeAll, Pieces.NameText, Reads;
    var q := Remnants.PiecesOf(m)[0];
    Remnants.AfterIsSober(m);
    Remnants.FirstCloses(m.body, Remnants.AfterBody(m));
    Remnants.FirstRead(Remnants.BODY, q.text, q.rest, scan);
    ReadOne(p, scan, FirstText(m));
  }

  lemma TextAt(m: Records.Message, i: nat)
    requires 1 <= i < |Remnants.PiecesOf(m)|
    ensures var ps := Remnants.PiecesOf(m);
            ([FirstText(m)] + Remnants.Texts(ps[1..]))[i] == Remnants.PieceText(ps[i])
  {
    hide Remnants.PiecesOf, Remnants.PieceText, FirstText;
  }

  /** All pieces of a message that is cut. */
  lemma PiecesRead(p: Records.Platform, scan: Pieces.Scanner, m: Records.Message)
    requires Reads(p, scan) && |Remnants.PiecesOf(m)| > 1
    ensures var ps := Remnants.PiecesOf(m);
            var read := Tables.ReadMessages(p, [FirstText(m)] + Remnants.Texts(ps[1..]));
            && (read.Raised? <==> Remnants.MessageSpills(m, scan))
            && (read.Done? ==>
                  && |read.value| == |ps| && read.value[0] == Records.BLANK
                  && forall i :: 0 <= i < |ps| ==> Remnants.IsRemnant(read.value[i], m) && Records.Clean(read.value[i]))
  {
    hide Remnants.PiecesOf, Remnants.PieceSpills, Remnants.PieceText, FirstText, Records.ReadMessage, Reads;
    var ps := Remnants.PiecesOf(m);
    var texts := [FirstText(m)] + Remnants.Texts(ps[1..]);
    FirstReads(p, scan, m);
    assert texts[0] == FirstText(m) && Records.Clean(Records.BLANK);
    forall i | 1 <= i < |ps|
      ensures Records.ReadMessage(p, texts[i]).Raised? <==> Remnants.PieceSpills(ps[i], scan)
      ensures var n := Records.ReadMessage(p, texts[i]);
              n.Done? ==> Remnants.IsRemnant(n.value, m) && Records.Clean(n.value)
    {
      PieceReads(p, scan, m, i);
      TextAt(m, i);
    }
  }

  /** On the server a message with a separator in it raises an exception when it is read back
      exactly when it spills, and otherwise reads as one message for each of its pieces: a blank
      one first, and then blanks or remnants of itself. */
  lemma ServerReads(names: Records.Json -> seq<string>, scan: Pieces.Scanner, m: Records.Message)
    requires InOrder(names) && !Records.Clean(m)
    ensures var p, ps := ServerOf(names, scan), Remnants.PiecesOf(m);
            var read := Chat.Reread(p, [m]);
            && |ps| > 1 && (read.Raised? <==> Remnants.MessageSpills(m, scan))
            && (read.Done? ==>
                  && |read.value| == |ps| && read.value[0] == Records.BLANK
                  && forall i :: 0 <= i < |ps| ==> Remnants.IsRemnant(read.value[i], m) && Records.Clean(read.value[i]))
  {
    hide *;
    RereadPieces(names, scan, m);
    if |Remnants.PiecesOf(m)| == 1 { Remnants.OneIsWhole(m); }
    ServerOfReads(names, scan);
    PiecesRead(ServerOf(names, scan), scan, m);
  }

  lemma MessageSettles(names: Records.Json -> seq<string>, scan: Pieces.Scanner, m: Records.Message)
    requires InOrder(names)
    ensures var read := Chat.Reread(ServerOf(names, scan), [m]); read.Done? ==> Saying.AllClean(read.value)
  {
    hide Chat.Reread, Records.Clean, InOrder, ServerOf, Remnants.PiecesOf, Remnants.MessageSpills;
    if Records.Clean(m) {
      ServerPlatformIsLawful(names, scan);
      CleanReads(ServerOf(names, scan), m);
    } else {
      ServerReads(names, scan, m);
    }
  }

  /** What is read of a message holds no separator. */
  lemma ServerSettles(names: Records.Json -> seq<string>, scan: Pieces.Scanner)
    requires InOrder(names)
    ensures var p := ServerOf(names, scan); p.Lawful() && Saying.Settles(p)
  {
    hide Chat.Reread, Saying.AllClean, InOrder, ServerOf;
    var p := ServerOf(names, scan);
    ServerPlatformIsLawful(names, scan);
    forall m: Records.Message | Chat.Reread(p, [m]).Done? ensures Saying.AllClean(Chat.Reread(p, [m]).value) {
      MessageSettles(names, scan, m);
    }
  }

  lemma CleanReads(p: Records.Platform, m: Records.Message)
    requires p.Lawful() && Records.Clean(m)
    ensures Chat.Reread(p, [m]) == Records.Done([m])
  {
    hide Chat.Reread, Records.Clean;
    assert Records.Clean([m][0]);
    Rereading.RereadExact(p, [m]);
  }

  lemma CleanDoesNotSpill(m: Records.Message, scan: Pieces.Scanner)
    requires Records.Clean(m)
    ensures !Remnants.MessageSpills(m, scan)
  {
    hide Remnants.Cuts, Remnants.PieceSpills;
    Remnants.WholeRest(m, m.body);
  }

  lemma RaisesExactly(names: Records.Json -> seq<string>, scan: Pieces.Scanner, m: Records.Message)
    requires InOrder(names)
    ensures Chat.Reread(ServerOf(names, scan), [m]).Raised? <==> Remnants.MessageSpills(m, scan)
  {
    hide Chat.Reread, Records.Clean, Remnants.MessageSpills, InOrder, ServerOf;
    if Records.Clean(m) {
      ServerPlatformIsLawful(names, scan);
      CleanReads(ServerOf(names, scan), m);
      CleanDoesNotSpill(m, scan);
    } else {
      ServerReads(names, scan, m);
    }
  }

  // ---------------------------------------------------------------------
  // History on the server.

  /** On the server, in every run, reading a conversation ends in an exception if and only if the
      body and date of a message said in it spill; otherwise it reads as its messages one by one, it could be read
      at every earlier moment, and what was read then is a prefix. */
  lemma ServerHistory(names: Records.Json -> seq<string>, scan: Pieces.Scanner, rs: seq<Requests.Request>, k: nat,
                      id: string)
    requires InOrder(names) && k <= |rs|
    ensures var p := ServerOf(names, scan);
            var said := Saying.Said(p, rs, id);
            var earlier := Tables.LoadMessages(p, Requests.Run(p, rs[..k]), id);
            var later := Tables.LoadMessages(p, Requests.Run(p, rs), id);
            && (later.Raised? <==> exists m :: m in said && Remnants.TextSpills(m.body, m.date, scan))
            && later == Saying.Heard(p, said)
            && (later.Done? ==> earlier.Done? && earlier.value <= later.value)
  {
    hide *;
    var p := ServerOf(names, scan);
    ServerSettles(names, scan);
    Guarantees.ReadsWhatWasHeard(p, rs, id);
    Guarantees.AlwaysAppendOnly(p, rs, k, id);
    Saying.SaidIsClean(p, rs, id);
    forall m: Records.Message | m in Saying.Said(p, rs, id)
      ensures Chat.Reread(p, [m]).Raised? <==> Remnants.TextSpills(m.body, m.date, scan)
    {
      RaisesExactly(names, scan, m);
      IsPosted(m);
      Remnants.SpillsByText(m, scan);
    }
  }

  /** One post is enough to close a conversation for good: after a body that ends with a separator
      and a digit, whatever comes later, reading the conversation ends in an exception. */
  lemma DigitCloses(names: Records.Json -> seq<string>, scan: Pieces.Scanner, a: string, b: string, text: string,
                    d: char, date: string, more: seq<Requests.Request>)
    requires InOrder(names) && JsonText.Digit(d)
    requires ServerOf(names, scan).digest(a) != ServerOf(names, scan).digest(b)
    ensures var p := ServerOf(names, scan);
            var rs := Guarantees.OnePost(a, b, text + [Records.SEPARATOR] + [d], date) + more;
            Tables.LoadMessages(p, Requests.Run(p, rs), Tables.PairId(p.digest(a), p.digest(b))).Raised?
  {
    hide *;
    var p := ServerOf(names, scan);
    var body := text + [Records.SEPARATOR] + [d];
    var rs := Guarantees.OnePost(a, b, body, date);
    var m := Records.NewMessage(p, body, p.digest(a), date);
    ServerPlatformIsLawful(names, scan);
    assert Records.SEPARATOR in body;
    Guarantees.SeparatorBreaksHistory(p, a, b, body, date);
    assert m.body == body by { BodyOf(p, body, p.digest(a), date); }
    Remnants.DigitSpills(m, text, d, scan);
    RaisesExactly(names, scan, m);
    assert (rs + more)[..|rs|] == rs;
    Guarantees.StuckForever(p, rs + more, |rs|, Tables.PairId(p.digest(a), p.digest(b)));
  }

  lemma IsPosted(m: Records.Message)
    requires Records.IsDigest(m.id) && Records.IsDigest(m.sender)
    ensures Remnants.Posted(m)
  {
  }

  lemma BodyOf(p: Records.Platform, body: string, sender: string, date: string)
    ensures Records.NewMessage(p, body, sender, date).body == body
  {
  }

  /** After a body that opens an object and a comment behind a separator the conversation reads
      as a blank message and the message without its body. */
  lemma CommentRemains(names: Records.Json -> seq<string>, scan: Pieces.Scanner, a: string, b: string, date: string)
    requires InOrder(names) && Records.SEPARATOR !in date
    requires ServerOf(names, scan).digest(a) != ServerOf(names, scan).digest(b)
    ensures var p := ServerOf(names, scan);
            var body := [Records.SEPARATOR] + "{//";
            var m := Records.NewMessage(p, body, p.digest(a), date);
            Tables.LoadMessages(p, Requests.Run(p, Guarantees.OnePost(a, b, body, date)),
                                Tables.PairId(p.digest(a), p.digest(b))) ==
            Records.Done([Records.BLANK, m.(body := "")])
  {
    hide *;
    var p := ServerOf(names, scan);
    var body := [Records.SEPARATOR] + "{//";
    var m := Records.NewMessage(p, body, p.digest(a), date);
    ServerPlatformIsLawful(names, scan);
    assert Records.SEPARATOR in body;
    Guarantees.SeparatorBreaksHistory(p, a, b, body, date);
    BodyOf(p, body, p.digest(a), date);
    RestIsClean(p, body, a, date);
    Remnants.CommentLeaves(m, scan);
    CommentReads(names, scan, m);
  }

  lemma RestIsClean(p: Records.Platform, body: string, a: string, date: string)
    requires p.Lawful() && Records.SEPARATOR !in date && Records.SEPARATOR in body
    ensures var m := Records.NewMessage(p, body, p.digest(a), date);
            !Records.Clean(m) && Records.Clean(m.(body := ""))
  {
    hide Records.IsDigest;
    Records.DigestIsPlain(p.digest(a));
    Records.DigestIsPlain(p.digest(p.digest(a) + date));
  }

  lemma CommentReads(names: Records.Json -> seq<string>, scan: Pieces.Scanner, m: Records.Message)
    requires InOrder(names) && !Records.Clean(m) && |Remnants.PiecesOf(m)| == 2
    requires var r := JsonText.Read(Remnants.PieceText(Remnants.PiecesOf(m)[1]), scan);
             r.Object? && Records.MessageOf(r.members) == Records.Done(m.(body := ""))
    ensures Chat.Reread(ServerOf(names, scan), [m]) == Records.Done([Records.BLANK, m.(body := "")])
  {
    hide *;
    var p, ps := ServerOf(names, scan), Remnants.PiecesOf(m);
    ServerOfReads(names, scan);
    RereadPieces(names, scan, m);
    FirstReads(p, scan, m);
    ReadOne(p, scan, Remnants.PieceText(ps[1]));
    TextAt(m, 1);
    var texts := [FirstText(m)] + Remnants.Texts(ps[1..]);
    assert texts == [FirstText(m), Remnants.PieceText(ps[1])];
    ReadPair(p, FirstText(m), Remnants.PieceText(ps[1]), Records.BLANK, m.(body := ""));
  }

  lemma ReadPair(p: Records.Platform, s: string, t: string, a: Records.Message, b: Records.Message)
    requires Records.ReadMessage(p, s) == Records.Done(a) && Records.ReadMessage(p, t) == Records.Done(b)
    ensures Tables.ReadMessages(p, [s, t]) == Records.Done([a, b])
  {
    hide Records.ReadMessage;
    var read := Tables.ReadMessages(p, [s, t]);
    assert Records.ReadMessage(p, [s, t][0]) == Records.Done(a) && Records.ReadMessage(p, [s, t][1]) == Records.Done(b);
    assert read.value == [a, b];
  }
}
