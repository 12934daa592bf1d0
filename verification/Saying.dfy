/** What was said in one conversation over a run of requests, and what the conversation
    then reads as. */
module Saying {
  import opened StringUtil
  import opened Records
  import opened Tables
  import opened Requests
  import opened Chat
  import opened Runs
  import opened Rereading

  /** Where the messages of two users are kept, or will be. */
  function TalkIdOf(c: Chat, x: string, y: string): (id: string)
    ensures id == PairId(x, y) || id == PairId(y, x)
  {
    var k := FindPair(c.dialogues, x, y);
    if k < |c.dialogues| then c.dialogues[k].Id() else PairId(x, y)
  }

  /** What a post from `x` to `y` says in conversation `id`: nothing if it ends in an exception. */
  function SaidTo(p: Platform, c: Chat, x: string, y: string, m: Message, id: string): (ms: seq<Message>) {
    if TalkIdOf(c, x, y) == id && Say(p, c, x, y, m).Done? then [m] else []
  }

  function SaidToOne(p: Platform, c: Chat, x: string, phone: string, m: Message, id: string): (ms: seq<Message>) {
    if Known(p, c, phone) && Who(p, c, phone).online then SaidTo(p, c, x, p.digest(phone), m, id) else []
  }

  /** What a broadcast says there, contact by contact. */
  function SaidToEach(p: Platform, c: Chat, x: string, contacts: seq<string>, m: Message, id: string)
    : (ms: seq<Message>)
  {
    if contacts == [] then []
    else
      var n := |contacts| - 1;
      var before := SayEach(p, c, x, contacts[..n], m);
      SaidToEach(p, c, x, contacts[..n], m, id) +
      if before.raised then [] else SaidToOne(p, before.chat, x, contacts[n], m, id)
  }

  /** What one request says there: nothing unless it is accepted. */
  function SaidBy(p: Platform, c: Chat, r: Request, id: string): (ms: seq<Message>) {
    match r
    case Post(s, t, token, body, date) =>
      if Known(p, c, s) && Known(p, c, t) && Who(p, c, s).token == token then
        SaidTo(p, c, p.digest(s), p.digest(t), NewMessage(p, body, p.digest(s), date), id)
      else []
    case Broadcast(s, token, contacts, body, date) =>
      if Known(p, c, s) && Who(p, c, s).token == token then
        SaidToEach(p, c, p.digest(s), contacts, NewMessage(p, body, p.digest(s), date), id)
      else []
    case _ => []
  }

  /** All that was said in conversation `id` over the run, in order. */
  function Said(p: Platform, rs: seq<Request>, id: string): (ms: seq<Message>) {
    if rs == [] then []
    else
      var n := |rs| - 1;
      Said(p, rs[..n], id) + SaidBy(p, Play(p, rs[..n]), rs[n], id)
  }

  ghost predicate AllClean(ms: seq<Message>) {
    forall i :: 0 <= i < |ms| ==> Clean(ms[i])
  }

  // ---------------------------------------------------------------------
  // Reading follows saying.

  /** What conversation `id` of the chat reads as. */
  function ReadIn(p: Platform, c: Chat, id: string): (ms: Attempt<seq<Message>>) {
    var k := FindId(c.dialogues, id);
    if k < |c.dialogues| then Reread(p, c.dialogues[k].log) else Done([])
  }

  /** What the messages `said` read as once each has been stored and read back in turn. */
  function Echo(p: Platform, said: seq<Message>): (ms: Attempt<seq<Message>>) {
    if said == [] then Done([])
    else
      var n := |said| - 1;
      var before :- Echo(p, said[..n]);
      Reread(p, before + [said[n]])
  }

  lemma EchoSnoc(p: Platform, said: seq<Message>, m: Message)
    ensures var before := Echo(p, said);
            Echo(p, said + [m]) == if before.Done? then Reread(p, before.value + [m]) else Raised
  {
    hide Reread;
    assert (said + [m])[..|said|] == said;
  }

  /** Saying a message changes what its conversation reads as, and no other. */
  lemma SayReadIn(p: Platform, c: Chat, x: string, y: string, m: Message, id: string)
    requires Valid(c) && x in c.users && y in c.users && Say(p, c, x, y, m).Done?
    ensures var before, after := ReadIn(p, c, id), ReadIn(p, Say(p, c, x, y, m).value, id);
            if TalkIdOf(c, x, y) == id then before.Done? && after == Reread(p, before.value + [m]) else after == before
  {
    hide Reread, PairId, Valid, ReadIn;
    var k := FindPair(c.dialogues, x, y);
    if k < |c.dialogues| {
      ReadAgain(p, c, k, Reread(p, c.dialogues[k].log).value + [m], id);
    } else {
      NewIdIsNew(c, Dialogue(x, y, [m]));
      ReadFirst(p, c, Dialogue(x, y, [m]), id);
      assert [] + [m] == [m];
    }
  }

  lemma ReadAgain(p: Platform, c: Chat, k: nat, log: seq<Message>, id: string)
    requires Valid(c) && k < |c.dialogues|
    ensures var d := c.dialogues[k];
            var c' := c.(dialogues := c.dialogues[k := d.(log := log)]);
            if d.Id() == id then ReadIn(p, c', id) == Reread(p, log) && ReadIn(p, c, id) == Reread(p, d.log)
            else ReadIn(p, c', id) == ReadIn(p, c, id)
  {
    hide Reread, PairId, Valid;
    var ds, d := c.dialogues, c.dialogues[k];
    var es := ds[k := d.(log := log)];
    assert forall l :: 0 <= l < |ds| ==> es[l].Id() == ds[l].Id();
    assert FindId(es, id) == FindId(ds, id);
    if d.Id() == id { IdsApart(c, k, FindId(ds, id)); }
  }

  lemma ReadFirst(p: Platform, c: Chat, d: Dialogue, id: string)
    requires forall i :: 0 <= i < |c.dialogues| ==> c.dialogues[i].Id() != d.Id()
    ensures var c' := c.(dialogues := c.dialogues + [d]);
            if d.Id() == id then ReadIn(p, c', id) == Reread(p, d.log) && ReadIn(p, c, id) == Done([])
            else ReadIn(p, c', id) == ReadIn(p, c, id)
  {
    hide Reread, PairId;
    var ds, es := c.dialogues, c.dialogues + [d];
    assert forall l :: 0 <= l < |ds| ==> es[l] == ds[l];
    var i, j := FindId(ds, id), FindId(es, id);
    if i < |ds| {
      assert i == j;
    } else if d.Id() == id {
      assert es[|ds|] == d;
      assert j == |ds|;
    } else {
      assert j == |es|;
    }
  }

  lemma SayEchoes(p: Platform, c: Chat, x: string, y: string, m: Message, id: string, said: seq<Message>)
    requires Valid(c) && x in c.users && y in c.users && ReadIn(p, c, id) == Echo(p, said)
    ensures var c' := Say(p, c, x, y, m);
            ReadIn(p, if c'.Done? then c'.value else c, id) == Echo(p, said + SaidTo(p, c, x, y, m, id))
  {
    hide Reread, Valid, Echo, ReadIn, Say, PairId;
    if Say(p, c, x, y, m).Done? { SayReadIn(p, c, x, y, m, id); }
    EchoSnoc(p, said, m);
    assert said + [] == said;
  }

  lemma SayOneEchoes(p: Platform, c: Chat, x: string, phone: string, m: Message, id: string, said: seq<Message>)
    requires Valid(c) && x in c.users && ReadIn(p, c, id) == Echo(p, said)
    ensures var c' := SayOne(p, c, x, phone, m).chat;
            && Valid(c') && c'.users == c.users
            && ReadIn(p, c', id) == Echo(p, said + SaidToOne(p, c, x, phone, m, id))
  {
    hide Valid, Echo, ReadIn, Say, SaidTo;
    assert said + [] == said;
    if Known(p, c, phone) && Who(p, c, phone).online {
      var y := p.digest(phone);
      SayEchoes(p, c, x, y, m, id, said);
      SayIsValid(p, c, x, y, m);
      SayKeepsUsers(p, c, x, y, m);
    }
  }

  lemma {:induction false} SayEachEchoes(p: Platform, c: Chat, x: string, contacts: seq<string>, m: Message,
                                         id: string, said: seq<Message>)
    requires Valid(c) && x in c.users && ReadIn(p, c, id) == Echo(p, said)
    ensures var c' := SayEach(p, c, x, contacts, m).chat;
            && Valid(c') && c'.users == c.users
            && ReadIn(p, c', id) == Echo(p, said + SaidToEach(p, c, x, contacts, m, id))
  {
    hide Valid, Echo, ReadIn, SayOne, SaidToOne;
    if contacts == [] {
      assert said + [] == said;
    } else {
      var n := |contacts| - 1;
      SayEachEchoes(p, c, x, contacts[..n], m, id, said);
      var before := SayEach(p, c, x, contacts[..n], m);
      var heard := SaidToEach(p, c, x, contacts[..n], m, id);
      if before.raised {
        assert heard + [] == heard;
      } else {
        SayOneEchoes(p, before.chat, x, contacts[n], m, id, said + heard);
        var more := SaidToOne(p, before.chat, x, contacts[n], m, id);
        assert said + heard + more == said + (heard + more);
      }
    }
  }

  lemma ActEchoes(p: Platform, c: Chat, r: Request, id: string, said: seq<Message>)
    requires Valid(c) && ReadIn(p, c, id) == Echo(p, said)
    ensures ReadIn(p, Act(p, c, r), id) == Echo(p, said + SaidBy(p, c, r, id))
  {
    hide Valid, Echo, Say, SayEach, SaidTo, SaidToEach, Reread;
    assert said + [] == said;
    match r {
      case Post(s, t, token, body, date) =>
        if Known(p, c, s) && Known(p, c, t) {
          SayEchoes(p, c, p.digest(s), p.digest(t), NewMessage(p, body, p.digest(s), date), id, said);
        }
      case Broadcast(s, token, contacts, body, date) =>
        if Known(p, c, s) {
          SayEachEchoes(p, c, p.digest(s), contacts, NewMessage(p, body, p.digest(s), date), id, said);
        }
      case _ =>
        assert Act(p, c, r).dialogues == c.dialogues;
    }
  }

  /** Over every run a conversation reads as the echo of what was said in it. */
  lemma {:induction false} RunEchoes(p: Platform, rs: seq<Request>, id: string)
    requires p.Lawful()
    ensures ReadIn(p, Play(p, rs), id) == Echo(p, Said(p, rs, id))
  {
    hide Act, SaidBy, Valid, Stores, Run;
    if rs != [] {
      var n := |rs| - 1;
      RunEchoes(p, rs[..n], id);
      RunHolds(p, rs[..n]);
      ActEchoes(p, Play(p, rs[..n]), rs[n], id, Said(p, rs[..n], id));
    }
  }

  // ---------------------------------------------------------------------
  // When the echo is what was said.

  lemma CleanSnoc(ms: seq<Message>, m: Message)
    ensures AllClean(ms + [m]) <==> AllClean(ms) && Clean(m)
  {
    hide Clean;
    assert (ms + [m])[|ms|] == m;
    assert forall i :: 0 <= i < |ms| ==> (ms + [m])[i] == ms[i];
  }

  /** The echo is what was said while all of it is clean, and from the first message on that is
      not it is more than was said or an exception. */
  lemma {:induction false} EchoExact(p: Platform, said: seq<Message>)
    requires p.Lawful()
    ensures var echo := Echo(p, said);
            if AllClean(said) then echo == Done(said) else echo.Done? ==> |echo.value| > |said|
  {
    hide Reread, Clean, AllClean;
    if said == [] {
      NothingIsClean();
    } else {
      var n := |said| - 1;
      var before, m := said[..n], said[n];
      assert said == before + [m];
      EchoExact(p, before);
      CleanSnoc(before, m);
      var echo := Echo(p, before);
      if echo.Done? { EchoNext(p, echo.value, before, m); }
    }
  }

  lemma NothingIsClean()
    ensures AllClean([])
  {
  }

  lemma EchoNext(p: Platform, echo: seq<Message>, said: seq<Message>, m: Message)
    requires p.Lawful() && if AllClean(said) then echo == said else |echo| > |said|
    ensures var next := Reread(p, echo + [m]);
            if AllClean(said) && Clean(m) then next == Done(said + [m]) else next.Done? ==> |next.value| > |said| + 1
  {
    hide Reread, Clean;
    var log := echo + [m];
    if !AllClean(said) {
      RereadNonEmpty(p, log);
    } else {
      CleanSnoc(said, m);
      if Clean(m) {
        RereadExact(p, log);
      } else {
        assert !Clean(log[|echo|]);
        DirtySplitsMore(p, log);
      }
    }
  }

  // ---------------------------------------------------------------------
  // What is left of a message that is not clean.

  /** What was said reads message by message. */
  function Heard(p: Platform, said: seq<Message>): (ms: Attempt<seq<Message>>) {
    if said == [] then Done([])
    else
      var n := |said| - 1;
      var before :- Heard(p, said[..n]);
      var last :- Reread(p, [said[n]]);
      Done(before + last)
  }

  /** What is read of a message holds no separator. */
  ghost predicate Settles(p: Platform) {
    forall m: Message :: Reread(p, [m]).Done? ==> AllClean(Reread(p, [m]).value)
  }

  lemma {:induction false} HeardIsClean(p: Platform, said: seq<Message>)
    requires Settles(p) && Heard(p, said).Done?
    ensures AllClean(Heard(p, said).value)
  {
    hide Reread, Clean;
    if said != [] { HeardIsClean(p, said[..|said| - 1]); }
  }

  /** Behind messages without separators a message reads as it does alone. */
  lemma RereadBehind(p: Platform, log: seq<Message>, m: Message)
    requires p.Lawful() && AllClean(log)
    ensures var last := Reread(p, [m]);
            Reread(p, log + [m]) == if last.Done? then Done(log + last.value) else Raised
  {
    hide Clean, Split, Join, WriteMessage, ReadMessage;
    var ws, w := WriteMessages(p, log), WriteMessage(p, m);
    WrittenMessage(p, m);
    assert WriteMessages(p, log + [m]) == ws + [w];
    assert WriteMessages(p, [m]) == [w];
    JoinOne(w, SEPARATOR);
    if log == [] {
      assert log + [m] == [m];
      assert forall ms: seq<Message> :: [] + ms == ms;
    } else {
      CleanIsListable(p, log);
      SplitBehind(ws, w, SEPARATOR);
      ReadWritten(p, log);
      ReadBoth(p, ws, Split(w, SEPARATOR));
    }
  }

  lemma JoinOne(w: string, d: char)
    ensures Join([w], d) == w
  {
    assert [w][..0] == [];
    assert Join([], d) == "";
  }

  lemma SplitBehind(ws: seq<string>, w: string, d: char)
    requires ws != [] && Listable(ws, d) && w != "" && w[|w| - 1] != d
    ensures Split(Join(ws + [w], d), d) == ws + Split(w, d)
  {
    hide Split, Fields;
    var s := Join(ws, d);
    JoinFields(ws, d);
    assert (ws + [w])[..|ws|] == ws;
    assert Join(ws + [w], d) == s + [d] + w;
    FieldsConcat(s, w, d);
    SplitIsFields(s + [d] + w, d);
    SplitIsFields(w, d);
    LastField(w, d);
    var f := Fields(w, d);
    assert (ws + f)[|ws + f| - 1] == f[|f| - 1];
  }

  lemma ReadBoth(p: Platform, a: seq<string>, b: seq<string>)
    ensures var x, y := ReadMessages(p, a), ReadMessages(p, b);
            ReadMessages(p, a + b) == if x.Done? && y.Done? then Done(x.value + y.value) else Raised
  {
    hide ReadMessage;
    var xs := seq(|a|, i requires 0 <= i < |a| => ReadMessage(p, a[i]));
    var ys := seq(|b|, i requires 0 <= i < |b| => ReadMessage(p, b[i]));
    var zs := seq(|a + b|, i requires 0 <= i < |a + b| => ReadMessage(p, (a + b)[i]));
    assert zs == xs + ys;
    CollectConcat(xs, ys);
    assert ReadMessages(p, a) == Collect(xs) && ReadMessages(p, b) == Collect(ys);
  }

  lemma {:induction false} EchoHeard(p: Platform, said: seq<Message>)
    requires p.Lawful() && Settles(p)
    ensures Echo(p, said) == Heard(p, said)
  {
    hide Reread, Clean, AllClean;
    if said != [] {
      var n := |said| - 1;
      EchoHeard(p, said[..n]);
      var before := Heard(p, said[..n]);
      if before.Done? {
        HeardIsClean(p, said[..n]);
        RereadBehind(p, before.value, said[n]);
      }
    }
  }

  /** It ends in an exception exactly when one message does. */
  lemma {:induction false} HeardRaises(p: Platform, said: seq<Message>)
    ensures Heard(p, said).Raised? <==> exists m :: m in said && Reread(p, [m]).Raised?
  {
    hide Reread;
    if said != [] {
      var n := |said| - 1;
      HeardRaises(p, said[..n]);
      assert said[n] in said;
      assert forall m :: m in said <==> m in said[..n] || m == said[n];
    }
  }

  lemma {:induction false} HeardGrows(p: Platform, said: seq<Message>, k: nat)
    requires k <= |said| && Heard(p, said).Done?
    ensures Heard(p, said[..k]).Done? && Heard(p, said[..k]).value <= Heard(p, said).value
    decreases |said|
  {
    hide Reread;
    if k < |said| {
      HeardGrows(p, said[..|said| - 1], k);
      assert said[..|said| - 1][..k] == said[..k];
    } else {
      assert said[..k] == said;
    }
  }

  // ---------------------------------------------------------------------
  // What was said.

  lemma {:induction false} SaidGrows(p: Platform, rs: seq<Request>, k: nat, id: string)
    requires k <= |rs|
    ensures Said(p, rs[..k], id) <= Said(p, rs, id)
    decreases |rs|
  {
    hide SaidBy, Play;
    if k < |rs| {
      SaidGrows(p, rs[..|rs| - 1], k, id);
      assert rs[..|rs| - 1][..k] == rs[..k];
    } else {
      assert rs[..k] == rs;
    }
  }

  /** A request addresses a conversation when it is a post between its two users, in either
      order, or a broadcast from one of them with the other among the contacts. */
  ghost predicate Addresses(p: Platform, r: Request, id: string) {
    match r
    case Post(s, t, _, _, _) => id == PairId(p.digest(s), p.digest(t)) || id == PairId(p.digest(t), p.digest(s))
    case Broadcast(s, _, contacts, _, _) => ToSome(p, p.digest(s), contacts, id)
    case _ => false
  }

  /** A request whose body and date are free of the list separator. */
  predicate CleanRequest(r: Request) {
    (r.Post? || r.Broadcast?) ==> SEPARATOR !in r.body && SEPARATOR !in r.date
  }

  lemma NewIsClean(p: Platform, body: string, s: string, date: string)
    requires p.Lawful()
    ensures Clean(NewMessage(p, body, p.digest(s), date)) <==> SEPARATOR !in body && SEPARATOR !in date
    ensures var m := NewMessage(p, body, p.digest(s), date); m.id != "" && IsDigest(m.id) && IsDigest(m.sender)
  {
    DigestIsPlain(p.digest(s));
    DigestIsPlain(p.digest(p.digest(s) + date));
  }

  ghost predicate Only(ms: seq<Message>, m: Message) { forall i :: 0 <= i < |ms| ==> ms[i] == m }

  lemma OnlyBoth(a: seq<Message>, b: seq<Message>, m: Message)
    requires Only(a, m) && Only(b, m)
    ensures Only(a + b, m)
  {
  }

  lemma SaidToIs(p: Platform, c: Chat, x: string, y: string, m: Message, id: string)
    ensures Only(SaidTo(p, c, x, y, m, id), m)
    ensures SaidTo(p, c, x, y, m, id) != [] ==> id == PairId(x, y) || id == PairId(y, x)
  {
    hide PairId, Say;
  }

  /** `id` is the conversation of `x` with one of the contacts, in one of the two orders. */
  ghost predicate ToSome(p: Platform, x: string, contacts: seq<string>, id: string) {
    exists t :: t in contacts && (id == PairId(x, p.digest(t)) || id == PairId(p.digest(t), x))
  }

  lemma {:induction false} SaidToEachIs(p: Platform, c: Chat, x: string, contacts: seq<string>, m: Message, id: string)
    ensures var ms := SaidToEach(p, c, x, contacts, m, id);
            Only(ms, m) && (ms != [] ==> ToSome(p, x, contacts, id))
  {
    hide SayEach, PairId, Known, Who, SaidTo, Only;
    OnlyNone(m);
    if contacts != [] {
      var n := |contacts| - 1;
      var t, before := contacts[n], SayEach(p, c, x, contacts[..n], m).chat;
      SaidToEachIs(p, c, x, contacts[..n], m, id);
      SaidToIs(p, before, x, p.digest(t), m, id);
      OnlyBoth(SaidToEach(p, c, x, contacts[..n], m, id), SaidTo(p, before, x, p.digest(t), m, id), m);
      OnlyBoth(SaidToEach(p, c, x, contacts[..n], m, id), [], m);
      ToSomeMore(p, x, contacts, id);
    }
  }

  lemma OnlyNone(m: Message)
    ensures Only([], m)
  {
  }

  lemma ToSomeMore(p: Platform, x: string, contacts: seq<string>, id: string)
    requires contacts != []
    ensures var n := |contacts| - 1;
            var y := p.digest(contacts[n]);
            ToSome(p, x, contacts[..n], id) || id == PairId(x, y) || id == PairId(y, x) ==> ToSome(p, x, contacts, id)
  {
    hide PairId;
    var n := |contacts| - 1;
    assert contacts[n] in contacts;
    assert forall t :: t in contacts[..n] ==> t in contacts;
  }

  /** What a request says is one and the same message, with identifiers for its id and sender. */
  lemma SaidByIs(p: Platform, c: Chat, r: Request, id: string)
    requires p.Lawful()
    ensures var ms := SaidBy(p, c, r, id);
            ms != [] ==>
              && Addresses(p, r, id) && Only(ms, ms[0])
              && IsDigest(ms[0].id) && IsDigest(ms[0].sender) && ms[0].id != "" && (CleanRequest(r) ==> Clean(ms[0]))
  {
    hide SaidTo, SaidToEach, PairId, Clean, Known, Who, ToSome, IsDigest;
    match r {
      case Post(s, t, token, body, date) =>
        NewIsClean(p, body, s, date);
        SaidToIs(p, c, p.digest(s), p.digest(t), NewMessage(p, body, p.digest(s), date), id);
      case Broadcast(s, token, contacts, body, date) =>
        NewIsClean(p, body, s, date);
        SaidToEachIs(p, c, p.digest(s), contacts, NewMessage(p, body, p.digest(s), date), id);
      case _ =>
    }
  }

  /** Every message said has identifiers for its id and its sender, and all are clean when each
      request that addresses the conversation is. */
  lemma {:induction false} SaidIsClean(p: Platform, rs: seq<Request>, id: string)
    requires p.Lawful()
    ensures forall i :: 0 <= i < |Said(p, rs, id)| ==>
              var m := Said(p, rs, id)[i]; m.id != "" && IsDigest(m.id) && IsDigest(m.sender)
    ensures (forall i :: 0 <= i < |rs| && Addresses(p, rs[i], id) ==> CleanRequest(rs[i])) ==>
              AllClean(Said(p, rs, id))
  {
    hide SaidBy, Addresses, CleanRequest, Play, Clean, IsDigest;
    if rs != [] {
      var n := |rs| - 1;
      SaidIsClean(p, rs[..n], id);
      SaidByIs(p, Play(p, rs[..n]), rs[n], id);
    }
  }
}
