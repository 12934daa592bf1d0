/** Guarantees over every run of requests on an empty database. */
module Guarantees {
  import opened StringUtil
  import opened Records
  import opened Tables
  import opened Requests
  import opened Chat
  import opened Runs
  import opened Rereading
  import opened Saying
  import opened History

  // ---------------------------------------------------------------------
  // In every reachable state.

  /** At most one of the two orders of a pair of users is stored. */
  lemma OneStoredPerPair(p: Platform, rs: seq<Request>, a: string, b: string)
    requires p.Lawful() && IsDigest(a) && IsDigest(b) && a != b
    ensures Get(Run(p, rs), TalkKey(PairId(a, b))) == NOT_FOUND
         || Get(Run(p, rs), TalkKey(PairId(b, a))) == NOT_FOUND
  {
    hide Run, Play, PairId, DialogueText, UsersStored, IndexStored;
    var c := Play(p, rs);
    RunHolds(p, rs);
    var ds := c.dialogues;
    var i, j := FindId(ds, PairId(a, b)), FindId(ds, PairId(b, a));
    if i < |ds| && j < |ds| {
      PairIdInjective(ds[i].a, ds[i].b, a, b);
      PairIdInjective(ds[j].a, ds[j].b, b, a);
    }
  }

  /** Every stored conversation is between two registered users, is stored under the pair of
      their ids, and, if it can be read, has these users and a message. */
  lemma StoredTalkShape(p: Platform, rs: seq<Request>, id: string)
    requires p.Lawful() && Get(Run(p, rs), TalkKey(id)) != NOT_FOUND
    ensures var db := Run(p, rs);
            var ids, t := StoredIds(p, db, id), LoadTalk(p, db, id);
            && |ids| == 2 && id == PairId(ids[0], ids[1])
            && (forall u :: u in ids ==> var v := LoadUser(p, db, u); v.Done? && Found(v.value) && v.value.id == u)
            && (t.Done? ==> t.value.id == id && t.value.messages != [] && LoadUsers(p, db, ids) == Done(t.value.users))
  {
    hide Run, Play, LoadTalk, LoadUser, LoadUsers, StoredIds, Reread, DialogueText, IndexStored;
    var c, db := Play(p, rs), Run(p, rs);
    RunHolds(p, rs);
    var k := FindId(c.dialogues, id);
    assert k < |c.dialogues|;
    var d := c.dialogues[k];
    LoadTalkOf(p, db, c, k);
    RereadNonEmpty(p, d.log);
    LoadBoth(p, db, c, d);
    LoadUserOf(p, db, c, d.a);
    LoadUserOf(p, db, c, d.b);
  }

  ghost predicate Distinct(ids: seq<string>) {
    forall i, j :: 0 <= i < j < |ids| ==> ids[i] != ids[j]
  }

  /** After the leading sentinel, the index of a user lists exactly the stored
      conversations the user takes part in, each once. */
  lemma IndexAgrees(p: Platform, rs: seq<Request>, u: string)
    requires p.Lawful()
    ensures var db := Run(p, rs);
            var pieces := Split(Get(db, IndexKey(u)), SEPARATOR);
            && |pieces| >= 1 && pieces[0] == NOT_FOUND
            && Distinct(pieces[1..])
            && (forall id :: id in pieces[1..] <==>
                  Get(db, TalkKey(id)) != NOT_FOUND && u in StoredIds(p, db, id))
  {
    hide Run, Play, Split, StoredIds, DialogueText, IdsOf, PairId, Get;
    var c, db := Play(p, rs), Run(p, rs);
    RunHolds(p, rs);
    IndexReads(p, db, c, u);
    var pieces := Split(Get(db, IndexKey(u)), SEPARATOR);
    assert pieces[1..] == IdsOf(c.dialogues, u);
    IdsOfDistinct(c, u, |c.dialogues|);
    assert c.dialogues[..|c.dialogues|] == c.dialogues;
    forall id ensures id in pieces[1..] <==>
                      Get(db, TalkKey(id)) != NOT_FOUND && u in StoredIds(p, db, id)
    {
      InIndex(p, db, c, u, id);
    }
  }

  lemma InIndex(p: Platform, db: Data, c: Chat, u: string, id: string)
    requires Holds(p, db, c)
    ensures id in IdsOf(c.dialogues, u) <==>
            Get(db, TalkKey(id)) != NOT_FOUND && u in StoredIds(p, db, id)
  {
    hide StoredIds, IdsOf, PairId, Holds;
    IdsOfMembers(c.dialogues, u, id);
    StoredWhenFound(p, db, c, id);
    var k := FindId(c.dialogues, id);
    if k < |c.dialogues| {
      if i :| 0 <= i < |c.dialogues| && c.dialogues[i].Has(u) && c.dialogues[i].Id() == id {
        FindIdIs(p, db, c, i);
      }
    }
  }

  lemma FindIdIs(p: Platform, db: Data, c: Chat, i: nat)
    requires Holds(p, db, c) && i < |c.dialogues|
    ensures FindId(c.dialogues, c.dialogues[i].Id()) == i
  {
    hide Stores, PairId, Valid;
    IdsApart(c, i, FindId(c.dialogues, c.dialogues[i].Id()));
  }

  /** A conversation is stored under an id exactly when a dialogue has it, with its two users. */
  lemma StoredWhenFound(p: Platform, db: Data, c: Chat, id: string)
    requires Holds(p, db, c)
    ensures var k := FindId(c.dialogues, id);
            && (Get(db, TalkKey(id)) != NOT_FOUND <==> k < |c.dialogues|)
            && (k < |c.dialogues| ==> StoredIds(p, db, id) == [c.dialogues[k].a, c.dialogues[k].b])
  {
    hide LoadTalk, StoredIds, PairId, Reread, IndexStored, UsersStored, TalkText, OnePerPair;
    var k := FindId(c.dialogues, id);
    if k < |c.dialogues| {
      var d := c.dialogues[k];
      LoadTalkOf(p, db, c, k);
      TalkTextParses(p, d.Id(), [d.a, d.b], d.log);
    }
  }

  lemma {:induction false} IdsOfDistinct(c: Chat, u: string, n: nat)
    requires Valid(c) && n <= |c.dialogues|
    ensures Distinct(IdsOf(c.dialogues[..n], u))
  {
    hide PairId, OnePerPair, ValidUsers;
    if n > 0 {
      IdsOfDistinct(c, u, n - 1);
      var ds := c.dialogues[..n];
      assert ds[..n - 1] == c.dialogues[..n - 1];
      var id := ds[n - 1].Id();
      IdsOfMembers(ds[..n - 1], u, id);
      forall i | 0 <= i < n - 1 ensures ds[i].Id() != id {
        IdsApart(c, i, n - 1);
      }
    }
  }

  /** No request reads out of range in a reachable state, and a request ends in an exception
      exactly when it loads a dialogue that cannot be read. */
  lemma NeverFaults(p: Platform, rs: seq<Request>, r: Request)
    requires p.Lawful()
    ensures Showable(p, Play(p, rs)) && Step(p, Run(p, rs), r).reply != Fault
    ensures Step(p, Run(p, rs), r).reply == Uncaught <==> Raises(p, Play(p, rs), r)
  {
    hide Run, Play, Holds, Step, Raises;
    RunHolds(p, rs);
    NoFault(p, Run(p, rs), Play(p, rs), r);
  }

  // ---------------------------------------------------------------------
  // From one state to a later one.

  /** `c'` has the dialogues of `c`, in the same order, and perhaps more. */
  ghost predicate Outgrows(c: Chat, c': Chat) {
    && |c.dialogues| <= |c'.dialogues|
    && forall i :: 0 <= i < |c.dialogues| ==>
         c.dialogues[i].a == c'.dialogues[i].a && c.dialogues[i].b == c'.dialogues[i].b
  }

  lemma SayGrows(p: Platform, c: Chat, x: string, y: string, m: Message)
    ensures Say(p, c, x, y, m).Done? ==> Outgrows(c, Say(p, c, x, y, m).value)
  {
    hide Reread, PairId;
  }

  lemma {:induction false} SayEachGrows(p: Platform, c: Chat, x: string, contacts: seq<string>, m: Message)
    ensures Outgrows(c, SayEach(p, c, x, contacts, m).chat)
  {
    hide Say;
    if contacts != [] {
      var n := |contacts| - 1;
      SayEachGrows(p, c, x, contacts[..n], m);
      SayGrows(p, SayEach(p, c, x, contacts[..n], m).chat, x, p.digest(contacts[n]), m);
    }
  }

  /** One request keeps the dialogues in place. */
  lemma ActGrows(p: Platform, c: Chat, r: Request)
    ensures Outgrows(c, Act(p, c, r))
  {
    hide Say, SayEach;
    match r {
      case Post(s, t, token, body, date) =>
        SayGrows(p, c, p.digest(s), p.digest(t), NewMessage(p, body, p.digest(s), date));
      case Broadcast(s, token, contacts, body, date) =>
        SayEachGrows(p, c, p.digest(s), contacts, NewMessage(p, body, p.digest(s), date));
      case _ =>
    }
  }

  lemma {:induction false} RunGrows(p: Platform, rs: seq<Request>, k: nat)
    requires k <= |rs|
    ensures Outgrows(Play(p, rs[..k]), Play(p, rs))
    decreases |rs|
  {
    hide Act;
    if k == |rs| {
      assert rs[..k] == rs;
    } else {
      var n := |rs| - 1;
      ActGrows(p, Play(p, rs[..n]), rs[n]);
      RunGrows(p, rs[..n], k);
      assert rs[..n][..k] == rs[..k];
    }
  }

  /** The index of a user only ever grows at its end, so it is in order of creation. */
  lemma IndexGrowsAtEnd(p: Platform, rs: seq<Request>, k: nat, u: string)
    requires p.Lawful() && k <= |rs|
    ensures Split(Get(Run(p, rs[..k]), IndexKey(u)), SEPARATOR) <= Split(Get(Run(p, rs), IndexKey(u)), SEPARATOR)
  {
    hide Run, Play, Split, Holds, Get, IdsOf;
    RunHolds(p, rs[..k]);
    RunHolds(p, rs);
    RunGrows(p, rs, k);
    var c, c' := Play(p, rs[..k]), Play(p, rs);
    IndexReads(p, Run(p, rs[..k]), c, u);
    IndexReads(p, Run(p, rs), c', u);
    IdsOfPrefix(c.dialogues, c'.dialogues, u);
  }

  lemma {:induction false} IdsOfPrefix(ds: seq<Dialogue>, es: seq<Dialogue>, u: string)
    requires |ds| <= |es|
    requires forall i :: 0 <= i < |ds| ==> ds[i].a == es[i].a && ds[i].b == es[i].b
    ensures IdsOf(ds, u) <= IdsOf(es, u)
    decreases |es|
  {
    if |ds| < |es| {
      IdsOfPrefix(ds, es[..|es| - 1], u);
    } else if ds != [] {
      var n := |ds| - 1;
      IdsOfPrefix(ds[..n], es[..n], u);
      IdsOfPrefix(es[..n], ds[..n], u);
      assert IdsOf(ds[..n], u) == IdsOf(es[..n], u);
    }
  }

  /** Over every run a conversation reads back as exactly what was said in it if and only if
      nothing said in it holds the separator, whatever is said elsewhere; otherwise it reads
      back as more messages than were said, or ends in an exception. */
  lemma ReadsWhatWasSaid(p: Platform, rs: seq<Request>, id: string)
    requires p.Lawful()
    ensures var read, said := LoadMessages(p, Run(p, rs), id), Said(p, rs, id);
            && (read == Done(said) <==> AllClean(said))
            && (read.Done? && !AllClean(said) ==> |read.value| > |said|)
  {
    hide LoadMessages, Clean, Said, AllClean, Run, Echo;
    ReadsEcho(p, rs, id);
    EchoExact(p, Said(p, rs, id));
  }

  lemma ReadsEcho(p: Platform, rs: seq<Request>, id: string)
    requires p.Lawful()
    ensures LoadMessages(p, Run(p, rs), id) == Echo(p, Said(p, rs, id))
    ensures LoadMessages(p, Run(p, rs), id) == ReadIn(p, Play(p, rs), id)
  {
    hide Run, Play, LoadMessages, ReadIn, Said, Echo, Holds;
    RunHolds(p, rs);
    RunEchoes(p, rs, id);
    LoadsReadIn(p, Run(p, rs), Play(p, rs), id);
  }

  /** If what is read of a message holds no separator, every conversation of every run reads as
      its messages one by one, and ends in an exception exactly when one of them does. */
  lemma ReadsWhatWasHeard(p: Platform, rs: seq<Request>, id: string)
    requires p.Lawful() && Settles(p)
    ensures LoadMessages(p, Run(p, rs), id) == Heard(p, Said(p, rs, id))
    ensures LoadMessages(p, Run(p, rs), id).Raised? <==>
            exists m :: m in Said(p, rs, id) && Reread(p, [m]).Raised?
  {
    hide Run, LoadMessages, Said, Echo, Heard, Settles, Reread;
    ReadsEcho(p, rs, id);
    EchoHeard(p, Said(p, rs, id));
    HeardRaises(p, Said(p, rs, id));
  }

  /** Then history is append-only in every run, whatever is said: a conversation that can be read
      could be read at every earlier moment, and as a prefix. */
  lemma AlwaysAppendOnly(p: Platform, rs: seq<Request>, k: nat, id: string)
    requires p.Lawful() && Settles(p) && k <= |rs|
    ensures var earlier, later := LoadMessages(p, Run(p, rs[..k]), id), LoadMessages(p, Run(p, rs), id);
            later.Done? ==> earlier.Done? && earlier.value <= later.value
  {
    hide Run, LoadMessages, Said, Heard, Settles, Reread;
    var said, before := Said(p, rs, id), Said(p, rs[..k], id);
    SaidGrows(p, rs, k, id);
    ReadsWhatWasHeard(p, rs, id);
    ReadsWhatWasHeard(p, rs[..k], id);
    if Heard(p, said).Done? { HeardGrows(p, said, |before|); }
    assert said[..|before|] == before;
  }

  /** While nothing said in a conversation holds the separator, what it reads as at any moment
      is a prefix of what it reads as later. */
  lemma AppendOnly(p: Platform, rs: seq<Request>, k: nat, id: string)
    requires p.Lawful() && k <= |rs| && AllClean(Said(p, rs, id))
    ensures var earlier, later := LoadMessages(p, Run(p, rs[..k]), id), LoadMessages(p, Run(p, rs), id);
            earlier.Done? && later.Done? && earlier.value <= later.value
  {
    hide Run, LoadMessages, Said, Clean;
    SaidGrows(p, rs, k, id);
    ReadsWhatWasSaid(p, rs, id);
    ReadsWhatWasSaid(p, rs[..k], id);
  }

  // ---------------------------------------------------------------------
  // A conversation that cannot be read.

  lemma StuckSays(p: Platform, c: Chat, x: string, y: string, m: Message, id: string)
    requires Valid(c) && x in c.users && y in c.users && ReadIn(p, c, id).Raised?
    ensures SaidTo(p, c, x, y, m, id) == []
    ensures Say(p, c, x, y, m).Done? ==> ReadIn(p, Say(p, c, x, y, m).value, id).Raised?
  {
    hide Valid, ReadIn, Say, Reread;
    if Say(p, c, x, y, m).Done? { SayReadIn(p, c, x, y, m, id); }
  }

  lemma {:induction false} StuckSaysEach(p: Platform, c: Chat, x: string, contacts: seq<string>, m: Message, id: string)
    requires Valid(c) && x in c.users && ReadIn(p, c, id).Raised?
    ensures SaidToEach(p, c, x, contacts, m, id) == []
    ensures var c' := SayEach(p, c, x, contacts, m).chat; Valid(c') && c'.users == c.users && ReadIn(p, c', id).Raised?
  {
    hide Valid, ReadIn, Say, SaidTo;
    if contacts != [] {
      var n := |contacts| - 1;
      StuckSaysEach(p, c, x, contacts[..n], m, id);
      var before := SayEach(p, c, x, contacts[..n], m);
      if !before.raised && Known(p, before.chat, contacts[n]) {
        var y := p.digest(contacts[n]);
        StuckSays(p, before.chat, x, y, m, id);
        SayIsValid(p, before.chat, x, y, m);
        SayKeepsUsers(p, before.chat, x, y, m);
      }
    }
  }

  lemma StuckActs(p: Platform, c: Chat, r: Request, id: string)
    requires Valid(c) && ReadIn(p, c, id).Raised?
    ensures SaidBy(p, c, r, id) == []
  {
    hide Valid, ReadIn, Say, SaidTo, SaidToEach;
    match r
    case Post(s, t, token, body, date) =>
      if Known(p, c, s) && Known(p, c, t) {
        StuckSays(p, c, p.digest(s), p.digest(t), NewMessage(p, body, p.digest(s), date), id);
      }
    case Broadcast(s, token, contacts, body, date) =>
      if Known(p, c, s) {
        StuckSaysEach(p, c, p.digest(s), contacts, NewMessage(p, body, p.digest(s), date), id);
      }
    case _ =>
  }

  /** Once a conversation cannot be read it never can be again, and nothing more is said in it. */
  lemma {:induction false} StuckForever(p: Platform, rs: seq<Request>, k: nat, id: string)
    requires p.Lawful() && k <= |rs| && LoadMessages(p, Run(p, rs[..k]), id).Raised?
    ensures LoadMessages(p, Run(p, rs), id).Raised? && Said(p, rs, id) == Said(p, rs[..k], id)
    decreases |rs|
  {
    hide Run, Play, LoadMessages, SaidBy, Holds, ReadIn, Echo;
    if k == |rs| {
      assert rs[..k] == rs;
    } else {
      var n := |rs| - 1;
      assert rs[..n][..k] == rs[..k];
      StuckForever(p, rs[..n], k, id);
      ReadsEcho(p, rs[..n], id);
      ReadsEcho(p, rs, id);
      RunHolds(p, rs[..n]);
      assert Valid(Play(p, rs[..n])) by { HoldsValid(p, Run(p, rs[..n]), Play(p, rs[..n])); }
      StuckActs(p, Play(p, rs[..n]), rs[n], id);
      assert Said(p, rs, id) == Said(p, rs[..n], id) + [] == Said(p, rs[..n], id);
    }
  }

  lemma HoldsValid(p: Platform, db: Data, c: Chat)
    requires Holds(p, db, c)
    ensures Valid(c)
  {
  }

  // ---------------------------------------------------------------------
  // One message.

  /** One post with a separator in its body or date is enough: the conversation reads back as
      more messages than were said, or ends in an exception. */
  lemma SeparatorBreaksHistory(p: Platform, a: string, b: string, body: string, date: string)
    requires p.Lawful() && (SEPARATOR in body || SEPARATOR in date) && p.digest(a) != p.digest(b)
    ensures var rs := OnePost(a, b, body, date);
            var id, m := PairId(p.digest(a), p.digest(b)), NewMessage(p, body, p.digest(a), date);
            && Said(p, rs, id) == [m] && LoadMessages(p, Run(p, rs), id) == Reread(p, [m])
            && (Reread(p, [m]).Done? ==> |Reread(p, [m]).value| > 1)
  {
    hide Run, LoadMessages, Clean, Reread, PairId, Said, OnePost;
    var m := NewMessage(p, body, p.digest(a), date);
    OneSaid(p, a, b, body, date);
    ReadsEcho(p, OnePost(a, b, body, date), PairId(p.digest(a), p.digest(b)));
    assert Echo(p, [m]) == Reread(p, [m]) by { EchoOne(p, m); }
    NewIsClean(p, body, a, date);
    assert !Clean([m][0]);
    DirtySplitsMore(p, [m]);
  }

  /** Two users register and the first posts to the second. */
  function OnePost(a: string, b: string, body: string, date: string): (rs: seq<Request>) {
    [Register("A", a, "", ""), Register("B", b, "", ""), Post(a, b, "", body, date)]
  }

  lemma EchoOne(p: Platform, m: Message)
    ensures Echo(p, [m]) == Reread(p, [m])
  {
    hide Reread;
    EchoSnoc(p, [], m);
    assert [] + [m] == [m];
  }

  lemma TwoUsers(p: Platform, a: string, b: string)
    requires p.Lawful() && p.digest(a) != p.digest(b)
    ensures var c := Play(p, [Register("A", a, "", ""), Register("B", b, "", "")]);
            && c.dialogues == [] && Known(p, c, a) && Known(p, c, b) && Who(p, c, a).token == ""
  {
    hide Play;
    var r, s := Register("A", a, "", ""), Register("B", b, "", "");
    assert [] + [r] == [r] && [r] + [s] == [r, s];
    PlaySnoc(p, [], r);
    PlaySnoc(p, [r], s);
  }

  lemma SaidSnoc(p: Platform, rs: seq<Request>, r: Request, id: string)
    ensures Said(p, [], id) == []
    ensures Said(p, rs + [r], id) == Said(p, rs, id) + SaidBy(p, Play(p, rs), r, id)
  {
    hide SaidBy, Play;
    assert (rs + [r])[..|rs|] == rs;
  }

  lemma OneSaid(p: Platform, a: string, b: string, body: string, date: string)
    requires p.Lawful() && p.digest(a) != p.digest(b)
    ensures Said(p, OnePost(a, b, body, date), PairId(p.digest(a), p.digest(b))) ==
            [NewMessage(p, body, p.digest(a), date)]
  {
    hide PairId, Reread, Said, Play, NewMessage;
    var id := PairId(p.digest(a), p.digest(b));
    var rs := OnePost(a, b, body, date);
    assert [] + [rs[0]] == rs[..1] && rs[..1] + [rs[1]] == rs[..2] == [rs[0], rs[1]] && rs[..2] + [rs[2]] == rs;
    TwoUsers(p, a, b);
    SaidSnoc(p, [], rs[0], id);
    SaidSnoc(p, rs[..1], rs[1], id);
    SaidSnoc(p, rs[..2], rs[2], id);
  }

  /** In every reachable state an accepted post extends what its conversation reads as by
      exactly the new message if and only if the new message and all those read before it
      are free of the separator. */
  lemma PostAppends(p: Platform, rs: seq<Request>, r: Request)
    requires p.Lawful() && r.Post?
    requires Step(p, Run(p, rs), r).reply.Answer? && Step(p, Run(p, rs), r).reply.success
    ensures var x := p.digest(r.senderPhone);
            var id := TalkIdOf(Play(p, rs), x, p.digest(r.receiverPhone));
            var m := NewMessage(p, r.body, x, r.date);
            var held := LoadMessages(p, Run(p, rs), id);
            held.Done? &&
            (LoadMessages(p, Step(p, Run(p, rs), r).db, id) == Done(held.value + [m]) <==>
             Clean(m) && forall i :: 0 <= i < |held.value| ==> Clean(held.value[i]))
  {
    hide LoadMessages, Clean, Reread, PairId, Play, Run, Holds, Deliver, Step, Say, LoadUser;
    var db, c := Run(p, rs), Play(p, rs);
    RunHolds(p, rs);
    ByPhoneOf(p, db, c, r.senderPhone);
    ByPhoneOf(p, db, c, r.receiverPhone);
    PostStep(p, db, r);
    PostHolds(p, db, c, r);
    var x, y := p.digest(r.senderPhone), p.digest(r.receiverPhone);
    DeliverDone(p, db, c, x, y, NewMessage(p, r.body, x, r.date));
    SayReads(p, db, c, Step(p, db, r).db, x, y, NewMessage(p, r.body, x, r.date));
  }

  lemma DeliverDone(p: Platform, db: Data, c: Chat, x: string, y: string, m: Message)
    requires Holds(p, db, c) && x in c.users && y in c.users
    ensures Deliver(p, db, c.users[x], c.users[y], m).Done? <==> Say(p, c, x, y, m).Done?
  {
    hide Deliver, Say, Valid, Stores;
    DeliverIsSay(p, db, c, x, y, m);
  }

  lemma SayReads(p: Platform, db: Data, c: Chat, after: Data, x: string, y: string, m: Message)
    requires Holds(p, db, c) && x in c.users && y in c.users
    requires Say(p, c, x, y, m).Done? && Holds(p, after, Say(p, c, x, y, m).value)
    ensures var id := TalkIdOf(c, x, y);
            var held := LoadMessages(p, db, id);
            held.Done? &&
            (LoadMessages(p, after, id) == Done(held.value + [m]) <==>
             Clean(m) && forall i :: 0 <= i < |held.value| ==> Clean(held.value[i]))
  {
    hide LoadMessages, Clean, Reread, PairId, Stores, Valid, Say, ReadIn;
    var id := TalkIdOf(c, x, y);
    LoadsReadIn(p, db, c, id);
    LoadsReadIn(p, after, Say(p, c, x, y, m).value, id);
    SayReadIn(p, c, x, y, m, id);
    var held := LoadMessages(p, db, id).value;
    RereadExact(p, held + [m]);
    assert forall i :: 0 <= i < |held| ==> (held + [m])[i] == held[i];
    assert (held + [m])[|held|] == m;
  }

  lemma LoadsReadIn(p: Platform, db: Data, c: Chat, id: string)
    requires Holds(p, db, c)
    ensures LoadMessages(p, db, id) == ReadIn(p, c, id)
  {
    hide LoadTalk, Reread, PairId, StoredIds, Stores, Valid;
    var k := FindId(c.dialogues, id);
    if k < |c.dialogues| { LoadTalkOf(p, db, c, k); } else { LoadTalkNone(p, db, c, id); }
  }

  lemma PlaySnoc(p: Platform, rs: seq<Request>, r: Request)
    ensures Play(p, []) == Chat(map[], [])
    ensures Play(p, rs + [r]) == Act(p, Play(p, rs), r)
  {
    hide Act;
    assert (rs + [r])[..|rs|] == rs;
  }

  // ---------------------------------------------------------------------
  // What a post or a broadcast leaves alone.

  /** Delivering from `x` to `y` touches their conversation and their two indexes only. */
  lemma DeliverTouchesOnly(p: Platform, db: Data, c: Chat, x: string, y: string, m: Message, z: string)
    requires Holds(p, db, c) && x in c.users && y in c.users
    ensures var after := Deliver(p, db, c.users[x], c.users[y], m);
            after.Done? ==>
              && (z != PairId(x, y) && z != PairId(y, x) ==> Get(after.value, TalkKey(z)) == Get(db, TalkKey(z)))
              && (z != x && z != y ==> Get(after.value, IndexKey(z)) == Get(db, IndexKey(z)))
  {
    hide Lookup, SaveTalk, Stores, Reread, PairId, OnePerPair, TalkText, Deliver;
    DeliverIs(p, db, c.users[x], c.users[y], m);
    LookupPair(p, db, c, x, y);
    var k := FindPair(c.dialogues, x, y);
    if k < |c.dialogues| {
      var t := Reloaded(p, c, c.dialogues[k]);
      if t.Done? { SaveTalkFrame(p, db, t.value.(messages := t.value.messages + [m]), z); }
    } else {
      NewTalkId(c.users[x], c.users[y]);
      SaveTalkFrame(p, db, Conversation(PairId(x, y), [c.users[x], c.users[y]], [m]), z);
    }
  }

  lemma {:induction false} DeliverEachTouchesOnly(p: Platform, db: Data, c: Chat, x: string,
                                                  contacts: seq<string>, m: Message, z: string)
    requires Holds(p, db, c) && x in c.users
    ensures var after := DeliverEach(p, db, c.users[x], contacts, m).db;
            && ((forall t :: t in Live(p, db, contacts) ==>
                   z != PairId(x, p.digest(t)) && z != PairId(p.digest(t), x))
                ==> Get(after, TalkKey(z)) == Get(db, TalkKey(z)))
            && (z != x && (forall t :: t in Live(p, db, contacts) ==> z != p.digest(t))
                ==> Get(after, IndexKey(z)) == Get(db, IndexKey(z)))
  {
    hide Holds, Deliver, PairId, SayEach, LoadUser;
    if contacts != [] {
      var n := |contacts| - 1;
      DeliverEachTouchesOnly(p, db, c, x, contacts[..n], m, z);
      DeliverEachHolds(p, db, c, x, contacts[..n], m);
      var before, c1 := DeliverEach(p, db, c.users[x], contacts[..n], m), SayEach(p, c, x, contacts[..n], m).chat;
      DeliverEachKeepsUsers(p, db, c.users[x], contacts[..n], m, p.digest(contacts[n]));
      ByPhoneOf(p, before.db, c1, contacts[n]);
      if !before.raised && Known(p, c1, contacts[n]) && Who(p, c1, contacts[n]).online {
        DeliverTouchesOnly(p, before.db, c1, x, p.digest(contacts[n]), m, z);
        assert contacts[n] in Live(p, db, contacts);
      }
    }
  }

  /** In every reachable state a broadcast leaves alone each conversation that is not
      between the sender and a live contact, and the index of everyone else. */
  lemma BroadcastTouchesOnly(p: Platform, rs: seq<Request>, r: Request, z: string)
    requires p.Lawful() && r.Broadcast?
    ensures var db := Run(p, rs);
            var after := Step(p, db, r).db;
            var x := p.digest(r.senderPhone);
            && ((forall t :: t in Live(p, db, r.contacts) ==>
                   z != PairId(x, p.digest(t)) && z != PairId(p.digest(t), x))
                ==> Get(after, TalkKey(z)) == Get(db, TalkKey(z)))
            && (z != x && (forall t :: t in Live(p, db, r.contacts) ==> z != p.digest(t))
                ==> Get(after, IndexKey(z)) == Get(db, IndexKey(z)))
  {
    hide Run, Play, Holds, PairId, LoadUser, DeliverEach, Live, Step;
    RunHolds(p, rs);
    var db, c := Run(p, rs), Play(p, rs);
    ByPhoneOf(p, db, c, r.senderPhone);
    BroadcastStep(p, db, r);
    if Known(p, c, r.senderPhone) {
      var x := p.digest(r.senderPhone);
      DeliverEachTouchesOnly(p, db, c, x, r.contacts, NewMessage(p, r.body, x, r.date), z);
    }
  }
}
