/** What the services answer in every reachable state, and what every run keeps. */
module History {
  import opened StringUtil
  import opened Records
  import opened Tables
  import opened Requests
  import opened Chat
  import opened Runs
  import opened Rereading

  // ---------------------------------------------------------------------
  // Answers.

  /** What the service answers for the dialogue of two users: its id, or the
      missing-conversation sentinel, which is answered as a success. */
  function PairAnswer(p: Platform, c: Chat, x: string, y: string): (r: Attempt<Reply>) {
    var k := FindPair(c.dialogues, x, y);
    if k == |c.dialogues| then Done(Answer(NO_CONVERSATION_ID, true))
    else if Reread(p, c.dialogues[k].log).Raised? then Raised
    else Done(Answer(c.dialogues[k].Id(), true))
  }

  /** Both orders of a pair get the same answer. */
  lemma FindTalkAnswer(p: Platform, db: Data, c: Chat, s: string, t: string)
    requires Holds(p, db, c)
    ensures Known(p, c, s) && Known(p, c, t) ==> DoFind(p, db, s, t) == PairAnswer(p, c, p.digest(s), p.digest(t))
    ensures DoFind(p, db, s, t) == DoFind(p, db, t, s)
  {
    hide Valid, Stores, LoadUser, LoadTalk, PairId, Reread;
    ByPhoneOf(p, db, c, s);
    ByPhoneOf(p, db, c, t);
    if Known(p, c, s) && Known(p, c, t) {
      FindPairSymmetric(c.dialogues, p.digest(s), p.digest(t));
      FindOne(p, db, c, s, t);
      FindOne(p, db, c, t, s);
    }
  }

  lemma FindOne(p: Platform, db: Data, c: Chat, s: string, t: string)
    requires Holds(p, db, c) && Known(p, c, s) && Known(p, c, t)
    ensures DoFind(p, db, s, t) == PairAnswer(p, c, p.digest(s), p.digest(t))
  {
    hide Stores, LoadUser, LoadTalk, PairId, Reread, OnePerPair;
    ByPhoneOf(p, db, c, s);
    ByPhoneOf(p, db, c, t);
    LookupPair(p, db, c, p.digest(s), p.digest(t));
    var k := FindPair(c.dialogues, p.digest(s), p.digest(t));
    if k < |c.dialogues| { PairIdIsNoSentinel(c.dialogues[k].a, c.dialogues[k].b); }
  }

  /** What a fetch answers: the log of the dialogue as read back, from the given message on. */
  function LogAnswer(p: Platform, c: Chat, id: string, last: string): (r: Attempt<Reply>) {
    var k := FindId(c.dialogues, id);
    if k == |c.dialogues| then Done(Answer("La conversacion " + id + " no se encuentra en el sistema", false))
    else
      var log :- Reread(p, c.dialogues[k].log);
      Done(Messages(Since(log, last)))
  }

  lemma FetchAnswer(p: Platform, db: Data, c: Chat, id: string, last: string)
    requires Holds(p, db, c)
    ensures DoFetch(p, db, id, last) == LogAnswer(p, c, id, last)
  {
    hide Valid, Stores, LoadTalk, PairId, Since, Reread, StoredIds;
    var k := FindId(c.dialogues, id);
    if k < |c.dialogues| { LoadTalkOf(p, db, c, k); } else { LoadTalkNone(p, db, c, id); }
  }

  /** Every dialogue has two users and, if it can be read, a message. */
  ghost predicate Showable(p: Platform, c: Chat) {
    forall i :: 0 <= i < |c.dialogues| ==>
      var d := c.dialogues[i];
      d.a in c.users && d.b in c.users && (Reread(p, d.log).Done? ==> Reread(p, d.log).value != [])
  }

  /** The entry for one dialogue: its last message and the other participant. */
  function SummaryOf(p: Platform, c: Chat, me: string, d: Dialogue): (s: Attempt<Summary>)
    requires d.a in c.users && d.b in c.users && (Reread(p, d.log).Done? ==> Reread(p, d.log).value != [])
  {
    var log :- Reread(p, d.log);
    var contact := c.users[if d.a == me then d.b else d.a];
    Done(Summary(d.Id(), log[|log| - 1].body, contact.name, contact.phone, contact.photo))
  }

  /** Of the first `n` dialogues, those of a user that are not known, in order of creation. */
  function SummariesOf(p: Platform, c: Chat, me: string, known: seq<string>, n: nat): (ss: Attempt<seq<Summary>>)
    requires Showable(p, c) && n <= |c.dialogues|
  {
    if n == 0 then Done([])
    else
      var d := c.dialogues[n - 1];
      var before :- SummariesOf(p, c, me, known, n - 1);
      if d.Has(me) && d.Id() !in known then
        var last :- SummaryOf(p, c, me, d);
        Done(before + [last])
      else Done(before)
  }

  lemma ValidIsShowable(p: Platform, c: Chat)
    requires p.Lawful() && Valid(c)
    ensures Showable(p, c)
  {
    hide Reread, OnePerPair;
    forall i | 0 <= i < |c.dialogues|
      ensures Reread(p, c.dialogues[i].log).Done? ==> Reread(p, c.dialogues[i].log).value != []
    {
      RereadNonEmpty(p, c.dialogues[i].log);
    }
  }

  /** One stored dialogue passes the range checks and yields its entry. */
  lemma SummariseOne(p: Platform, db: Data, c: Chat, me: string, k: nat)
    requires Holds(p, db, c) && k < |c.dialogues| && Showable(p, c)
    ensures var t, s := LoadTalk(p, db, c.dialogues[k].Id()), SummaryOf(p, c, me, c.dialogues[k]);
            && (t.Done? <==> s.Done?)
            && (t.Done? ==>
                  t.value.id != NO_CONVERSATION_ID && Indexable(me, t.value) && Summarise(me, t.value) == s.value)
  {
    hide LoadTalk, Stores, Reread, OnePerPair, PairId, StoredIds;
    LoadTalkOf(p, db, c, k);
  }

  lemma FreshSnoc(p: Platform, db: Data, ids: seq<string>, id: string, known: seq<string>)
    ensures var before, t := Fresh(p, db, ids, known), LoadTalk(p, db, id);
            Fresh(p, db, ids + [id], known) ==
            if before.Raised? || (id !in known && t.Raised?) then Raised
            else Done(before.value + if id !in known && t.value.id != NO_CONVERSATION_ID then [t.value] else [])
  {
    hide LoadTalk;
    assert (ids + [id])[..|ids|] == ids;
    var before := Fresh(p, db, ids, known);
    if before.Done? { assert before.value + [] == before.value; }
  }

  /** The conversations of the first loop match the entries. */
  ghost predicate Match(me: string, cs: Attempt<seq<Conversation>>, ss: Attempt<seq<Summary>>) {
    && (cs.Done? <==> ss.Done?)
    && (cs.Done? ==> (forall t :: t in cs.value ==> Indexable(me, t)) && SummariseAll(me, cs.value) == ss.value)
  }

  lemma MatchSnoc(me: string, cs: seq<Conversation>, ss: seq<Summary>, t: Conversation)
    requires Match(me, Done(cs), Done(ss)) && Indexable(me, t)
    ensures Match(me, Done(cs + [t]), Done(ss + [Summarise(me, t)]))
  {
    hide Indexable, Summarise;
    assert SummariseAll(me, cs + [t]) == SummariseAll(me, cs) + [Summarise(me, t)];
  }

  /** The first loop of the service, over the ids of the first `n` dialogues of a user. */
  lemma {:induction false} FreshOf(p: Platform, db: Data, c: Chat, me: string, known: seq<string>, n: nat)
    requires Holds(p, db, c) && n <= |c.dialogues| && Showable(p, c)
    ensures Match(me, Fresh(p, db, [NOT_FOUND] + IdsOf(c.dialogues[..n], me), known), SummariesOf(p, c, me, known, n))
  {
    hide LoadTalk, Holds, Showable, Fresh, PairId, Summarise, SummaryOf, Indexable, Match;
    var ds := c.dialogues[..n];
    if n == 0 {
      NotFoundIsNoId(p, db, c);
      FreshSnoc(p, db, [], NOT_FOUND, known);
      assert [NOT_FOUND] + IdsOf(ds, me) == [] + [NOT_FOUND];
      FreshNil(p, db, known);
      MatchNone(me);
      var none: seq<Conversation> := [];
      assert none + [] == none;
    } else {
      FreshOf(p, db, c, me, known, n - 1);
      assert ds[..n - 1] == c.dialogues[..n - 1];
      FreshNext(p, db, c, me, known, n, [NOT_FOUND] + IdsOf(ds[..n - 1], me));
    }
  }

  lemma MatchNone(me: string)
    ensures Match(me, Done([]), Done([]))
  {
  }

  lemma IdsNext(ds: seq<Dialogue>, me: string, n: nat)
    requires 0 < n <= |ds|
    ensures var before := [NOT_FOUND] + IdsOf(ds[..n - 1], me);
            [NOT_FOUND] + IdsOf(ds[..n], me) == if ds[n - 1].Has(me) then before + [ds[n - 1].Id()] else before
  {
    hide PairId;
    assert ds[..n][..n - 1] == ds[..n - 1] && ds[..n][n - 1] == ds[n - 1];
  }

  lemma SummariesNext(p: Platform, c: Chat, me: string, known: seq<string>, n: nat)
    requires Showable(p, c) && 0 < n <= |c.dialogues|
    ensures var before, d := SummariesOf(p, c, me, known, n - 1), c.dialogues[n - 1];
            SummariesOf(p, c, me, known, n) ==
            if before.Raised? then Raised
            else if d.Has(me) && d.Id() !in known then
              var last := SummaryOf(p, c, me, d);
              if last.Raised? then Raised else Done(before.value + [last.value])
            else before
  {
    hide SummaryOf, PairId;
  }

  lemma FreshNext(p: Platform, db: Data, c: Chat, me: string, known: seq<string>, n: nat, before: seq<string>)
    requires Holds(p, db, c) && 0 < n <= |c.dialogues| && Showable(p, c)
    requires before == [NOT_FOUND] + IdsOf(c.dialogues[..n - 1], me)
    requires Match(me, Fresh(p, db, before, known), SummariesOf(p, c, me, known, n - 1))
    ensures Match(me, Fresh(p, db, [NOT_FOUND] + IdsOf(c.dialogues[..n], me), known), SummariesOf(p, c, me, known, n))
  {
    hide LoadTalk, Holds, Showable, Fresh, PairId, Summarise, SummaryOf, Indexable, SummariseAll, SummariesOf, IdsOf;
    var d := c.dialogues[n - 1];
    var cs, ss := Fresh(p, db, before, known), SummariesOf(p, c, me, known, n - 1);
    IdsNext(c.dialogues, me, n);
    SummariesNext(p, c, me, known, n);
    if d.Has(me) {
      SummariseOne(p, db, c, me, n - 1);
      FreshSnoc(p, db, before, d.Id(), known);
      var t := LoadTalk(p, db, d.Id());
      if cs.Done? {
        if d.Id() in known {
          assert cs.value + [] == cs.value;
        } else if t.Done? {
          MatchSnoc(me, cs.value, ss.value, t.value);
        }
      }
    }
  }

  lemma FreshNil(p: Platform, db: Data, known: seq<string>)
    ensures Fresh(p, db, [], known) == Done([])
  {
  }

  lemma NotFoundIsNoId(p: Platform, db: Data, c: Chat)
    requires Holds(p, db, c)
    ensures LoadTalk(p, db, NOT_FOUND) == Done(Conversation(NO_CONVERSATION_ID, [], []))
  {
    hide LoadTalk, Stores, PairId, OnePerPair;
    var k := FindId(c.dialogues, NOT_FOUND);
    if k < |c.dialogues| {
      PairIdIsNoSentinel(c.dialogues[k].a, c.dialogues[k].b);
    } else {
      LoadTalkNone(p, db, c, NOT_FOUND);
    }
  }

  /** What a listing answers. */
  function ListingOf(p: Platform, c: Chat, phone: string, known: seq<string>): (r: Attempt<Reply>)
    requires Showable(p, c)
  {
    if Known(p, c, phone) then
      var ss :- SummariesOf(p, c, p.digest(phone), known, |c.dialogues|);
      Done(Summaries(ss))
    else Done(Silent)
  }

  /** A listing never reads out of range and answers exactly the unknown dialogues of the user,
      in order of creation, each with its last message and the other user, if all of them can be
      read. */
  lemma ListAnswer(p: Platform, db: Data, c: Chat, phone: string, known: seq<string>)
    requires Holds(p, db, c)
    ensures Showable(p, c) && DoList(p, db, phone, known) == ListingOf(p, c, phone, known)
  {
    hide LoadTalk, LoadUser, Stores, Reread, PairId, Fresh, SummariesOf, Split, OnePerPair, Indexable, SummariseAll;
    ValidIsShowable(p, c);
    ByPhoneOf(p, db, c, phone);
    if Known(p, c, phone) {
      var me := p.digest(phone);
      assert c.dialogues[..|c.dialogues|] == c.dialogues;
      IndexReads(p, db, c, me);
      FreshOf(p, db, c, me, known, |c.dialogues|);
    }
  }

  lemma IndexReads(p: Platform, db: Data, c: Chat, u: string)
    requires Holds(p, db, c)
    ensures Split(Get(db, IndexKey(u)), SEPARATOR) == [NOT_FOUND] + IdsOf(c.dialogues, u)
  {
    hide Split, IdsOf, IndexText, TalksStored, UsersStored, OnePerPair;
    IndexSplits(c.dialogues, u);
  }

  // ---------------------------------------------------------------------
  // What never happens, and when an exception does.

  /** A request ends in an exception: it loads a dialogue that cannot be read. */
  ghost predicate Raises(p: Platform, c: Chat, r: Request)
    requires Showable(p, c)
  {
    match r
    case Post(s, t, token, body, date) =>
      && Known(p, c, s) && Known(p, c, t) && Who(p, c, s).token == token
      && Say(p, c, p.digest(s), p.digest(t), NewMessage(p, body, p.digest(s), date)).Raised?
    case Broadcast(s, token, contacts, body, date) =>
      && Known(p, c, s) && Who(p, c, s).token == token
      && SayEach(p, c, p.digest(s), contacts, NewMessage(p, body, p.digest(s), date)).raised
    case FindTalk(s, t) => Known(p, c, s) && Known(p, c, t) && PairAnswer(p, c, p.digest(s), p.digest(t)).Raised?
    case Fetch(id, last) => LogAnswer(p, c, id, last).Raised?
    case ListTalks(phone, known) => ListingOf(p, c, phone, known).Raised?
    case _ => false
  }

  /** No request reads out of range in a database that stores a valid chat, and a request ends in
      an exception exactly when it loads a dialogue that cannot be read. */
  lemma NoFault(p: Platform, db: Data, c: Chat, r: Request)
    requires Holds(p, db, c)
    ensures Showable(p, c) && Step(p, db, r).reply != Fault
    ensures Step(p, db, r).reply == Uncaught <==> Raises(p, c, r)
  {
    hide Holds, Step, Raises, DoList;
    ListAnswer(p, db, c, "", []);
    match r
    case Post(_, _, _, _, _) => PostEnds(p, db, c, r);
    case Broadcast(_, _, _, _, _) => BroadcastEnds(p, db, c, r);
    case FindTalk(_, _) => FindTalkEnds(p, db, c, r);
    case Fetch(_, _) => FetchEnds(p, db, c, r);
    case ListTalks(_, _) => ListEnds(p, db, c, r);
    case FindContacts(phones) => ContactsEnd(p, db, c, r);
    case _ => UserStepEnds(p, db, c, r);
  }

  lemma PostEnds(p: Platform, db: Data, c: Chat, r: Request)
    requires Holds(p, db, c) && r.Post? && Showable(p, c)
    ensures Step(p, db, r).reply != Fault && (Step(p, db, r).reply == Uncaught <==> Raises(p, c, r))
  {
    hide Valid, Stores, LoadUser, Deliver, Say, DeliverEach, SayEach, PairAnswer, LogAnswer, ListingOf, Showable, Step;
    ByPhoneOf(p, db, c, r.senderPhone);
    ByPhoneOf(p, db, c, r.receiverPhone);
    PostStep(p, db, r);
    if Known(p, c, r.senderPhone) && Known(p, c, r.receiverPhone) {
      var s := p.digest(r.senderPhone);
      DeliverIsSay(p, db, c, s, p.digest(r.receiverPhone), NewMessage(p, r.body, s, r.date));
    }
  }

  lemma BroadcastEnds(p: Platform, db: Data, c: Chat, r: Request)
    requires Holds(p, db, c) && r.Broadcast? && Showable(p, c)
    ensures Step(p, db, r).reply != Fault && (Step(p, db, r).reply == Uncaught <==> Raises(p, c, r))
  {
    hide Holds, LoadUser, Say, DeliverEach, SayEach, PairAnswer, LogAnswer, ListingOf, Showable, Step;
    ByPhoneOf(p, db, c, r.senderPhone);
    BroadcastStep(p, db, r);
    if Known(p, c, r.senderPhone) {
      var s := p.digest(r.senderPhone);
      DeliverEachHolds(p, db, c, s, r.contacts, NewMessage(p, r.body, s, r.date));
    }
  }

  lemma FindTalkEnds(p: Platform, db: Data, c: Chat, r: Request)
    requires Holds(p, db, c) && r.FindTalk? && Showable(p, c)
    ensures Step(p, db, r).reply != Fault && (Step(p, db, r).reply == Uncaught <==> Raises(p, c, r))
  {
    hide Valid, Stores, LoadUser, LoadTalk, Say, SayEach, LogAnswer, ListingOf, Showable, Reread;
    hide DoRegister, DoEdit, DoConsult, DoCheckIn, DoPost, DoBroadcast, DoFetch, DoList, DoContacts;
    ByPhoneOf(p, db, c, r.senderPhone);
    ByPhoneOf(p, db, c, r.receiverPhone);
    if Known(p, c, r.senderPhone) && Known(p, c, r.receiverPhone) { FindOne(p, db, c, r.senderPhone, r.receiverPhone); }
  }

  lemma FetchEnds(p: Platform, db: Data, c: Chat, r: Request)
    requires Holds(p, db, c) && r.Fetch? && Showable(p, c)
    ensures Step(p, db, r).reply != Fault && (Step(p, db, r).reply == Uncaught <==> Raises(p, c, r))
  {
    hide Holds, LoadTalk, Say, SayEach, PairAnswer, ListingOf, Showable, Reread, DoFetch;
    hide DoRegister, DoEdit, DoConsult, DoCheckIn, DoPost, DoBroadcast, DoFind, DoList, DoContacts;
    FetchAnswer(p, db, c, r.talkId, r.lastId);
  }

  lemma ListEnds(p: Platform, db: Data, c: Chat, r: Request)
    requires Holds(p, db, c) && r.ListTalks? && Showable(p, c)
    ensures Step(p, db, r).reply != Fault && (Step(p, db, r).reply == Uncaught <==> Raises(p, c, r))
  {
    hide Holds, Say, SayEach, PairAnswer, LogAnswer, SummariesOf, Showable, Reread, DoList;
    hide DoRegister, DoEdit, DoConsult, DoCheckIn, DoPost, DoBroadcast, DoFind, DoFetch, DoContacts;
    ListAnswer(p, db, c, r.phone, r.known);
  }

  lemma ContactsEnd(p: Platform, db: Data, c: Chat, r: Request)
    requires Holds(p, db, c) && r.FindContacts? && Showable(p, c)
    ensures Step(p, db, r).reply != Fault && (Step(p, db, r).reply == Uncaught <==> Raises(p, c, r))
  {
    hide Holds, Say, SayEach, PairAnswer, LogAnswer, ListingOf, Showable, Reachable;
    hide DoRegister, DoEdit, DoConsult, DoCheckIn, DoPost, DoBroadcast, DoFind, DoFetch, DoList;
    ReachableReads(p, db, c, r.contacts);
  }

  lemma {:induction false} ReachableReads(p: Platform, db: Data, c: Chat, phones: seq<string>)
    requires Holds(p, db, c)
    ensures Reachable(p, db, phones).Done?
  {
    hide Holds, ByPhone;
    if phones != [] {
      var n := |phones| - 1;
      ReachableReads(p, db, c, phones[..n]);
      ByPhoneOf(p, db, c, phones[n]);
    }
  }

  lemma UserStepEnds(p: Platform, db: Data, c: Chat, r: Request)
    requires Holds(p, db, c) && (r.Register? || r.EditProfile? || r.Consult? || r.CheckIn?) && Showable(p, c)
    ensures Step(p, db, r).reply != Fault && (Step(p, db, r).reply == Uncaught <==> Raises(p, c, r))
  {
    hide Holds, ByPhone, Say, SayEach, PairAnswer, LogAnswer, ListingOf, Showable, Step;
    ByPhoneOf(p, db, c, r.phone);
    UserStep(p, db, r);
  }
}
