/** Every run of requests, in the chat and in the database. */
module Runs {
  import opened Records
  import opened Tables
  import opened Requests
  import opened Chat

  // ---------------------------------------------------------------------
  // Requests on the chat.

  function Who(p: Platform, c: Chat, phone: string): (u: User) {
    var id := p.digest(phone);
    if id in c.users then c.users[id] else NoUser
  }

  predicate Known(p: Platform, c: Chat, phone: string) {
    p.digest(phone) in c.users
  }

  function SetUser(c: Chat, u: User): (c': Chat) {
    c.(users := c.users[u.id := u])
  }

  /** How far a series of messages came: an exception ends it. */
  datatype Spoken = Spoken(chat: Chat, raised: bool)

  function SayOne(p: Platform, c: Chat, x: string, phone: string, m: Message): (s: Spoken) {
    if Known(p, c, phone) && Who(p, c, phone).online then
      match Say(p, c, x, p.digest(phone), m)
      case Raised => Spoken(c, true)
      case Done(c') => Spoken(c', false)
    else Spoken(c, false)
  }

  function SayEach(p: Platform, c: Chat, x: string, contacts: seq<string>, m: Message): (s: Spoken) {
    if contacts == [] then Spoken(c, false)
    else
      var n := |contacts| - 1;
      var before := SayEach(p, c, x, contacts[..n], m);
      if before.raised then before else SayOne(p, before.chat, x, contacts[n], m)
  }

  /** What a request does to the chat. */
  function Act(p: Platform, c: Chat, r: Request): (c': Chat) {
    match r
    case Register(name, phone, password, now) =>
      if Known(p, c, phone) then c else SetUser(c, NewUser(p, name, phone, password, now))
    case EditProfile(phone, token, name, online, photo, place, password) =>
      var u := Who(p, c, phone);
      if Known(p, c, phone) && u.token == token then
        SetUser(c, u.(name := name, online := online == "true", photo := photo, place := place,
                      password := password))
      else c
    case Consult(phone, renew, now, _) =>
      if Known(p, c, phone) then SetUser(c, Seen(p, Who(p, c, phone), renew, now)) else c
    case CheckIn(phone, place) =>
      if Known(p, c, phone) then SetUser(c, Who(p, c, phone).(place := place)) else c
    case Post(s, t, token, body, date) =>
      if Known(p, c, s) && Known(p, c, t) && Who(p, c, s).token == token then
        var c' := Say(p, c, p.digest(s), p.digest(t), NewMessage(p, body, p.digest(s), date));
        if c'.Done? then c'.value else c
      else c
    case Broadcast(s, token, contacts, body, date) =>
      if Known(p, c, s) && Who(p, c, s).token == token then
        SayEach(p, c, p.digest(s), contacts, NewMessage(p, body, p.digest(s), date)).chat
      else c
    case _ => c
  }

  function Play(p: Platform, rs: seq<Request>): (c: Chat) {
    if rs == [] then Chat(map[], []) else Act(p, Play(p, rs[..|rs| - 1]), rs[|rs| - 1])
  }

  // ---------------------------------------------------------------------
  // Simulation.

  /** A valid chat and its text form. */
  ghost predicate Holds(p: Platform, db: Data, c: Chat) {
    p.Lawful() && Valid(c) && Stores(p, db, c)
  }

  lemma ByPhoneOf(p: Platform, db: Data, c: Chat, phone: string)
    requires Holds(p, db, c)
    ensures ByPhone(p, db, phone) == Done(Who(p, c, phone))
    ensures Found(Who(p, c, phone)) <==> Known(p, c, phone)
    ensures Known(p, c, phone) ==> Who(p, c, phone).id == p.digest(phone)
  {
    hide LoadUser, TalksStored, IndexStored, OnePerPair;
    LoadUserOf(p, db, c, p.digest(phone));
  }

  lemma TalksUnchanged(p: Platform, db: Data, db': Data, ds: seq<Dialogue>)
    requires TalksStored(p, db, ds) && forall x :: Get(db', TalkKey(x)) == Get(db, TalkKey(x))
    ensures TalksStored(p, db', ds)
  {
    hide DialogueText, Get, TalkKey, PairId;
    forall x | Get(db', TalkKey(x)) != NOT_FOUND ensures exists i :: 0 <= i < |ds| && ds[i].Id() == x {
      assert Get(db, TalkKey(x)) != NOT_FOUND;
    }
  }

  lemma SetUserValid(c: Chat, u: User)
    requires Valid(c) && IsDigest(u.id)
    ensures Valid(SetUser(c, u))
  {
    hide IsDigest, OnePerPair;
    var us := c.users[u.id := u];
    forall id | id in us ensures IsDigest(id) && us[id].id == id {
      if id != u.id { assert id in c.users && us[id] == c.users[id]; }
    }
  }

  lemma UsersAfter(p: Platform, db: Data, db': Data, users: map<string, User>, u: User)
    requires UsersStored(p, db, users)
    requires forall x :: Get(db', UserKey(x)) == if x == u.id then WriteUser(p, u) else Get(db, UserKey(x))
    ensures UsersStored(p, db', users[u.id := u])
  {
    hide WriteUser, Get, UserKey;
    var us := users[u.id := u];
    forall x ensures Get(db', UserKey(x)) == if x in us then WriteUser(p, us[x]) else NOT_FOUND {
      if x != u.id { assert x in us <==> x in users; }
    }
  }

  lemma SaveUserHolds(p: Platform, db: Data, c: Chat, u: User)
    requires Holds(p, db, c) && IsDigest(u.id)
    ensures Holds(p, SaveUser(p, db, u), SetUser(c, u))
  {
    hide WriteUser, IndexText, TalksStored, UsersStored, Valid, UserKey, TalkKey, IndexKey;
    var db' := SaveUser(p, db, u);
    forall x
      ensures Get(db', UserKey(x)) == if x == u.id then WriteUser(p, u) else Get(db, UserKey(x))
      ensures Get(db', TalkKey(x)) == Get(db, TalkKey(x))
      ensures Get(db', IndexKey(x)) == Get(db, IndexKey(x))
    {
      KeysApart(u.id, x);
    }
    TalksUnchanged(p, db, db', c.dialogues);
    UsersAfter(p, db, db', c.users, u);
    SetUserValid(c, u);
  }

  lemma DeliverOneHolds(p: Platform, db: Data, c: Chat, x: string, phone: string, m: Message)
    requires Holds(p, db, c) && x in c.users
    ensures var sent, said := DeliverOne(p, db, c.users[x], phone, m), SayOne(p, c, x, phone, m);
            Holds(p, sent.db, said.chat) && sent.raised == said.raised && said.chat.users == c.users
  {
    hide Valid, Stores, LoadUser, Deliver, Say;
    ByPhoneOf(p, db, c, phone);
    if Known(p, c, phone) {
      DeliverIsSay(p, db, c, x, p.digest(phone), m);
      SayKeepsUsers(p, c, x, p.digest(phone), m);
    }
  }

  lemma {:induction false} DeliverEachHolds(p: Platform, db: Data, c: Chat, x: string, contacts: seq<string>,
                                            m: Message)
    requires Holds(p, db, c) && x in c.users
    ensures var sent, said := DeliverEach(p, db, c.users[x], contacts, m), SayEach(p, c, x, contacts, m);
            Holds(p, sent.db, said.chat) && sent.raised == said.raised && said.chat.users == c.users
  {
    hide Holds, DeliverOne, SayOne;
    if contacts != [] {
      var n := |contacts| - 1;
      DeliverEachHolds(p, db, c, x, contacts[..n], m);
      var sent, said := DeliverEach(p, db, c.users[x], contacts[..n], m), SayEach(p, c, x, contacts[..n], m);
      if !said.raised { DeliverOneHolds(p, sent.db, said.chat, x, contacts[n], m); }
    }
  }

  lemma SayKeepsUsers(p: Platform, c: Chat, x: string, y: string, m: Message)
    ensures Say(p, c, x, y, m).Done? ==> Say(p, c, x, y, m).value.users == c.users
  {
    hide Reread;
  }

  lemma PostHolds(p: Platform, db: Data, c: Chat, r: Request)
    requires Holds(p, db, c) && r.Post?
    ensures Holds(p, Step(p, db, r).db, Act(p, c, r))
  {
    hide Valid, Stores, LoadUser, Deliver, Say, SayEach, Step;
    ByPhoneOf(p, db, c, r.senderPhone);
    ByPhoneOf(p, db, c, r.receiverPhone);
    PostStep(p, db, r);
    if Known(p, c, r.senderPhone) && Known(p, c, r.receiverPhone) {
      var s := p.digest(r.senderPhone);
      DeliverIsSay(p, db, c, s, p.digest(r.receiverPhone), NewMessage(p, r.body, s, r.date));
    }
  }

  lemma BroadcastHolds(p: Platform, db: Data, c: Chat, r: Request)
    requires Holds(p, db, c) && r.Broadcast?
    ensures Holds(p, Step(p, db, r).db, Act(p, c, r))
  {
    hide Holds, LoadUser, DeliverEach, SayEach, Say, Step;
    ByPhoneOf(p, db, c, r.senderPhone);
    BroadcastStep(p, db, r);
    if Known(p, c, r.senderPhone) {
      var s := p.digest(r.senderPhone);
      DeliverEachHolds(p, db, c, s, r.contacts, NewMessage(p, r.body, s, r.date));
    }
  }

  lemma UserStepHolds(p: Platform, db: Data, c: Chat, r: Request)
    requires Holds(p, db, c) && (r.Register? || r.EditProfile? || r.Consult? || r.CheckIn?)
    ensures Holds(p, Step(p, db, r).db, Act(p, c, r))
  {
    hide Holds, Step, Act;
    if r.Register? { RegisterHolds(p, db, c, r); }
    else if r.EditProfile? { EditHolds(p, db, c, r); }
    else if r.Consult? { ConsultHolds(p, db, c, r); }
    else { CheckInHolds(p, db, c, r); }
  }

  lemma RegisterHolds(p: Platform, db: Data, c: Chat, r: Request)
    requires Holds(p, db, c) && r.Register?
    ensures Holds(p, Step(p, db, r).db, Act(p, c, r))
  {
    hide Valid, Stores, LoadUser, SaveUser, SetUser, Say, SayEach;
    hide DoEdit, DoConsult, DoCheckIn, DoPost, DoBroadcast, DoFind, DoFetch, DoList, DoContacts;
    ByPhoneOf(p, db, c, r.phone);
    assert IsDigest(p.digest(r.phone));
    SaveUserHolds(p, db, c, NewUser(p, r.name, r.phone, r.password, r.now));
  }

  lemma EditHolds(p: Platform, db: Data, c: Chat, r: Request)
    requires Holds(p, db, c) && r.EditProfile?
    ensures Holds(p, Step(p, db, r).db, Act(p, c, r))
  {
    hide Valid, Stores, LoadUser, SaveUser, SetUser, Say, SayEach;
    hide DoRegister, DoConsult, DoCheckIn, DoPost, DoBroadcast, DoFind, DoFetch, DoList, DoContacts;
    ByPhoneOf(p, db, c, r.phone);
    assert IsDigest(p.digest(r.phone));
    if Known(p, c, r.phone) {
      SaveUserHolds(p, db, c, Who(p, c, r.phone).(name := r.name, online := r.online == "true", photo := r.photo,
                                                  place := r.place, password := r.password));
    }
  }

  lemma ConsultHolds(p: Platform, db: Data, c: Chat, r: Request)
    requires Holds(p, db, c) && r.Consult?
    ensures Holds(p, Step(p, db, r).db, Act(p, c, r))
  {
    hide Valid, Stores, LoadUser, SaveUser, SetUser, Say, SayEach;
    hide DoRegister, DoEdit, DoCheckIn, DoPost, DoBroadcast, DoFind, DoFetch, DoList, DoContacts;
    ByPhoneOf(p, db, c, r.phone);
    assert IsDigest(p.digest(r.phone));
    if Known(p, c, r.phone) { SaveUserHolds(p, db, c, Seen(p, Who(p, c, r.phone), r.renew, r.now)); }
  }

  lemma CheckInHolds(p: Platform, db: Data, c: Chat, r: Request)
    requires Holds(p, db, c) && r.CheckIn?
    ensures Holds(p, Step(p, db, r).db, Act(p, c, r))
  {
    hide Valid, Stores, LoadUser, SaveUser, SetUser, Say, SayEach;
    hide DoRegister, DoEdit, DoConsult, DoPost, DoBroadcast, DoFind, DoFetch, DoList, DoContacts;
    ByPhoneOf(p, db, c, r.phone);
    assert IsDigest(p.digest(r.phone));
    if Known(p, c, r.phone) { SaveUserHolds(p, db, c, Who(p, c, r.phone).(place := r.place)); }
  }

  /** Each request does to the database what it does to the chat. */
  lemma StepHolds(p: Platform, db: Data, c: Chat, r: Request)
    requires Holds(p, db, c)
    ensures Holds(p, Step(p, db, r).db, Act(p, c, r))
  {
    hide Holds;
    if r.Post? { PostHolds(p, db, c, r); }
    else if r.Broadcast? { BroadcastHolds(p, db, c, r); }
    else if r.Register? || r.EditProfile? || r.Consult? || r.CheckIn? { UserStepHolds(p, db, c, r); }
  }

  /** Every database reached by requests is the text form of the chat they make. */
  lemma {:induction false} RunHolds(p: Platform, rs: seq<Request>)
    requires p.Lawful()
    ensures Holds(p, Run(p, rs), Play(p, rs))
  {
    if rs != [] {
      hide Holds, Step, Act;
      RunHolds(p, rs[..|rs| - 1]);
      StepHolds(p, Run(p, rs[..|rs| - 1]), Play(p, rs[..|rs| - 1]), rs[|rs| - 1]);
    }
  }
}
