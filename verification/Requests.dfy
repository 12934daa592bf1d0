/** The services of the chat server as steps over the database.  Clock readings,
    computed locations and decoded request parameters are part of the request. */
module Requests {
  import opened StringUtil
  import opened Records
  import opened Tables

  datatype Request =
    | Register(name: string, phone: string, password: string, now: string)
    | EditProfile(phone: string, token: string, name: string, online: string,
                  photo: string, place: string, password: string)
    | Consult(phone: string, renew: string, now: string, number: string)
    | CheckIn(phone: string, place: string)
    | Post(senderPhone: string, receiverPhone: string, token: string, body: string, date: string)
    | Broadcast(senderPhone: string, token: string, contacts: seq<string>, body: string, date: string)
    | FindTalk(senderPhone: string, receiverPhone: string)
    | Fetch(talkId: string, lastId: string)
    | ListTalks(phone: string, known: seq<string>)
    | FindContacts(contacts: seq<string>)

  /** One entry of the reply to `obtenerConversaciones`. */
  datatype Summary = Summary(id: string, lastBody: string, name: string, phone: string, photo: string)

  datatype Reply =
    | Answer(payload: string, success: bool)
    | Profile(user: User)
    | Messages(messages: seq<Message>)
    | Summaries(summaries: seq<Summary>)
    | Contacts(users: seq<User>)
    | Silent
    | Fault          // an out-of-range access
    | Uncaught       // an exception that nothing catches: no reply, and the process ends

  datatype Outcome = Outcome(db: Data, reply: Reply)

  /** The database as it is when an exception ends the request, and no reply. */
  function Settle(db: Data, o: Attempt<Outcome>): (r: Outcome) {
    match o
    case Raised => Outcome(db, Uncaught)
    case Done(r) => r
  }

  /** A request that only reads. */
  function Told(db: Data, r: Attempt<Reply>): (o: Outcome) {
    Outcome(db, if r.Done? then r.value else Uncaught)
  }

  function ByPhone(p: Platform, db: Data, phone: string): (u: Attempt<User>) {
    LoadUser(p, db, p.digest(phone))
  }

  predicate Found(u: User) { u.id != NO_USER_ID }

  /** `Usuario::Usuario(nombre, telefono, password)`. */
  function NewUser(p: Platform, name: string, phone: string, password: string, now: string): (u: User) {
    User(p.digest(phone), name, phone, true, now, "default", "desconocida", "", password)
  }

  function BadToken(u: User): (r: Reply) {
    Answer("El usuario " + u.name + " no posee un token de session correcto", false)
  }

  function DoRegister(p: Platform, db: Data, name: string, phone: string, password: string, now: string)
    : (o: Attempt<Outcome>)
  {
    var u :- ByPhone(p, db, phone);
    if Found(u) then Done(Outcome(db, Answer("El usuario ya existe", false)))
    else Done(Outcome(SaveUser(p, db, NewUser(p, name, phone, password, now)),
                      Answer("Usuario registrado correctamente", true)))
  }

  function DoEdit(p: Platform, db: Data, r: Request): (o: Attempt<Outcome>)
    requires r.EditProfile?
  {
    var u :- ByPhone(p, db, r.phone);
    if !Found(u) then
      Done(Outcome(db, Answer("El usuario " + u.name + " no se encuentra registrado en el sistema", false)))
    else if u.token != r.token then Done(Outcome(db, BadToken(u)))
    else
      var v := u.(name := r.name, online := r.online == "true", photo := r.photo,
                  place := r.place, password := r.password);
      Done(Outcome(SaveUser(p, db, v),
                   Answer("Se modificaron los datos del usuario " + v.name + " correctamente. Token:" + v.token,
                          true)))
  }

  /** `consultarUsuarioOnline`: a read that also renews the record. */
  function Seen(p: Platform, u: User, renew: string, now: string): (v: User) {
    var w := u.(lastSeen := now);
    if renew == "true" then w.(token := p.digest(w.phone + w.lastSeen)) else w
  }

  function DoConsult(p: Platform, db: Data, phone: string, renew: string, now: string, number: string)
    : (o: Attempt<Outcome>)
  {
    var u :- ByPhone(p, db, phone);
    if Found(u) then
      var v := Seen(p, u, renew, now);
      Done(Outcome(SaveUser(p, db, v), Profile(v)))
    else Done(Outcome(db, Answer("No se pudo obtener el estado del usuario con numero: " + number
                                 + " ya que no se encuentra registrado en el sistema.", false)))
  }

  function DoCheckIn(p: Platform, db: Data, phone: string, place: string): (o: Attempt<Outcome>) {
    var u :- ByPhone(p, db, phone);
    if Found(u) then Done(Outcome(SaveUser(p, db, u.(place := place)), Answer(place, true)))
    else Done(Outcome(db, Answer("el usuario no existe.", false)))
  }

  function DoPost(p: Platform, db: Data, senderPhone: string, receiverPhone: string, token: string,
                  body: string, date: string): (o: Attempt<Outcome>)
  {
    var sender :- ByPhone(p, db, senderPhone);
    var receiver :- ByPhone(p, db, receiverPhone);
    if !Found(sender) || !Found(receiver) then
      Done(Outcome(db, Answer("No se pudo almacenar la conversacion porque: "
                              + (if !Found(sender) then "el emisor no existe." else "")
                              + (if !Found(receiver) then " el receptor no existe." else ""), false)))
    else if sender.token != token then Done(Outcome(db, BadToken(sender)))
    else
      var m := NewMessage(p, body, sender.id, date);
      var after :- Deliver(p, db, sender, receiver, m);
      Done(Outcome(after, Answer(m.id, true)))
  }

  /** How far a series of deliveries came: an exception ends it. */
  datatype Sent = Sent(db: Data, raised: bool)

  /** One turn of the loop of `almacenarListaDifusion`. */
  function DeliverOne(p: Platform, db: Data, sender: User, phone: string, m: Message): (s: Sent) {
    match ByPhone(p, db, phone)
    case Raised => Sent(db, true)
    case Done(u) =>
      if Found(u) && u.online then
        match Deliver(p, db, sender, u, m)
        case Raised => Sent(db, true)
        case Done(after) => Sent(after, false)
      else Sent(db, false)
  }

  /** The loop over the first contacts. */
  function DeliverEach(p: Platform, db: Data, sender: User, contacts: seq<string>, m: Message): (s: Sent) {
    if contacts == [] then Sent(db, false)
    else
      var n := |contacts| - 1;
      var before := DeliverEach(p, db, sender, contacts[..n], m);
      if before.raised then before else DeliverOne(p, before.db, sender, contacts[n], m)
  }

  function DoBroadcast(p: Platform, db: Data, senderPhone: string, token: string, contacts: seq<string>,
                       body: string, date: string): (o: Attempt<Outcome>)
  {
    var sender :- ByPhone(p, db, senderPhone);
    if !Found(sender) then
      Done(Outcome(db, Answer("No se pudo almacenar la lista de difusion porque el emisor no existe", false)))
    else if sender.token != token then Done(Outcome(db, BadToken(sender)))
    else
      var sent := DeliverEach(p, db, sender, contacts, NewMessage(p, body, sender.id, date));
      Done(Outcome(sent.db, if sent.raised then Uncaught else Answer("Lista de difusion enviada correctamente", true)))
  }

  /** `obtenerIdConversacion`.  The guard compares with the user sentinel, as the
      source does, so the default id is answered only for that literal id. */
  function DoFind(p: Platform, db: Data, senderPhone: string, receiverPhone: string): (r: Attempt<Reply>) {
    var sender :- ByPhone(p, db, senderPhone);
    var receiver :- ByPhone(p, db, receiverPhone);
    if Found(sender) && Found(receiver) then
      var c :- LoadTalk(p, db, PairId(sender.id, receiver.id));
      var d :- if c.id == NO_CONVERSATION_ID then LoadTalk(p, db, PairId(receiver.id, sender.id)) else Done(c);
      if d.id != NO_USER_ID then Done(Answer(d.id, true))
      else Done(Answer(PairId(sender.id, receiver.id), false))
    else
      var u := if !Found(sender) then sender else receiver;
      Done(Answer("Usuario " + u.name + " no se encuentra registrado en el sistema", false))
  }

  /** The messages after the first one that carries `lastId`. */
  function After(ms: seq<Message>, lastId: string): (rest: seq<Message>) {
    if ms == [] then []
    else if ms[0].id == lastId then ms[1..]
    else After(ms[1..], lastId)
  }

  function Since(ms: seq<Message>, lastId: string): (rest: seq<Message>) {
    if lastId == "" then ms else After(ms, lastId)
  }

  function DoFetch(p: Platform, db: Data, talkId: string, lastId: string): (r: Attempt<Reply>) {
    var c :- LoadTalk(p, db, talkId);
    if c.id != NO_CONVERSATION_ID then Done(Messages(Since(c.messages, lastId)))
    else Done(Answer("La conversacion " + talkId + " no se encuentra en el sistema", false))
  }

  /** First loop of `obtenerConversaciones`: the stored conversations that are not known. */
  function Fresh(p: Platform, db: Data, ids: seq<string>, known: seq<string>): (cs: Attempt<seq<Conversation>>) {
    if ids == [] then Done([])
    else
      var n := |ids| - 1;
      var before :- Fresh(p, db, ids[..n], known);
      if ids[n] in known then Done(before)
      else
        var c :- LoadTalk(p, db, ids[n]);
        Done(if c.id != NO_CONVERSATION_ID then before + [c] else before)
  }

  /** Whether the indexing in the second loop stays in range. */
  predicate Indexable(me: string, c: Conversation) {
    && c.messages != []
    && c.users != []
    && (c.users[0].id == me ==> |c.users| >= 2)
  }

  function Summarise(me: string, c: Conversation): (s: Summary)
    requires Indexable(me, c)
  {
    var contact := if c.users[0].id == me then c.users[1] else c.users[0];
    Summary(c.id, c.messages[|c.messages| - 1].body, contact.name, contact.phone, contact.photo)
  }

  function SummariseAll(me: string, cs: seq<Conversation>): (ss: seq<Summary>)
    requires forall c :: c in cs ==> Indexable(me, c)
    ensures |ss| == |cs|
  {
    seq(|cs|, i requires 0 <= i < |cs| => Summarise(me, cs[i]))
  }

  function DoList(p: Platform, db: Data, phone: string, known: seq<string>): (r: Attempt<Reply>) {
    var u :- ByPhone(p, db, phone);
    if !Found(u) then Done(Silent)
    else
      var cs :- Fresh(p, db, Split(Get(db, IndexKey(u.id)), SEPARATOR), known);
      Done(if forall c :: c in cs ==> Indexable(u.id, c) then Summaries(SummariseAll(u.id, cs)) else Fault)
  }

  function Reachable(p: Platform, db: Data, phones: seq<string>): (us: Attempt<seq<User>>) {
    if phones == [] then Done([])
    else
      var n := |phones| - 1;
      var before :- Reachable(p, db, phones[..n]);
      var u :- ByPhone(p, db, phones[n]);
      Done(before + if Found(u) && u.online then [u] else [])
  }

  function DoContacts(p: Platform, db: Data, phones: seq<string>): (r: Attempt<Reply>) {
    var us :- Reachable(p, db, phones);
    Done(Contacts(us))
  }

  function Step(p: Platform, db: Data, r: Request): (o: Outcome) {
    match r
    case Register(name, phone, password, now) => Settle(db, DoRegister(p, db, name, phone, password, now))
    case EditProfile(_, _, _, _, _, _, _) => Settle(db, DoEdit(p, db, r))
    case Consult(phone, renew, now, number) => Settle(db, DoConsult(p, db, phone, renew, now, number))
    case CheckIn(phone, place) => Settle(db, DoCheckIn(p, db, phone, place))
    case Post(s, t, token, body, date) => Settle(db, DoPost(p, db, s, t, token, body, date))
    case Broadcast(s, token, contacts, body, date) => Settle(db, DoBroadcast(p, db, s, token, contacts, body, date))
    case FindTalk(s, t) => Told(db, DoFind(p, db, s, t))
    case Fetch(id, last) => Told(db, DoFetch(p, db, id, last))
    case ListTalks(phone, known) => Told(db, DoList(p, db, phone, known))
    case FindContacts(phones) => Told(db, DoContacts(p, db, phones))
  }

  /** The database after a run of requests on an empty one.  It survives the process, so the
      requests may be those of several lives of the server. */
  function Run(p: Platform, rs: seq<Request>): (db: Data) {
    if rs == [] then map[] else Step(p, Run(p, rs[..|rs| - 1]), rs[|rs| - 1]).db
  }

  // ---------------------------------------------------------------------
  // Steps whose users can be read.

  lemma UserStep(p: Platform, db: Data, r: Request)
    requires (r.Register? || r.EditProfile? || r.Consult? || r.CheckIn?) && ByPhone(p, db, r.phone).Done?
    ensures Step(p, db, r).reply != Uncaught && Step(p, db, r).reply != Fault
  {
    hide ByPhone, SaveUser, NewUser, Seen, DoPost, DoBroadcast, DoFind, DoFetch, DoList, DoContacts;
  }

  lemma PostStep(p: Platform, db: Data, r: Request)
    requires r.Post? && ByPhone(p, db, r.senderPhone).Done? && ByPhone(p, db, r.receiverPhone).Done?
    ensures var s, t, o := ByPhone(p, db, r.senderPhone).value, ByPhone(p, db, r.receiverPhone).value, Step(p, db, r);
            if Found(s) && Found(t) && s.token == r.token then
              var after := Deliver(p, db, s, t, NewMessage(p, r.body, s.id, r.date));
              o == if after.Raised? then Outcome(db, Uncaught)
                   else Outcome(after.value, Answer(NewMessage(p, r.body, s.id, r.date).id, true))
            else o.db == db && o.reply.Answer? && !o.reply.success
  {
    hide ByPhone, Deliver, DoRegister, DoEdit, DoConsult, DoCheckIn, DoBroadcast, DoFind, DoFetch, DoList, DoContacts;
  }

  lemma BroadcastStep(p: Platform, db: Data, r: Request)
    requires r.Broadcast? && ByPhone(p, db, r.senderPhone).Done?
    ensures var s, o := ByPhone(p, db, r.senderPhone).value, Step(p, db, r);
            if Found(s) && s.token == r.token then
              var sent := DeliverEach(p, db, s, r.contacts, NewMessage(p, r.body, s.id, r.date));
              o.db == sent.db && (o.reply == Uncaught <==> sent.raised) && o.reply != Fault
            else o.db == db && o.reply.Answer?
  {
    hide ByPhone, DeliverEach, DoRegister, DoEdit, DoConsult, DoCheckIn, DoPost, DoFind, DoFetch, DoList, DoContacts;
  }

  // ---------------------------------------------------------------------
  // The contacts that can be reached.

  /** The user of the phone can be read, but is not registered or not online. */
  predicate Passed(p: Platform, db: Data, phone: string) {
    var u := ByPhone(p, db, phone);
    u.Done? && !(Found(u.value) && u.value.online)
  }

  /** The phones that are not passed over. */
  function Live(p: Platform, db: Data, phones: seq<string>): (live: seq<string>) {
    if phones == [] then []
    else
      var n := |phones| - 1;
      Live(p, db, phones[..n]) + if Passed(p, db, phones[n]) then [] else [phones[n]]
  }

  /** A phone whose user can be read is live exactly when it is listed and the user is
      registered and online. */
  lemma {:induction false} LiveExactly(p: Platform, db: Data, phones: seq<string>, t: string)
    ensures t in Live(p, db, phones) <==> t in phones && !Passed(p, db, t)
    ensures var u := ByPhone(p, db, t);
            u.Done? ==> (t in Live(p, db, phones) <==> t in phones && Found(u.value) && u.value.online)
  {
    hide ByPhone;
    if phones != [] {
      var n := |phones| - 1;
      LiveExactly(p, db, phones[..n], t);
      assert phones == phones[..n] + [phones[n]];
    }
  }

  /** The contacts answered are the users of the live phones, in order. */
  lemma {:induction false} ReachableAreLive(p: Platform, db: Data, phones: seq<string>)
    ensures var us, live := Reachable(p, db, phones), Live(p, db, phones);
            us.Done? ==>
              |us.value| == |live| && forall i :: 0 <= i < |live| ==> ByPhone(p, db, live[i]) == Done(us.value[i])
  {
    hide ByPhone;
    if phones != [] { ReachableAreLive(p, db, phones[..|phones| - 1]); }
  }

  // ---------------------------------------------------------------------
  // A broadcast is the same as single posts.

  /** Posting once to each phone in order, until a post ends in an exception. */
  function PostEach(p: Platform, db: Data, senderPhone: string, phones: seq<string>, token: string,
                    body: string, date: string): (s: Sent)
  {
    if phones == [] then Sent(db, false)
    else
      var n := |phones| - 1;
      var before := PostEach(p, db, senderPhone, phones[..n], token, body, date);
      if before.raised then before
      else
        var o := Step(p, before.db, Post(senderPhone, phones[n], token, body, date));
        Sent(o.db, o.reply == Uncaught)
  }

  lemma DeliverOneKeepsUsers(p: Platform, db: Data, sender: User, phone: string, m: Message, x: string)
    ensures LoadUser(p, DeliverOne(p, db, sender, phone, m).db, x) == LoadUser(p, db, x)
  {
    hide LoadUser, Deliver;
    var u := ByPhone(p, db, phone);
    if u.Done? { DeliverKeepsUsers(p, db, sender, u.value, m, x); }
  }

  lemma {:induction false} DeliverEachKeepsUsers(p: Platform, db: Data, sender: User, contacts: seq<string>,
                                                 m: Message, x: string)
    ensures LoadUser(p, DeliverEach(p, db, sender, contacts, m).db, x) == LoadUser(p, db, x)
  {
    hide LoadUser, DeliverOne;
    if contacts != [] {
      var n := |contacts| - 1;
      DeliverEachKeepsUsers(p, db, sender, contacts[..n], m, x);
      DeliverOneKeepsUsers(p, DeliverEach(p, db, sender, contacts[..n], m).db, sender, contacts[n], m, x);
    }
  }

  /** A post by a registered sender with the right token is a delivery, if the receiver is not
      passed over. */
  lemma PostDelivers(p: Platform, db: Data, s: string, t: string, body: string, date: string)
    requires ByPhone(p, db, s).Done? && Found(ByPhone(p, db, s).value) && !Passed(p, db, t)
    ensures var sender := ByPhone(p, db, s).value;
            var o := Step(p, db, Post(s, t, sender.token, body, date));
            DeliverOne(p, db, sender, t, NewMessage(p, body, sender.id, date)) == Sent(o.db, o.reply == Uncaught)
  {
    hide Deliver, LoadUser;
  }

  lemma PostEachSnoc(p: Platform, db: Data, s: string, phones: seq<string>, t: string, token: string,
                     body: string, date: string)
    ensures var before := PostEach(p, db, s, phones, token, body, date);
            PostEach(p, db, s, phones + [t], token, body, date) ==
            if before.raised then before
            else
              var o := Step(p, before.db, Post(s, t, token, body, date));
              Sent(o.db, o.reply == Uncaught)
  {
    hide Step;
    assert (phones + [t])[..|phones|] == phones;
  }

  lemma {:induction false} DeliverEachIsPosts(p: Platform, db: Data, senderPhone: string,
                                              contacts: seq<string>, body: string, date: string)
    requires ByPhone(p, db, senderPhone).Done? && Found(ByPhone(p, db, senderPhone).value)
    ensures var sender := ByPhone(p, db, senderPhone).value;
            DeliverEach(p, db, sender, contacts, NewMessage(p, body, sender.id, date))
            == PostEach(p, db, senderPhone, Live(p, db, contacts), sender.token, body, date)
  {
    hide LoadUser, Step, Deliver;
    if contacts != [] {
      var n := |contacts| - 1;
      DeliverEachIsPosts(p, db, senderPhone, contacts[..n], body, date);
      var sender := ByPhone(p, db, senderPhone).value;
      var m := NewMessage(p, body, sender.id, date);
      var live := Live(p, db, contacts[..n]);
      var before := DeliverEach(p, db, sender, contacts[..n], m);
      DeliverEachKeepsUsers(p, db, sender, contacts[..n], m, p.digest(contacts[n]));
      DeliverEachKeepsUsers(p, db, sender, contacts[..n], m, p.digest(senderPhone));
      if Passed(p, db, contacts[n]) {
        assert Live(p, db, contacts) == live + [] == live;
      } else {
        PostDelivers(p, before.db, senderPhone, contacts[n], body, date);
        PostEachSnoc(p, db, senderPhone, live, contacts[n], sender.token, body, date);
      }
    }
  }

  /** A broadcast leaves the database that posting to each live contact, in list order, leaves
      until a post ends in an exception, and then it ends in one too; a rejected broadcast leaves
      the database as it was. */
  lemma BroadcastIsPosts(p: Platform, db: Data, senderPhone: string, token: string, contacts: seq<string>,
                         body: string, date: string)
    ensures var o := Step(p, db, Broadcast(senderPhone, token, contacts, body, date));
            var sender := ByPhone(p, db, senderPhone);
            if sender.Done? && Found(sender.value) && sender.value.token == token then
              PostEach(p, db, senderPhone, Live(p, db, contacts), token, body, date)
              == Sent(o.db, o.reply == Uncaught)
            else o.db == db && (o.reply == Uncaught <==> sender.Raised?)
  {
    hide LoadUser, PostEach, DeliverEach, Live, Step;
    var sender := ByPhone(p, db, senderPhone);
    if sender.Done? {
      BroadcastStep(p, db, Broadcast(senderPhone, token, contacts, body, date));
      if Found(sender.value) { DeliverEachIsPosts(p, db, senderPhone, contacts, body, date); }
    } else {
      NoSender(p, db, Broadcast(senderPhone, token, contacts, body, date));
    }
  }

  lemma NoSender(p: Platform, db: Data, r: Request)
    requires r.Broadcast? && ByPhone(p, db, r.senderPhone).Raised?
    ensures Step(p, db, r) == Outcome(db, Uncaught)
  {
    hide ByPhone, DeliverEach, DoRegister, DoEdit, DoConsult, DoCheckIn, DoPost, DoFind, DoFetch, DoList, DoContacts;
  }
}
