/** The objects of the server: the database, a conversation in memory, and the
    request handlers.  Each method is tied to the functions of `Tables` and
    `Requests`, about which the guarantees are proved. */
module Server {
  import opened StringUtil
  import opened Records
  import opened Tables
  import opened Requests
  import opened Chat
  import opened Runs
  import opened History

  /** `BaseDeDatos`, with a store whose writes succeed. */
  class Database {
    const platform: Platform
    var data: Data

    constructor (platform: Platform)
      ensures this.platform == platform && data == map[]
    {
      this.platform := platform;
      data := map[];
    }

    method Put(key: string, value: string)
      modifies this
      ensures data == old(data)[key := value]
    {
      data := data[key := value];
    }

    method Find(key: string) returns (value: string)
      ensures value == Get(data, key)
    {
      if key in data { value := data[key]; } else { value := NOT_FOUND; }
    }

    method PutUser(u: User)
      modifies this
      ensures data == SaveUser(platform, old(data), u)
    {
      Put(UserKey(u.id), WriteUser(platform, u));
    }

    method FindUser(id: string) returns (u: Attempt<User>)
      ensures u == LoadUser(platform, data, id)
    {
      var text := Find(UserKey(id));
      if text == NOT_FOUND { u := Done(NoUser); } else { u := ReadUser(platform, text); }
    }

    /** The first loop of `Conversacion::deserealizar`. */
    method FindUsers(ids: seq<string>) returns (us: Attempt<seq<User>>)
      ensures us == LoadUsers(platform, data, ids)
    {
      hide LoadUser;
      var found: seq<User> := [];
      for i := 0 to |ids|
        invariant |found| == i
        invariant forall k :: 0 <= k < i ==> LoadUser(platform, data, ids[k]) == Done(found[k])
      {
        var u := FindUser(ids[i]);
        if u.Raised? { return Raised; }
        found := found + [u.value];
      }
      us := Done(found);
      assert found == LoadUsers(platform, data, ids).value;
    }

    /** `setConversacion`: the text of the conversation, then the index of each user. */
    method PutTalk(t: Talk)
      modifies this
      ensures data == SaveTalk(platform, old(data), old(t.Value()))
    {
      hide Split, TalkText, IndexKey, TalkKey;
      var text := t.Serialise(platform);
      var id := t.GetId();
      Put(TalkKey(id), text);
      var users := t.users;
      ghost var ids, start := UserIds(users), data;
      for i := 0 to |users|
        invariant data == AddToIndexes(start, ids[..i], id)
      {
        var value := Find(IndexKey(users[i].id));
        var known := SplitLoop(value, SEPARATOR);
        if id !in known { value := value + [SEPARATOR] + id; }
        Put(IndexKey(users[i].id), value);
        assert ids[..i + 1][..i] == ids[..i];
      }
      assert ids[..|users|] == ids;
    }

    method FindIds(userId: string) returns (ids: seq<string>)
      ensures ids == Split(Get(data, IndexKey(userId)), SEPARATOR)
    {
      var value := Find(IndexKey(userId));
      ids := SplitLoop(value, SEPARATOR);
    }

    method FindTalk(id: string) returns (t: Attempt<Talk>)
      ensures Loads(t, LoadTalk(platform, data, id)) && (t.Done? ==> fresh(t.value))
    {
      hide ReadTalk;
      var text := Find(TalkKey(id));
      var talk: Talk;
      if text == NOT_FOUND {
        talk := new Talk.Missing();
      } else {
        talk := new Talk.Empty();
        var ok := talk.Deserialise(this, text);
        if ok.Raised? { return Raised; }
      }
      t := Done(talk);
    }
  }

  /** An attempt to load a conversation gives the object with that value, or its exception. */
  ghost predicate Loads(t: Attempt<Talk>, c: Attempt<Conversation>)
    reads if t.Done? then {t.value} else {}
  {
    (t.Done? <==> c.Done?) && (t.Done? ==> t.value.Value() == c.value)
  }

  /** `Conversacion`. */
  class Talk {
    var id: string
    var users: seq<User>
    var messages: seq<Message>

    ghost function Value(): (c: Conversation)
      reads this
    {
      Conversation(NameOf(id, users), users, messages)
    }

    /** The constructor from users and messages; the id is computed by `getId`. */
    constructor Between(users: seq<User>, messages: seq<Message>)
      ensures Value() == Conversation(Join(UserIds(users), '-'), users, messages)
    {
      this.users := users;
      this.messages := messages;
      id := "";
      new;
      var computed := GetId();
      id := computed;
    }

    constructor Missing()
      ensures Value() == Conversation(NO_CONVERSATION_ID, [], [])
    {
      id, users, messages := NO_CONVERSATION_ID, [], [];
    }

    /** The members before a text is read into them. */
    constructor Empty()
      ensures Value() == Conversation("", [], []) && id == "" && users == [] && messages == []
    {
      id, users, messages := "", [], [];
      new;
      assert Join(UserIds([]), '-') == "";
    }

    method GetId() returns (r: string)
      ensures r == NameOf(id, users)
    {
      if id != "" { return id; }
      r := "";
      ghost var ids := UserIds(users);
      for i := 0 to |users|
        invariant r == Join(ids[..i], '-')
      {
        if r != "" { r := r + "-"; }
        r := r + users[i].id;
        assert ids[..i + 1][..i] == ids[..i];
      }
      assert ids[..|users|] == ids;
    }

    method AddMessage(m: Message)
      modifies this
      ensures Value() == old(Value()).(messages := old(messages) + [m])
    {
      messages := messages + [m];
    }

    /** The first loop of `serializar`. */
    method JoinIds() returns (text: string)
      ensures text == Join(UserIds(users), SEPARATOR)
    {
      text := "";
      ghost var ids := UserIds(users);
      for i := 0 to |users|
        invariant text == Join(ids[..i], SEPARATOR)
      {
        assert ids[..i + 1][..i] == ids[..i];
        if text != "" { text := text + [SEPARATOR]; }
        text := text + users[i].id;
      }
      assert ids[..|users|] == ids;
    }

    /** The second loop of `serializar`. */
    method JoinMessages(p: Platform) returns (text: string)
      ensures text == Join(WriteMessages(p, messages), SEPARATOR)
    {
      hide WriteMessage;
      text := "";
      ghost var texts := WriteMessages(p, messages);
      for i := 0 to |messages|
        invariant text == Join(texts[..i], SEPARATOR)
      {
        assert texts[..i + 1][..i] == texts[..i];
        if text != "" { text := text + [SEPARATOR]; }
        text := text + WriteMessage(p, messages[i]);
      }
      assert texts[..|messages|] == texts;
    }

    /** `serializar`: both lists are accumulated with the list separator. */
    method Serialise(p: Platform) returns (text: string)
      ensures text == TalkText(p, Value().id, UserIds(users), messages)
    {
      hide Join;
      var idText := GetId();
      var userText := JoinIds();
      var messageText := JoinMessages(p);
      text := p.write(map["Id" := Text(idText), "IdsUsuarios" := Text(userText), "Mensajes" := Text(messageText)]);
    }

    /** The second loop of `deserealizar`. */
    static method ReadEach(p: Platform, texts: seq<string>) returns (ms: Attempt<seq<Message>>)
      ensures ms == ReadMessages(p, texts)
    {
      hide ReadMessage;
      var read: seq<Message> := [];
      for i := 0 to |texts|
        invariant |read| == i
        invariant forall k :: 0 <= k < i ==> ReadMessage(p, texts[k]) == Done(read[k])
      {
        var m := ReadMessage(p, texts[i]);
        if m.Raised? { return Raised; }
        read := read + [m.value];
      }
      ms := Done(read);
      assert read == ReadMessages(p, texts).value;
    }

    /** `deserealizar`: a failed parse leaves the members as they were, and an exception ends it. */
    method Deserialise(db: Database, text: string) returns (ok: Attempt<bool>)
      modifies this
      ensures ok.Raised? <==> ReadTalk(db.platform, db.data, text).Raised?
      ensures ok.Done? ==> ok.value == db.platform.read(text).Object?
      ensures ok == Done(true) ==> Done(Value()) == ReadTalk(db.platform, db.data, text)
      ensures ok == Done(false) ==>
        Value() == old(Value()) && ReadTalk(db.platform, db.data, text) == Done(Conversation("", [], []))
    {
      hide LoadUsers, ReadMessages, Split;
      match db.platform.read(text)
      case Failed => ok := Done(false);
      case Other => ok := Raised;
      case Object(o) =>
        var name, idText, texts := GetText(o, "Id"), GetText(o, "IdsUsuarios"), GetText(o, "Mensajes");
        if name.Raised? || idText.Raised? { return Raised; }
        var ids := SplitLoop(idText.value, SEPARATOR);
        var us := db.FindUsers(ids);
        if us.Raised? || texts.Raised? { return Raised; }
        var pieces := SplitLoop(texts.value, SEPARATOR);
        var ms := ReadEach(db.platform, pieces);
        if ms.Raised? { return Raised; }
        id, users, messages := name.value, us.value, ms.value;
        ok := Done(true);
    }
  }

  /** `Servicio`: one handler per request.  The ghost `chat` is the chat the database stores. */
  class Service {
    const db: Database
    ghost var chat: Chat

    ghost predicate Valid()
      reads this, db
    {
      Holds(db.platform, db.data, chat)
    }

    constructor (platform: Platform)
      requires platform.Lawful()
      ensures Valid() && fresh(db) && db.platform == platform && db.data == map[] && chat == Chat(map[], [])
    {
      db := new Database(platform);
      chat := Chat(map[], []);
      new;
      RunHolds(platform, []);
    }

    /** `Usuario::obtenerPorTelefono`. */
    method UserByPhone(phone: string) returns (u: Attempt<User>)
      ensures u == ByPhone(db.platform, db.data, phone)
    {
      u := db.FindUser(db.platform.digest(phone));
    }

    /** `registrarUsuario`. */
    method Register(name: string, phone: string, password: string, now: string) returns (reply: Reply)
      requires Valid()
      modifies this, db
      ensures Valid()
      ensures Outcome(db.data, reply) ==
              Step(db.platform, old(db.data), Request.Register(name, phone, password, now))
      ensures chat == Act(db.platform, old(chat), Request.Register(name, phone, password, now))
    {
      hide Holds, Act, ByPhone, SaveUser;
      StepHolds(db.platform, db.data, chat, Request.Register(name, phone, password, now));
      chat := Act(db.platform, chat, Request.Register(name, phone, password, now));
      var found := UserByPhone(phone);
      if found.Raised? { return Uncaught; }
      var user := found.value;
      if user.id != NO_USER_ID {
        reply := Answer("El usuario ya existe", false);
      } else {
        db.PutUser(NewUser(db.platform, name, phone, password, now));
        reply := Answer("Usuario registrado correctamente", true);
      }
    }

    /** `consultarUsuarioOnline`. */
    method Consult(phone: string, renew: string, now: string, number: string) returns (reply: Reply)
      requires Valid()
      modifies this, db
      ensures Valid()
      ensures Outcome(db.data, reply) == Step(db.platform, old(db.data), Request.Consult(phone, renew, now, number))
      ensures chat == Act(db.platform, old(chat), Request.Consult(phone, renew, now, number))
    {
      hide Holds, Act, ByPhone, SaveUser;
      StepHolds(db.platform, db.data, chat, Request.Consult(phone, renew, now, number));
      chat := Act(db.platform, chat, Request.Consult(phone, renew, now, number));
      var found := UserByPhone(phone);
      if found.Raised? { return Uncaught; }
      var user := found.value;
      if user.id != NO_USER_ID {
        user := user.(lastSeen := now);
        if renew == "true" { user := user.(token := db.platform.digest(user.phone + user.lastSeen)); }
        db.PutUser(user);
        reply := Profile(user);
      } else {
        reply := Answer("No se pudo obtener el estado del usuario con numero: " + number
                        + " ya que no se encuentra registrado en el sistema.", false);
      }
    }

    /** `administrarPerfil`. */
    method EditProfile(r: Request) returns (reply: Reply)
      requires Valid() && r.EditProfile?
      modifies this, db
      ensures Valid()
      ensures Outcome(db.data, reply) == Step(db.platform, old(db.data), r)
      ensures chat == Act(db.platform, old(chat), r)
    {
      hide Holds, Act, ByPhone, SaveUser;
      StepHolds(db.platform, db.data, chat, r);
      chat := Act(db.platform, chat, r);
      var found := UserByPhone(r.phone);
      if found.Raised? { return Uncaught; }
      var user := found.value;
      if user.id != NO_USER_ID {
        if user.token == r.token {
          user := user.(name := r.name);
          user := user.(online := r.online == "true");
          user := user.(photo := r.photo);
          user := user.(place := r.place);
          user := user.(password := r.password);
          db.PutUser(user);
          reply := Answer("Se modificaron los datos del usuario " + user.name
                          + " correctamente. Token:" + user.token, true);
        } else {
          reply := BadToken(user);
        }
      } else {
        reply := Answer("El usuario " + user.name + " no se encuentra registrado en el sistema", false);
      }
    }

    /** `checkIn`. */
    method CheckIn(phone: string, place: string) returns (reply: Reply)
      requires Valid()
      modifies this, db
      ensures Valid()
      ensures Outcome(db.data, reply) == Step(db.platform, old(db.data), Request.CheckIn(phone, place))
      ensures chat == Act(db.platform, old(chat), Request.CheckIn(phone, place))
    {
      hide Holds, Act, ByPhone, SaveUser;
      StepHolds(db.platform, db.data, chat, Request.CheckIn(phone, place));
      chat := Act(db.platform, chat, Request.CheckIn(phone, place));
      var found := UserByPhone(phone);
      if found.Raised? { return Uncaught; }
      var user := found.value;
      if user.id != NO_USER_ID {
        user := user.(place := place);
        db.PutUser(user);
        reply := Answer(place, true);
      } else {
        reply := Answer("el usuario no existe.", false);
      }
    }

    /** `obtenerContactos`. */
    method FindContacts(phones: seq<string>) returns (reply: Reply)
      ensures reply == Told(db.data, DoContacts(db.platform, db.data, phones)).reply
    {
      hide ByPhone;
      var users := [];
      for i := 0 to |phones|
        invariant Reachable(db.platform, db.data, phones[..i]) == Done(users)
      {
        assert phones[..i + 1][..i] == phones[..i];
        var found := UserByPhone(phones[i]);
        if found.Raised? {
          ReachableRaises(db.platform, db.data, phones, i + 1);
          return Uncaught;
        }
        var user := found.value;
        assert users + [] == users;
        if user.id != NO_USER_ID && user.online { users := users + [user]; }
      }
      assert phones[..|phones|] == phones;
      reply := Contacts(users);
    }

    /** The search for a conversation in both orders and the append or creation,
        the part common to posts and broadcasts. */
    method DeliverTo(sender: User, receiver: User, m: Message) returns (raised: bool)
      modifies db
      ensures var after := Deliver(db.platform, old(db.data), sender, receiver, m);
              raised == after.Raised? && db.data == if raised then old(db.data) else after.value
    {
      hide LoadTalk, SaveTalk;
      var found := db.FindTalk(PairId(sender.id, receiver.id));
      if found.Raised? { return true; }
      var talk := found.value;
      var id := talk.GetId();
      if id != NO_CONVERSATION_ID {
        talk.AddMessage(m);
        db.PutTalk(talk);
      } else {
        found := db.FindTalk(PairId(receiver.id, sender.id));
        if found.Raised? { return true; }
        talk := found.value;
        id := talk.GetId();
        if id != NO_CONVERSATION_ID {
          talk.AddMessage(m);
          db.PutTalk(talk);
        } else {
          talk := new Talk.Between([sender, receiver], [m]);
          db.PutTalk(talk);
        }
      }
      raised := false;
    }

    /** `almacenarConversacion`. */
    method Post(senderPhone: string, receiverPhone: string, token: string, body: string, date: string)
      returns (reply: Reply)
      requires Valid()
      modifies this, db
      ensures Valid()
      ensures Outcome(db.data, reply) ==
              Step(db.platform, old(db.data), Request.Post(senderPhone, receiverPhone, token, body, date))
      ensures chat == Act(db.platform, old(chat), Request.Post(senderPhone, receiverPhone, token, body, date))
    {
      hide Holds, Act, ByPhone, Deliver;
      StepHolds(db.platform, db.data, chat, Request.Post(senderPhone, receiverPhone, token, body, date));
      chat := Act(db.platform, chat, Request.Post(senderPhone, receiverPhone, token, body, date));
      var found := UserByPhone(senderPhone);
      if found.Raised? { return Uncaught; }
      var sender := found.value;
      found := UserByPhone(receiverPhone);
      if found.Raised? { return Uncaught; }
      var receiver := found.value;
      if sender.id == NO_USER_ID || receiver.id == NO_USER_ID {
        var warning := "No se pudo almacenar la conversacion porque: ";
        warning := warning + (if sender.id == NO_USER_ID then "el emisor no existe." else "");
        warning := warning + (if receiver.id == NO_USER_ID then " el receptor no existe." else "");
        reply := Answer(warning, false);
      } else if sender.token == token {
        var m := NewMessage(db.platform, body, sender.id, date);
        var raised := DeliverTo(sender, receiver, m);
        if raised { return Uncaught; }
        reply := Answer(m.id, true);
      } else {
        reply := BadToken(sender);
      }
    }

    /** One turn of the loop of `almacenarListaDifusion`. */
    method DeliverToOne(sender: User, contact: string, m: Message) returns (raised: bool)
      modifies db
      ensures Sent(db.data, raised) == DeliverOne(db.platform, old(db.data), sender, contact, m)
    {
      hide ByPhone, Deliver;
      var found := UserByPhone(contact);
      if found.Raised? { return true; }
      var user := found.value;
      raised := false;
      if user.id != NO_USER_ID && user.online { raised := DeliverTo(sender, user, m); }
    }

    /** The loop over the contacts; an exception ends it. */
    method DeliverToEach(sender: User, contacts: seq<string>, m: Message) returns (raised: bool)
      modifies db
      ensures Sent(db.data, raised) == DeliverEach(db.platform, old(db.data), sender, contacts, m)
    {
      hide DeliverOne;
      for i := 0 to |contacts|
        invariant Sent(db.data, false) == DeliverEach(db.platform, old(db.data), sender, contacts[..i], m)
      {
        assert contacts[..i + 1][..i] == contacts[..i];
        raised := DeliverToOne(sender, contacts[i], m);
        if raised {
          DeliverEachEnds(db.platform, old(db.data), sender, contacts, m, i + 1);
          return true;
        }
      }
      assert contacts[..|contacts|] == contacts;
      raised := false;
    }

    /** `almacenarListaDifusion`. */
    method Broadcast(senderPhone: string, token: string, contacts: seq<string>, body: string, date: string)
      returns (reply: Reply)
      requires Valid()
      modifies this, db
      ensures Valid()
      ensures Outcome(db.data, reply) ==
              Step(db.platform, old(db.data), Request.Broadcast(senderPhone, token, contacts, body, date))
      ensures chat == Act(db.platform, old(chat), Request.Broadcast(senderPhone, token, contacts, body, date))
    {
      hide Holds, Act, ByPhone, DeliverEach;
      StepHolds(db.platform, db.data, chat, Request.Broadcast(senderPhone, token, contacts, body, date));
      chat := Act(db.platform, chat, Request.Broadcast(senderPhone, token, contacts, body, date));
      var found := UserByPhone(senderPhone);
      if found.Raised? { return Uncaught; }
      var sender := found.value;
      if sender.id == NO_USER_ID {
        reply := Answer("No se pudo almacenar la lista de difusion porque el emisor no existe", false);
      } else if sender.token != token {
        reply := BadToken(sender);
      } else {
        var m := NewMessage(db.platform, body, sender.id, date);
        var raised := DeliverToEach(sender, contacts, m);
        if raised { return Uncaught; }
        reply := Answer("Lista de difusion enviada correctamente", true);
      }
    }

    /** `obtenerIdConversacion`. */
    method FindId(senderPhone: string, receiverPhone: string) returns (reply: Reply)
      ensures reply == Told(db.data, DoFind(db.platform, db.data, senderPhone, receiverPhone)).reply
    {
      hide ByPhone, LoadTalk;
      var found := UserByPhone(senderPhone);
      if found.Raised? { return Uncaught; }
      var sender := found.value;
      found := UserByPhone(receiverPhone);
      if found.Raised? { return Uncaught; }
      var receiver := found.value;
      if sender.id != NO_USER_ID && receiver.id != NO_USER_ID {
        var talk := db.FindTalk(PairId(sender.id, receiver.id));
        if talk.Raised? { return Uncaught; }
        var id := talk.value.GetId();
        if id == NO_CONVERSATION_ID {
          talk := db.FindTalk(PairId(receiver.id, sender.id));
          if talk.Raised? { return Uncaught; }
        }
        id := talk.value.GetId();
        if id != NO_USER_ID {
          reply := Answer(id, true);
        } else {
          reply := Answer(PairId(sender.id, receiver.id), false);
        }
      } else {
        var user := if sender.id == NO_USER_ID then sender else receiver;
        reply := Answer("Usuario " + user.name + " no se encuentra registrado en el sistema", false);
      }
    }

    /** `obtenerConversacion`: the loop with the `encontrado` flag. */
    method Fetch(talkId: string, lastId: string) returns (reply: Reply)
      ensures reply == Told(db.data, DoFetch(db.platform, db.data, talkId, lastId)).reply
    {
      hide LoadTalk;
      var found := db.FindTalk(talkId);
      if found.Raised? { return Uncaught; }
      var talk := found.value;
      var id := talk.GetId();
      if id != NO_CONVERSATION_ID {
        var messages := talk.messages;
        var answer := [];
        if lastId != "" {
          var seen := false;
          for i := 0 to |messages|
            invariant !seen ==> answer == [] && After(messages, lastId) == After(messages[i..], lastId)
            invariant seen ==> answer + messages[i..] == After(messages, lastId)
          {
            if seen { answer := answer + [messages[i]]; }
            if !seen && messages[i].id == lastId { seen := true; }
            assert messages[i..][1..] == messages[i + 1..];
          }
        } else {
          answer := messages;
        }
        reply := Messages(answer);
      } else {
        reply := Answer("La conversacion " + talkId + " no se encuentra en el sistema", false);
      }
    }

    /** First loop of `obtenerConversaciones`. */
    method FreshTalks(ids: seq<string>, known: seq<string>) returns (talks: seq<Talk>, raised: bool)
      ensures raised == Fresh(db.platform, db.data, ids, known).Raised?
      ensures !raised ==> Done(Values(talks)) == Fresh(db.platform, db.data, ids, known)
    {
      hide LoadTalk;
      talks := [];
      for i := 0 to |ids|
        invariant Done(Values(talks)) == Fresh(db.platform, db.data, ids[..i], known)
      {
        assert ids[..i + 1][..i] == ids[..i];
        if ids[i] !in known {
          var found := db.FindTalk(ids[i]);
          if found.Raised? {
            FreshRaises(db.platform, db.data, ids, known, i + 1);
            return [], true;
          }
          var talk := found.value;
          var id := talk.GetId();
          if id != NO_CONVERSATION_ID { talks := talks + [talk]; }
        }
      }
      assert ids[..|ids|] == ids;
      raised := false;
    }

    /** One turn of the second loop of `obtenerConversaciones`. */
    method SummariseTalk(me: string, talk: Talk) returns (summary: Summary)
      requires Indexable(me, talk.Value())
      ensures summary == Summarise(me, talk.Value())
    {
      var messages := talk.messages;
      var last := messages[|messages| - 1];
      var contact := talk.users[0];
      if contact.id == me { contact := talk.users[1]; }
      var id := talk.GetId();
      summary := Summary(id, last.body, contact.name, contact.phone, contact.photo);
    }

    /** Second loop of `obtenerConversaciones`. */
    method SummariseTalks(me: string, talks: seq<Talk>) returns (answer: seq<Summary>)
      requires forall c :: c in Values(talks) ==> Indexable(me, c)
      ensures answer == SummariseAll(me, Values(talks))
    {
      hide Summarise, Indexable;
      answer := [];
      ghost var cs := Values(talks);
      for i := 0 to |talks|
        invariant |answer| == i
        invariant forall j :: 0 <= j < i ==> answer[j] == Summarise(me, cs[j])
      {
        assert cs[i] in cs && talks[i].Value() == cs[i];
        var summary := SummariseTalk(me, talks[i]);
        answer := answer + [summary];
      }
    }

    /** `obtenerConversaciones`.  The indexing of the second loop is in range because the
        database stores a valid chat. */
    method ListTalks(phone: string, known: seq<string>) returns (reply: Reply)
      requires Valid()
      ensures reply == Told(db.data, DoList(db.platform, db.data, phone, known)).reply && reply != Fault
    {
      hide Holds, ByPhone, Split, Fresh, SummariesOf, Showable, Known, Indexable, SummariseAll;
      ListAnswer(db.platform, db.data, chat, phone, known);
      var found := UserByPhone(phone);
      if found.Raised? { return Uncaught; }
      var user := found.value;
      if user.id == NO_USER_ID { return Silent; }
      var ids := db.FindIds(user.id);
      var talks, raised := FreshTalks(ids, known);
      if raised { return Uncaught; }
      var answer := SummariseTalks(user.id, talks);
      reply := Summaries(answer);
    }

    /** One request to its handler. */
    method Handle(r: Request) returns (reply: Reply)
      requires Valid()
      modifies this, db
      ensures Valid()
      ensures Outcome(db.data, reply) == Step(db.platform, old(db.data), r) && reply != Fault
      ensures chat == Act(db.platform, old(chat), r)
    {
      hide Holds, Raises;
      hide DoFind, DoFetch, DoList, DoRegister, DoEdit, DoConsult, DoCheckIn, DoPost, DoBroadcast, DoContacts;
      NoFault(db.platform, db.data, chat, r);
      match r {
        case Register(name, phone, password, now) => reply := Register(name, phone, password, now);
        case EditProfile(_, _, _, _, _, _, _) => reply := EditProfile(r);
        case Consult(phone, renew, now, number) => reply := Consult(phone, renew, now, number);
        case CheckIn(phone, place) => reply := CheckIn(phone, place);
        case Post(s, t, token, body, date) => reply := Post(s, t, token, body, date);
        case Broadcast(s, token, contacts, body, date) => reply := Broadcast(s, token, contacts, body, date);
        case FindTalk(s, t) => reply := FindId(s, t);
        case Fetch(id, last) => reply := Fetch(id, last);
        case ListTalks(phone, known) => reply := ListTalks(phone, known);
        case FindContacts(phones) => reply := FindContacts(phones);
      }
    }

    /** A server from its start to the end of the requests or to the first exception, which ends
        the process: the database is the one the requests handled make. */
    method Serve(rs: seq<Request>) returns (replies: seq<Reply>)
      requires Valid() && db.data == map[] && chat == Chat(map[], [])
      modifies this, db
      ensures Answers(db.platform, rs, replies)
      ensures var done := rs[..|replies|];
              Valid() && db.data == Run(db.platform, done) && chat == Play(db.platform, done)
      ensures |replies| < |rs| ==> replies != [] && replies[|replies| - 1] == Uncaught
    {
      hide Holds, Step, Act, Answers;
      replies := [];
      AnswersNone(db.platform, rs);
      for i := 0 to |rs|
        invariant Valid() && db.data == Run(db.platform, rs[..i]) && chat == Play(db.platform, rs[..i])
        invariant |replies| == i && Answers(db.platform, rs, replies) && Uncaught !in replies
      {
        assert rs[..i + 1][..i] == rs[..i];
        var reply := Handle(rs[i]);
        AnswersNext(db.platform, rs, replies, reply);
        replies := replies + [reply];
        if reply == Uncaught { return; }
      }
      assert rs[..|rs|] == rs;
    }
  }

  /** The replies to the first requests, of which only the last may be missing for an exception. */
  ghost predicate Answers(p: Platform, rs: seq<Request>, replies: seq<Reply>) {
    && |replies| <= |rs| && Fault !in replies
    && (forall i :: 0 <= i < |replies| ==> replies[i] == Step(p, Run(p, rs[..i]), rs[i]).reply)
    && (forall i :: 0 <= i < |replies| - 1 ==> replies[i] != Uncaught)
  }

  lemma AnswersNone(p: Platform, rs: seq<Request>)
    ensures Answers(p, rs, [])
  {
  }

  lemma AnswersNext(p: Platform, rs: seq<Request>, replies: seq<Reply>, reply: Reply)
    requires Answers(p, rs, replies) && |replies| < |rs| && Uncaught !in replies && reply != Fault
    requires reply == Step(p, Run(p, rs[..|replies|]), rs[|replies|]).reply
    ensures Answers(p, rs, replies + [reply])
  {
    hide Step, Run;
  }

  lemma {:induction false} ReachableRaises(p: Platform, db: Data, phones: seq<string>, k: nat)
    requires k <= |phones| && Reachable(p, db, phones[..k]).Raised?
    ensures Reachable(p, db, phones).Raised?
    decreases |phones|
  {
    hide ByPhone;
    if k == |phones| {
      assert phones[..k] == phones;
    } else {
      var n := |phones| - 1;
      assert phones[..n][..k] == phones[..k];
      ReachableRaises(p, db, phones[..n], k);
    }
  }

  lemma {:induction false} DeliverEachEnds(p: Platform, db: Data, sender: User, contacts: seq<string>, m: Message,
                                           k: nat)
    requires k <= |contacts| && DeliverEach(p, db, sender, contacts[..k], m).raised
    ensures DeliverEach(p, db, sender, contacts, m) == DeliverEach(p, db, sender, contacts[..k], m)
    decreases |contacts|
  {
    hide DeliverOne;
    if k == |contacts| {
      assert contacts[..k] == contacts;
    } else {
      var n := |contacts| - 1;
      assert contacts[..n][..k] == contacts[..k];
      DeliverEachEnds(p, db, sender, contacts[..n], m, k);
    }
  }

  lemma {:induction false} FreshRaises(p: Platform, db: Data, ids: seq<string>, known: seq<string>, k: nat)
    requires k <= |ids| && Fresh(p, db, ids[..k], known).Raised?
    ensures Fresh(p, db, ids, known).Raised?
    decreases |ids|
  {
    hide LoadTalk;
    if k == |ids| {
      assert ids[..k] == ids;
    } else {
      var n := |ids| - 1;
      assert ids[..n][..k] == ids[..k];
      FreshRaises(p, db, ids[..n], known, k);
    }
  }

  ghost function Values(talks: seq<Talk>): (cs: seq<Conversation>)
    reads talks
    ensures |cs| == |talks| && forall i :: 0 <= i < |talks| ==> cs[i] == talks[i].Value()
  {
    if talks == [] then []
    else Values(talks[..|talks| - 1]) + [talks[|talks| - 1].Value()]
  }
}
